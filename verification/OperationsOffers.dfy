/** Every action that the owner is offered, and every blocker shown, in terms of the booking's rows. */
module OperationsOffers {
  import opened Common
  import opened RentalModel
  import opened RentalMachine
  import opened RentalInvariant
  import opened RentalSafety
  import opened Operations

  /** The view looks at every open row of the booking once. */
  lemma RowsListed(reqs: seq<Requirement>, r: Requirement, b: nat)
    ensures LiveSeq([], b) == []
    ensures LiveSeq(reqs + [r], b)
            == LiveSeq(reqs, b) + if r.booking == b && r.status != ReqStatus.CANCELLED && r.status != SUPERSEDED then [r] else []
  {
    assert (reqs + [r])[..|reqs|] == reqs;
  }

  /** What one more row adds to the sums and counts that the view compares. */
  lemma RowCounts(rows: seq<Requirement>, r: Requirement)
    ensures SumOf([], Quantity()) == SumOf([], AssignedQuantity()) == SumOf([], HandedOutQuantity()) == 0
    ensures SumOf([], ReturnedQuantity()) == SumOf([], LostQuantity()) == 0 && CountOf([], Planned()) == CountOf([], Unprepared()) == 0
    ensures SumOf(rows + [r], Quantity()) == SumOf(rows, Quantity()) + r.quantity
    ensures SumOf(rows + [r], AssignedQuantity()) == SumOf(rows, AssignedQuantity()) + r.assignedQty
    ensures SumOf(rows + [r], HandedOutQuantity()) == SumOf(rows, HandedOutQuantity()) + r.handedOutQty
    ensures SumOf(rows + [r], ReturnedQuantity()) == SumOf(rows, ReturnedQuantity()) + r.returnedQty
    ensures SumOf(rows + [r], LostQuantity()) == SumOf(rows, LostQuantity()) + r.lostQty
    ensures CountOf(rows + [r], Planned()) == CountOf(rows, Planned()) + if r.status == PLANNED then 1 else 0
    ensures CountOf(rows + [r], Unprepared()) == CountOf(rows, Unprepared()) + if r.prep == READY then 0 else 1
  {
    assert (rows + [r])[..|rows|] == rows;
  }

  /** A row that still needs units, one that has them but is not ready, and one that is ready but not handed out in full. */
  predicate NeedsUnits(r: Requirement) {
    r.assignedQty < r.quantity || r.status == PLANNED
  }

  predicate NeedsPreparation(r: Requirement) {
    r.prep != READY
  }

  predicate NeedsHandover(r: Requirement) {
    r.handedOutQty < r.quantity
  }

  /** In every reachable state the offer for a confirmed booking is the first step that some open row still needs. */
  lemma ConfirmedOffer(env: Catalogue, s: Tenant, b: nat, facts: ItemFacts)
    requires Reachable(env, s) && b < |s.bookings| && s.bookings[b] == Confirmed
    ensures var rows := LiveRowsOf(s, b);
            ActionFor(Confirmed, LiveSeq(s.reqs, b), facts)
            == if exists r | r in rows :: NeedsUnits(r) then ASSIGN_ITEMS
               else if exists r | r in rows :: NeedsPreparation(r) then PREPARE
               else if exists r | r in rows :: NeedsHandover(r) then HAND_OUT
               else START_RENTAL
  {
    LiveRowsAreOk(env, s, b);
    hide Reachable, LiveRowsOf, LiveSeq, ActionFor;
    OfferOf(LiveSeq(s.reqs, b), facts);
    hide CountersOk, NeedsUnits, NeedsPreparation, NeedsHandover;
  }

  lemma OfferOf(rows: seq<Requirement>, facts: ItemFacts)
    requires forall r | r in rows :: r.assignedQty <= r.quantity && r.handedOutQty <= r.quantity
    ensures ActionFor(Confirmed, rows, facts)
            == if exists r | r in rows :: NeedsUnits(r) then ASSIGN_ITEMS
               else if exists r | r in rows :: NeedsPreparation(r) then PREPARE
               else if exists r | r in rows :: NeedsHandover(r) then HAND_OUT
               else START_RENTAL
  {
    SumsAgreeIff(rows, HandedOutQuantity(), Quantity());
    SumsAgreeIff(rows, AssignedQuantity(), Quantity());
    NoneCounted(rows, Planned());
    NoneCounted(rows, Unprepared());
    hide SumOf, CountOf;
  }

  /** What is offered at the other stages. */
  lemma OtherOffers(b: BookingStatus, rows: seq<Requirement>, facts: ItemFacts)
    requires b != Confirmed
    ensures var action := ActionFor(b, rows, facts);
            && (action == REVIEW <==> b == Pending)
            && (action == RECEIVE_RETURN <==> b == Delivered || b == Overdue)
            && (action == INSPECT <==> b == Returned && SumOf(rows, ReturnedQuantity()) > facts.inspections)
            && (action == REVIEW_RETURN <==> b == Returned && SumOf(rows, ReturnedQuantity()) <= facts.inspections)
            && (action == SETTLE_DEPOSIT <==> b == Inspected && facts.unsettledDeposits > 0)
            && (action == COLLECT_BALANCE <==> b == Inspected && facts.unsettledDeposits == 0 && facts.balance > 0)
            && (action == RESOLVE_RETURN_WORK
                <==> b == Inspected && facts.unsettledDeposits == 0 && facts.balance <= 0 && facts.issues > 0)
            && (action == COMPLETE <==> b == Inspected && facts.unsettledDeposits == 0 && facts.balance <= 0 && facts.issues == 0)
            && (action == NONE <==> b == Completed || b == Cancelled)
  {
    hide SumOf, CountOf;
  }

  /** The blockers shown are exactly the problems that there are at this stage, each with its size. */
  lemma BlockersAre(b: BookingStatus, rows: seq<Requirement>, facts: ItemFacts, shown: Blocker)
    ensures shown in BlockersFor(b, rows, facts)
            <==> match shown
                 case NoCapacity(n) => (b == Pending || b == Confirmed) && 0 < n == CountOf(rows, Planned())
                 case AssignmentsMissing(n) =>
                   (b == Pending || b == Confirmed) && 0 < n == SumOf(rows, Quantity()) - SumOf(rows, AssignedQuantity())
                 case NotPrepared(n) => b == Confirmed && 0 < n == CountOf(rows, Unprepared())
                 case PiecesStillOut(n) =>
                   && (b == Delivered || b == Overdue)
                   && 0 < n == SumOf(rows, HandedOutQuantity()) - SumOf(rows, ReturnedQuantity()) - SumOf(rows, LostQuantity())
                 case AwaitingInspection(n) => b == Returned && 0 < n == SumOf(rows, ReturnedQuantity()) - facts.inspections
                 case DepositsPending(n) => b == Inspected && 0 < n == facts.unsettledDeposits
                 case BalanceOutstanding => b == Inspected && facts.balance > 0
                 case IssuesUnresolved(n) => b == Inspected && 0 < n == facts.issues
  {
    hide SumOf, CountOf, Quantity, AssignedQuantity, HandedOutQuantity, ReturnedQuantity, LostQuantity, Planned, Unprepared;
  }
}
