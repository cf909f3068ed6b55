/**
 The owner's view of a booking: the next action and what blocks it. The view compares
 sums over the requirements; the transition gates compare each requirement by itself. In
 every reachable state the two agree.
 */
module Operations {
  import opened Common
  import opened RentalModel
  import opened RentalMachine
  import opened RentalInvariant
  import opened RentalSafety
  import opened RentalTheorems

  datatype NextAction =
    | REVIEW | ASSIGN_ITEMS | PREPARE | HAND_OUT | START_RENTAL | RECEIVE_RETURN | INSPECT | REVIEW_RETURN
    | SETTLE_DEPOSIT | COLLECT_BALANCE | RESOLVE_RETURN_WORK | COMPLETE | NONE

  datatype Blocker =
    | NoCapacity(rows: nat) | AssignmentsMissing(pieces: int) | NotPrepared(rows: nat) | PiecesStillOut(pieces: int)
    | AwaitingInspection(pieces: int) | DepositsPending(items: nat) | BalanceOutstanding | IssuesUnresolved(issues: nat)

  /** What the item rows of the booking add to its requirements. */
  datatype ItemFacts = ItemFacts(inspections: nat, issues: nat, unsettledDeposits: nat, balance: int)

  function SumOf(rows: seq<Requirement>, f: Requirement -> int): int {
    if rows == [] then 0 else SumOf(rows[..|rows| - 1], f) + f(rows[|rows| - 1])
  }

  function CountOf(rows: seq<Requirement>, p: Requirement -> bool): nat {
    if rows == [] then 0 else CountOf(rows[..|rows| - 1], p) + if p(rows[|rows| - 1]) then 1 else 0
  }

  function Quantity(): Requirement -> int { (r: Requirement) => r.quantity }
  function AssignedQuantity(): Requirement -> int { (r: Requirement) => r.assignedQty }
  function HandedOutQuantity(): Requirement -> int { (r: Requirement) => r.handedOutQty }
  function ReturnedQuantity(): Requirement -> int { (r: Requirement) => r.returnedQty }
  function LostQuantity(): Requirement -> int { (r: Requirement) => r.lostQty }
  function Planned(): Requirement -> bool { (r: Requirement) => r.status == PLANNED }
  function Unprepared(): Requirement -> bool { (r: Requirement) => r.prep != READY }

  function StillOut(rows: seq<Requirement>): int {
    Max(0, SumOf(rows, HandedOutQuantity()) - SumOf(rows, ReturnedQuantity()) - SumOf(rows, LostQuantity()))
  }

  function InspectionOutstanding(rows: seq<Requirement>, facts: ItemFacts): int {
    Max(0, SumOf(rows, ReturnedQuantity()) - facts.inspections)
  }

  /** The next action for a booking with the in-play requirements `rows`. */
  function ActionFor(b: BookingStatus, rows: seq<Requirement>, facts: ItemFacts): NextAction {
    var needed, held := SumOf(rows, Quantity()), SumOf(rows, AssignedQuantity());
    match b
    case Pending => REVIEW
    case Confirmed =>
      if held < needed || CountOf(rows, Planned()) > 0 then ASSIGN_ITEMS
      else if CountOf(rows, Unprepared()) > 0 then PREPARE
      else if SumOf(rows, HandedOutQuantity()) < needed then HAND_OUT
      else START_RENTAL
    case Delivered => RECEIVE_RETURN
    case Overdue => RECEIVE_RETURN
    case Returned => if InspectionOutstanding(rows, facts) > 0 then INSPECT else REVIEW_RETURN
    case Inspected =>
      if facts.unsettledDeposits > 0 then SETTLE_DEPOSIT
      else if Max(0, facts.balance) > 0 then COLLECT_BALANCE
      else if facts.issues > 0 then RESOLVE_RETURN_WORK
      else COMPLETE
    case Completed => NONE
    case Cancelled => NONE
  }

  function If(c: bool, b: Blocker): seq<Blocker> {
    if c then [b] else []
  }

  function BlockersFor(b: BookingStatus, rows: seq<Requirement>, facts: ItemFacts): seq<Blocker> {
    var needed, held := SumOf(rows, Quantity()), SumOf(rows, AssignedQuantity());
    var open := b == Pending || b == Confirmed;
    If(open && CountOf(rows, Planned()) > 0, NoCapacity(CountOf(rows, Planned())))
    + If(open && held < needed, AssignmentsMissing(needed - held))
    + If(b == Confirmed && CountOf(rows, Unprepared()) > 0, NotPrepared(CountOf(rows, Unprepared())))
    + If((b == Delivered || b == Overdue) && StillOut(rows) > 0, PiecesStillOut(StillOut(rows)))
    + If(b == Returned && InspectionOutstanding(rows, facts) > 0, AwaitingInspection(InspectionOutstanding(rows, facts)))
    + If(b == Inspected && facts.unsettledDeposits > 0, DepositsPending(facts.unsettledDeposits))
    + If(b == Inspected && Max(0, facts.balance) > 0, BalanceOutstanding)
    + If(b == Inspected && facts.issues > 0, IssuesUnresolved(facts.issues))
  }

  // ------------------------------------------------------------------ Sums against rows

  /** The in-play rows of a booking, in table order. */
  function LiveSeq(reqs: seq<Requirement>, b: nat): seq<Requirement> {
    if reqs == [] then []
    else
      var r := reqs[|reqs| - 1];
      LiveSeq(reqs[..|reqs| - 1], b) + if r.booking == b && InPlay(r) then [r] else []
  }

  lemma {:induction false} LiveSeqIsLive(reqs: seq<Requirement>, b: nat)
    ensures forall r :: r in LiveSeq(reqs, b) <==> r in reqs && r.booking == b && InPlay(r)
  {
    if reqs != [] {
      LiveSeqIsLive(reqs[..|reqs| - 1], b);
      assert reqs == reqs[..|reqs| - 1] + [reqs[|reqs| - 1]];
    }
  }

  /** Where `f` never exceeds `g`, the sums agree exactly when every row does. */
  lemma {:induction false} SumsAgreeIff(rows: seq<Requirement>, f: Requirement -> int, g: Requirement -> int)
    requires forall r | r in rows :: f(r) <= g(r)
    ensures SumOf(rows, f) <= SumOf(rows, g)
    ensures SumOf(rows, f) == SumOf(rows, g) <==> forall r | r in rows :: f(r) == g(r)
  {
    if rows != [] {
      var n := |rows| - 1;
      SumsAgreeIff(rows[..n], f, g);
      assert rows == rows[..n] + [rows[n]];
    }
  }

  lemma {:induction false} NoneCounted(rows: seq<Requirement>, p: Requirement -> bool)
    ensures CountOf(rows, p) == 0 <==> forall r | r in rows :: !p(r)
  {
    if rows != [] {
      NoneCounted(rows[..|rows| - 1], p);
      assert rows == rows[..|rows| - 1] + [rows[|rows| - 1]];
    }
  }

  lemma {:induction false} SumOfSums(rows: seq<Requirement>)
    ensures SumOf(rows, (r: Requirement) => r.returnedQty + r.lostQty) == SumOf(rows, ReturnedQuantity()) + SumOf(rows, LostQuantity())
  {
    if rows != [] { SumOfSums(rows[..|rows| - 1]); }
  }

  // ------------------------------------------------------------------ Bookings under way have rows

  ghost predicate HasRow(s: Tenant, b: nat) {
    exists i :: 0 <= i < |s.reqs| && s.reqs[i].booking == b
  }

  ghost predicate RowsBehindBookings(s: Tenant) {
    forall b: nat :: b < |s.bookings| && s.bookings[b] != Pending && s.bookings[b] != Cancelled ==> HasRow(s, b)
  }

  lemma RowStays(s: Tenant, t: Tenant, b: nat)
    requires HasRow(s, b) && Continues(s, t)
    ensures HasRow(t, b)
  {
    var i :| 0 <= i < |s.reqs| && s.reqs[i].booking == b;
    assert t.reqs[i].booking == b;
  }

  lemma NextHasRows(env: Catalogue, s: Tenant, c: Command)
    requires RowsBehindBookings(s)
    ensures RowsBehindBookings(Next(env, s, c))
  {
    var t := Next(env, s, c);
    NextContinues(env, s, c);
    hide Next;
    forall b: nat | b < |t.bookings| && t.bookings[b] != Pending && t.bookings[b] != Cancelled ensures HasRow(t, b) {
      EnteredHasRow(env, s, c, b);
      RowStays(s, t, b);
    }
  }

  lemma EnteredHasRow(env: Catalogue, s: Tenant, c: Command, b: nat)
    requires RowsBehindBookings(s) && b < |Next(env, s, c).bookings|
    requires Next(env, s, c).bookings[b] != Pending && Next(env, s, c).bookings[b] != Cancelled
    ensures HasRow(s, b)
  {
    hide RowStep, ExtensionCheck, Enter, ApproveRequest, HasRow;
    if Next(env, s, c) != s {
      if c.Create? {
        AdmitAppends(env, s.(bookings := s.bookings + [Pending]), |s.bookings|, c.expiresAt, c.lines);
      } else if c.Transition? && c.booking < |s.bookings| {
        TransitionHasRow(s, c.booking, c.to, c.closeChecks);
      } else if c.Approve? && c.booking < |s.bookings| {
        ApprovalHasRow(s, c.booking, c.fit);
      } else if c.Cancel? && c.booking < |s.bookings| {
        TransitionHasRow(s, c.booking, Cancelled, CloseChecks(0, 0, 0, 0));
      }
    }
  }

  lemma TransitionHasRow(s: Tenant, b: nat, to: BookingStatus, checks: CloseChecks)
    requires b < |s.bookings| && Enter(s, b, to, checks).Ok?
    ensures HasRow(s, b) && Enter(s, b, to, checks).value.bookings == s.bookings[b := to]
  {
    hide HoldRefusal;
    var r :| r in LiveRowsOf(s, b);
    var i :| 0 <= i < |s.reqs| && s.reqs[i] == r;
  }

  lemma ApprovalHasRow(s: Tenant, b: nat, fit: bool)
    requires b < |s.bookings| && ApproveRequest(s, b, fit).Ok?
    ensures HasRow(s, b) && ApproveRequest(s, b, fit).value.bookings == s.bookings[b := Confirmed]
  {
    var r :| r in ReviewableRowsOf(s, b);
    var i :| 0 <= i < |s.reqs| && s.reqs[i] == r;
  }

  lemma {:induction false} ReachableHasRows(env: Catalogue, now: int, commands: seq<Command>)
    ensures RowsBehindBookings(Run(env, Empty(now), commands))
  {
    hide Next, RowsBehindBookings;
    if commands != [] {
      ReachableHasRows(env, now, commands[..|commands| - 1]);
      NextHasRows(env, Run(env, Empty(now), commands[..|commands| - 1]), commands[|commands| - 1]);
    } else {
      assert RowsBehindBookings(Empty(now)) by { NothingBooked(now); }
    }
  }

  lemma NothingBooked(now: int)
    ensures RowsBehindBookings(Empty(now))
  {
  }

  // ------------------------------------------------------------------ Agreement with the gates

  /** Every in-play row of a reachable booking, with what the invariant says of its counters. */
  lemma LiveRowsAreOk(env: Catalogue, s: Tenant, b: nat)
    requires Reachable(env, s) && b < |s.bookings|
    ensures forall r | r in LiveSeq(s.reqs, b) :: CountersOk(r, |ActiveRows(r.rows)|, s.bookings[b]) && InPlay(r)
    ensures forall r :: r in LiveSeq(s.reqs, b) <==> r in LiveRowsOf(s, b)
    ensures s.bookings[b] != Pending && s.bookings[b] != Cancelled ==> LiveRowsOf(s, b) != {}
  {
    ReachableInv(env, s);
    LiveSeqIsLive(s.reqs, b);
    forall r | r in LiveSeq(s.reqs, b) ensures CountersOk(r, |ActiveRows(r.rows)|, s.bookings[b]) {
      var i :| 0 <= i < |s.reqs| && s.reqs[i] == r;
      assert GoodRow(s.bookings, s.reqs[i]);
    }
    if s.bookings[b] != Pending && s.bookings[b] != Cancelled {
      ReachableRow(env, s, b);
      hide Reachable;
      var i :| 0 <= i < |s.reqs| && s.reqs[i].booking == b;
      assert GoodRow(s.bookings, s.reqs[i]);
      UnderWayIsLive(s.reqs[i], s.bookings[b]);
      assert s.reqs[i] in LiveRowsOf(s, b);
    }
  }

  lemma UnderWayIsLive(r: Requirement, b: BookingStatus)
    requires RowOk(r, b) && b != Pending && b != Cancelled
    ensures InPlay(r)
  {
    hide LogMatches, PreparationMatches;
  }

  lemma ReachableRow(env: Catalogue, s: Tenant, b: nat)
    requires Reachable(env, s) && b < |s.bookings| && s.bookings[b] != Pending && s.bookings[b] != Cancelled
    ensures HasRow(s, b)
  {
    hide Run;
    var now: int, commands: seq<Command> :| s == Run(env, Empty(now), commands);
    ReachableHasRows(env, now, commands);
  }

  /** What the gates ask of the in-play rows. */
  lemma Gates(live: set<Requirement>, checks: CloseChecks)
    ensures TransitionRefusal(live, Delivered, checks) == None <==> live != {} && forall r | r in live :: r.handedOutQty == r.quantity
    ensures TransitionRefusal(live, Returned, checks) == None <==> live != {} && forall r | r in live :: r.returnedQty + r.lostQty == r.quantity
    ensures TransitionRefusal(live, Completed, checks) == None
            <==> && live != {} && (forall r | r in live :: r.returnedQty + r.lostQty == r.quantity)
                 && checks.uninspected == 0 && checks.unsettledDeposits == 0 && checks.balanceDue <= 0 && checks.openWork == 0
  {
  }

  /** The rental can be started exactly when the gate to `delivered` opens. */
  lemma StartRentalIff(env: Catalogue, s: Tenant, b: nat, facts: ItemFacts, checks: CloseChecks)
    requires Reachable(env, s) && b < |s.bookings|
    ensures ActionFor(s.bookings[b], LiveSeq(s.reqs, b), facts) == START_RENTAL
            <==> s.bookings[b] == Confirmed && TransitionRefusal(LiveRowsOf(s, b), Delivered, checks) == None
  {
    hide Reachable, SumOf, CountOf, CountersOk, TransitionRefusal;
    LiveRowsAreOk(env, s, b);
    Gates(LiveRowsOf(s, b), checks);
    if s.bookings[b] == Confirmed {
      ConfirmedSums(LiveSeq(s.reqs, b), facts);
    }
  }

  lemma ConfirmedSums(rows: seq<Requirement>, facts: ItemFacts)
    requires forall r | r in rows :: CountersOk(r, |ActiveRows(r.rows)|, Confirmed)
    ensures ActionFor(Confirmed, rows, facts) == START_RENTAL <==> forall r | r in rows :: r.handedOutQty == r.quantity
  {
    SumsAgreeIff(rows, HandedOutQuantity(), Quantity());
    SumsAgreeIff(rows, AssignedQuantity(), Quantity());
    NoneCounted(rows, Planned());
    NoneCounted(rows, Unprepared());
    hide SumOf, CountOf;
    if forall r | r in rows :: r.handedOutQty == r.quantity {
      forall r | r in rows ensures r.assignedQty == r.quantity && r.prep == READY && r.status != PLANNED {
        HandedOutIsReady(r);
      }
    }
  }

  lemma HandedOutIsReady(r: Requirement)
    requires CountersOk(r, |ActiveRows(r.rows)|, Confirmed) && r.handedOutQty == r.quantity
    ensures r.assignedQty == r.quantity && r.prep == READY && r.status != PLANNED
  {
  }

  /** An active rental has no blockers exactly when the gate to `returned` opens. */
  lemma ActiveBlockersIff(env: Catalogue, s: Tenant, b: nat, facts: ItemFacts, checks: CloseChecks)
    requires Reachable(env, s) && b < |s.bookings| && (s.bookings[b] == Delivered || s.bookings[b] == Overdue)
    ensures BlockersFor(s.bookings[b], LiveSeq(s.reqs, b), facts) == []
            <==> TransitionRefusal(LiveRowsOf(s, b), Returned, checks) == None
  {
    hide Reachable, CountersOk, TransitionRefusal, BlockersFor;
    LiveRowsAreOk(env, s, b);
    Gates(LiveRowsOf(s, b), checks);
    var rows := LiveSeq(s.reqs, b);
    forall r | r in rows ensures r.handedOutQty == r.quantity && r.returnedQty + r.lostQty <= r.quantity {
      ActiveRow(r, s.bookings[b]);
    }
    ActiveSums(s.bookings[b], rows, facts);
  }

  lemma ActiveRow(r: Requirement, b: BookingStatus)
    requires CountersOk(r, |ActiveRows(r.rows)|, b) && (b == Delivered || b == Overdue)
    ensures r.handedOutQty == r.quantity && r.returnedQty + r.lostQty <= r.quantity
  {
  }

  lemma ActiveSums(b: BookingStatus, rows: seq<Requirement>, facts: ItemFacts)
    requires b == Delivered || b == Overdue
    requires forall r | r in rows :: r.handedOutQty == r.quantity && r.returnedQty + r.lostQty <= r.quantity
    ensures BlockersFor(b, rows, facts) == [] <==> forall r | r in rows :: r.returnedQty + r.lostQty == r.quantity
  {
    var resolved := (r: Requirement) => r.returnedQty + r.lostQty;
    SumsAgreeIff(rows, resolved, HandedOutQuantity());
    SumOfSums(rows);
    hide SumOf, CountOf;
    assert BlockersFor(b, rows, facts) == If(StillOut(rows) > 0, PiecesStillOut(StillOut(rows)));
  }

  /** A booking under review with requirements has no blockers exactly when every piece is assigned, as confirmation demands. */
  lemma PendingBlockersIff(env: Catalogue, s: Tenant, b: nat, facts: ItemFacts, checks: CloseChecks)
    requires Reachable(env, s) && b < |s.bookings| && s.bookings[b] == Pending && LiveRowsOf(s, b) != {}
    ensures BlockersFor(Pending, LiveSeq(s.reqs, b), facts) == []
            <==> TransitionRefusal(LiveRowsOf(s, b), Confirmed, checks) == None
  {
    hide Reachable, CountersOk, BlockersFor;
    LiveRowsAreOk(env, s, b);
    var rows := LiveSeq(s.reqs, b);
    forall r | r in rows
      ensures r.assignedQty == |ActiveRows(r.rows)| <= r.quantity
              && (r.status == ReqStatus.RESERVED || r.status == PARTIALLY_ASSIGNED || r.status == ReqStatus.ASSIGNED)
    {
      PendingRow(r);
    }
    PendingSums(rows, facts);
  }

  lemma PendingRow(r: Requirement)
    requires CountersOk(r, |ActiveRows(r.rows)|, Pending) && InPlay(r)
    ensures r.assignedQty == |ActiveRows(r.rows)| <= r.quantity
    ensures r.status == ReqStatus.RESERVED || r.status == PARTIALLY_ASSIGNED || r.status == ReqStatus.ASSIGNED
  {
  }

  lemma PendingSums(rows: seq<Requirement>, facts: ItemFacts)
    requires forall r | r in rows :: r.assignedQty <= r.quantity && r.status != PLANNED
    ensures BlockersFor(Pending, rows, facts) == [] <==> forall r | r in rows :: r.assignedQty == r.quantity
  {
    SumsAgreeIff(rows, AssignedQuantity(), Quantity());
    NoneCounted(rows, Planned());
    hide SumOf, CountOf;
    var missing := SumOf(rows, Quantity()) - SumOf(rows, AssignedQuantity());
    assert BlockersFor(Pending, rows, facts) == If(missing > 0, AssignmentsMissing(missing));
  }

  /**
   After inspection COMPLETE is offered exactly when the gate to `completed` opens, but
   for two things the view does not look at: units without a return inspection, and
   service orders without an open issue.
   */
  lemma CompleteIff(env: Catalogue, s: Tenant, b: nat, facts: ItemFacts, uninspected: nat, orders: nat)
    requires Reachable(env, s) && b < |s.bookings| && s.bookings[b] == Inspected
    ensures var checks := CloseChecks(uninspected, facts.unsettledDeposits, facts.balance, facts.issues + orders);
            TransitionRefusal(LiveRowsOf(s, b), Completed, checks) == None
            <==> ActionFor(Inspected, LiveSeq(s.reqs, b), facts) == COMPLETE && uninspected == 0 && orders == 0
  {
    hide Reachable, CountersOk, TransitionRefusal;
    LiveRowsAreOk(env, s, b);
    Gates(LiveRowsOf(s, b), CloseChecks(uninspected, facts.unsettledDeposits, facts.balance, facts.issues + orders));
    forall r | r in LiveRowsOf(s, b) ensures r.returnedQty + r.lostQty == r.quantity {
      assert r in LiveSeq(s.reqs, b);
      InspectedRow(r);
    }
  }

  lemma InspectedRow(r: Requirement)
    requires CountersOk(r, |ActiveRows(r.rows)|, Inspected)
    ensures r.returnedQty + r.lostQty == r.quantity
  {
  }

  /**
   Over good rows of a confirmed booking, the view offers a start that the gate refuses
   exactly when there are no rows at all; `ReachableHasRows` rules that out.
   */
  lemma ViewDisagreesIff(rows: seq<Requirement>, facts: ItemFacts, checks: CloseChecks)
    requires forall r | r in rows :: CountersOk(r, |ActiveRows(r.rows)|, Confirmed)
    ensures ActionFor(Confirmed, rows, facts) == START_RENTAL && TransitionRefusal(ToSet(rows), Delivered, checks) != None
            <==> rows == []
  {
    hide CountersOk, TransitionRefusal, SumOf, CountOf, ActionFor;
    ConfirmedSums(rows, facts);
    Gates(ToSet(rows), checks);
    if rows != [] { assert rows[0] in ToSet(rows); }
  }
}
