/** The promises of the fulfilment desk, for every reachable state. */
module RentalTheorems {
  import opened Common
  import opened RentalModel
  import opened RentalMachine
  import opened RentalInvariant
  import opened RentalSafety

  /** The pieces handed out and not yet returned or lost. */
  function Out(r: Requirement): set<nat> {
    HandedOutIds(r) - ResolvedIds(r)
  }

  lemma RowOkAt(env: Catalogue, s: Tenant, i: nat)
    requires Reachable(env, s) && i < |s.reqs|
    ensures s.reqs[i].booking < |s.bookings| && RowOk(s.reqs[i], s.bookings[s.reqs[i].booking])
  {
    ReachableInv(env, s);
    assert GoodRow(s.bookings, s.reqs[i]);
  }

  /** The counters are the sizes of the id sets rebuilt from the log, and the database checks on them hold. */
  lemma CountersAreTheLog(env: Catalogue, s: Tenant, i: nat)
    requires Reachable(env, s) && i < |s.reqs|
    ensures s.reqs[i].booking < |s.bookings|
    ensures var r := s.reqs[i];
            && r.handedOutQty == |HandedOutIds(r)| && r.returnedQty == |ReturnedIds(r)| && r.lostQty == |LostIds(r)|
            && ReturnedIds(r) !! LostIds(r) && ResolvedIds(r) <= HandedOutIds(r)
            && Out(r) == HandedOutIds(r) * ActiveRows(r.rows)
            && 0 <= r.assignedQty <= r.quantity && 0 <= r.handedOutQty <= r.quantity
            && 0 <= r.returnedQty && 0 <= r.lostQty && r.returnedQty + r.lostQty <= r.handedOutQty
            && |ActiveRows(r.rows)| <= r.quantity
            && (s.bookings[r.booking] != Cancelled ==> r.assignedQty == |ActiveRows(r.rows)|)
  {
    RowOkAt(env, s, i);
  }

  /** Cancelling a booking leaves `assignedQty` right on exactly the rows where it was zero. */
  lemma CancellationLeavesCounterBehind(env: Catalogue, s: Tenant, b: nat, checks: CloseChecks, i: nat)
    requires Reachable(env, s) && b < |s.bookings| && Allowed(s.bookings[b], Cancelled) && Enter(s, b, Cancelled, checks).Ok?
    requires i < |s.reqs| && s.reqs[i].booking == b
    ensures var t := Enter(s, b, Cancelled, checks).value.reqs[i];
            ActiveRows(t.rows) == {} && (t.assignedQty == |ActiveRows(t.rows)| <==> s.reqs[i].assignedQty == 0)
  {
    RowOkAt(env, s, i);
    ReleasedActive(s.reqs[i].rows, ActiveRows(s.reqs[i].rows));
  }

  /** So does rejecting its request. */
  lemma RejectionLeavesCounterBehind(env: Catalogue, s: Tenant, b: nat, i: nat)
    requires Reachable(env, s) && Attempt(env, s, Reject(b)).Ok? && i < |s.reqs| && s.reqs[i].booking == b
    ensures var t := Attempt(env, s, Reject(b)).value.reqs[i];
            ActiveRows(t.rows) == {} && (t.assignedQty == |ActiveRows(t.rows)| <==> s.reqs[i].assignedQty == 0)
  {
    RejectsRow(env, s, b, i);
    RowOkAt(env, s, i);
    hide Reachable, RowOk, Rejected, Attempt, ActiveRows;
    RejectKeeps(s.reqs[i]);
    RejectedCounter(s.reqs[i]);
  }

  lemma RejectsRow(env: Catalogue, s: Tenant, b: nat, i: nat)
    requires Attempt(env, s, Reject(b)).Ok? && i < |s.reqs| && s.reqs[i].booking == b
    ensures b < |s.bookings| && s.bookings[b] == Pending
    ensures i < |Attempt(env, s, Reject(b)).value.reqs| && Attempt(env, s, Reject(b)).value.reqs[i] == Rejected(s.reqs[i])
  {
    hide Rejected;
  }

  lemma RejectedCounter(r: Requirement)
    ensures Rejected(r).assignedQty == r.assignedQty
  {
  }

  /** Once the named assignments resolve, no counter guard can refuse and no clamp changes a value. */
  lemma GuardsBehindTheLogNeverRefuse(env: Catalogue, s: Tenant, i: nat, kind: EventKind, quantity: int, ids: seq<nat>)
    requires Reachable(env, s) && i < |s.reqs| && IsHandover(kind)
    requires kind == EventKind.HANDED_OUT ==> s.reqs[i].prep == READY
    requires s.reqs[i].booking < |s.bookings| && EventAllowed(s.bookings[s.reqs[i].booking], kind)
    requires ResolveAssignments(s.reqs[i], kind, quantity, ids).Ok?
    ensures NextCounters(s.reqs[i], kind, quantity).Ok?
    ensures kind != EventKind.HANDED_OUT ==> Max(0, s.reqs[i].assignedQty - quantity) == s.reqs[i].assignedQty - quantity
  {
    RowOkAt(env, s, i);
    var r := s.reqs[i];
    ResolvedShape(r, s.bookings[r.booking], kind, quantity, ids);
    SubsetSize(ToSet(ids), ActiveRows(r.rows));
  }

  lemma ReleaseClampNeverBites(env: Catalogue, s: Tenant, i: nat, row: nat)
    requires Reachable(env, s) && i < |s.reqs| && ReleaseFrom(s.reqs[i], row).Ok?
    ensures Max(0, s.reqs[i].assignedQty - 1) == s.reqs[i].assignedQty - 1
  {
    RowOkAt(env, s, i);
    ReleaseKeeps(s.reqs[i], s.bookings[s.reqs[i].booking], row);
  }

  /** What the preparation and requirement statuses imply. */
  lemma StagesAgree(env: Catalogue, s: Tenant, i: nat)
    requires Reachable(env, s) && i < |s.reqs|
    ensures var r := s.reqs[i];
            && (r.prep == READY ==> r.assignedQty + r.returnedQty + r.lostQty == r.quantity)
            && (r.handedOutQty > 0 ==> r.prep == READY)
            && (r.status in {PLANNED, ReqStatus.RESERVED, PARTIALLY_ASSIGNED, ReqStatus.ASSIGNED} ==> Out(r) == {} && r.handedOutQty == 0)
            && (r.status == ReqStatus.OVERDUE ==> r.handedOutQty == r.quantity && Out(r) != {})
  {
    RowOkAt(env, s, i);
    var r := s.reqs[i];
    if r.status == ReqStatus.OVERDUE && Out(r) == {} {
      SubsetSize(HandedOutIds(r), ResolvedIds(r));
    }
  }

  /** An extension never falls back to RESERVED: each overdue row it rewrites becomes HANDED_OUT. */
  lemma ExtensionFallbackUnreachable(env: Catalogue, s: Tenant, b: nat, end: int, i: nat)
    requires Reachable(env, s) && ExtendBooking(env, s, b, end).Ok? && i < |s.reqs|
    requires s.reqs[i].status == ReqStatus.OVERDUE && i in Targets(s, b)
    ensures ExtendBooking(env, s, b, end).value.reqs[i].status == ReqStatus.HANDED_OUT
  {
    var w := ExtensionCheck(env, s, i, end).value;
    assert Extended(s.reqs[i], end, w).status == ReqStatus.HANDED_OUT by {
      RowOkAt(env, s, i);
      ExtendKeepsCounters(s.reqs[i], |ActiveRows(s.reqs[i].rows)|, s.bookings[s.reqs[i].booking], end, w);
    }
  }

  /** OVERDUE is missing from the statuses that refuse a substitution, but a piece out still refuses it. */
  lemma NoSubstitutionWhileOut(env: Catalogue, s: Tenant, i: nat, pool: Pool, allowed: bool)
    requires Reachable(env, s) && i < |s.reqs| && Out(s.reqs[i]) != {}
    ensures SubstituteRow(env, s, i, pool, allowed).Refused?
  {
    RowOkAt(env, s, i);
    var x :| x in Out(s.reqs[i]);
    assert x in ActiveRows(s.reqs[i].rows) * HandedOutIds(s.reqs[i]);
  }

  /** When a booking completes no assignment is active, so there is no unit to attribute its revenue to. */
  lemma CompletionFindsNothingAssigned(env: Catalogue, s: Tenant, b: nat, checks: CloseChecks, i: nat)
    requires Reachable(env, s) && b < |s.bookings| && Allowed(s.bookings[b], Completed)
    requires Enter(s, b, Completed, checks).Ok? && i < |s.reqs| && s.reqs[i].booking == b
    ensures ActiveRows(s.reqs[i].rows) == {}
  {
    RowOkAt(env, s, i);
    assert Resolved(s.reqs[i]) == s.reqs[i].quantity;
    AllBack(s.reqs[i], s.bookings[b]);
  }

  // ------------------------------------------------------------------ What the desk's commands do

  /** The units that assignment rows hold. */
  function UnitsIn(rows: seq<Assignment>): set<nat> {
    set a | a in ActiveRows(rows) :: rows[a].unit
  }

  lemma UnitsAdded(rows: seq<Assignment>, added: seq<Assignment>)
    requires forall a | a in added :: !a.released
    ensures UnitsIn(rows + added) == UnitsIn(rows) + set a | a in added :: a.unit
  {
    var all := rows + added;
    forall u | u in UnitsIn(rows) ensures u in UnitsIn(all) {
      var a :| a in ActiveRows(rows) && rows[a].unit == u;
      assert a in ActiveRows(all) && all[a] == rows[a];
    }
    forall x | x in added ensures x.unit in UnitsIn(all) {
      var k :| 0 <= k < |added| && added[k] == x;
      assert |rows| + k in ActiveRows(all) && all[|rows| + k] == x;
    }
    forall a | a in ActiveRows(all) ensures all[a].unit in UnitsIn(rows) + set x | x in added :: x.unit {
      if a < |rows| { assert a in ActiveRows(rows); } else { assert added[a - |rows|] in added; }
    }
  }

  /** An assignment adds exactly the chosen units, over the reservation's blocked range. */
  lemma AssignmentAddsUnits(r: Requirement, units: seq<nat>, eligible: set<nat>, barred: set<nat>, taken: set<nat>)
    requires AssignTo(r, units, eligible, barred, taken).Ok?
    ensures var t := AssignTo(r, units, eligible, barred, taken).value;
            && r.rows <= t.rows && UnitsIn(t.rows) == UnitsIn(r.rows) + ToSet(units)
            && |ActiveRows(t.rows)| == |ActiveRows(r.rows)| + |ToSet(units)| <= r.quantity
            && forall a | a in t.rows[|r.rows|..] :: a.range == r.hold.blocked && !a.released
  {
    hide AssignTo, Distinct, ActiveRows, UnitsIn;
    var t := AssignTo(r, units, eligible, barred, taken).value;
    var chosen, added := AssignWrites(r, units, eligible, barred, taken);
    DistinctSize(chosen);
    GrownActive(r.rows, added);
    UnitsAdded(r.rows, added);
    AddedUnits(chosen, added, r.hold.blocked);
    assert t.rows[|r.rows|..] == added;
  }

  /** The assignment rows that an assignment writes. */
  lemma AssignWrites(r: Requirement, units: seq<nat>, eligible: set<nat>, barred: set<nat>, taken: set<nat>)
    returns (chosen: seq<nat>, added: seq<Assignment>)
    requires AssignTo(r, units, eligible, barred, taken).Ok?
    ensures ToSet(chosen) == ToSet(units) && forall i, j :: 0 <= i < j < |chosen| ==> chosen[i] != chosen[j]
    ensures |added| == |chosen| && forall k :: 0 <= k < |chosen| ==> added[k] == Assignment(chosen[k], r.hold.blocked, false)
    ensures AssignTo(r, units, eligible, barred, taken).value.rows == r.rows + added
    ensures |ActiveRows(r.rows)| + |chosen| <= r.quantity
  {
    hide ActiveRows;
    chosen := Distinct(units);
    added := seq(|chosen|, k requires 0 <= k < |chosen| => Assignment(chosen[k], r.hold.blocked, false));
  }

  lemma AddedUnits(chosen: seq<nat>, added: seq<Assignment>, w: Range)
    requires |added| == |chosen| && forall k :: 0 <= k < |chosen| ==> added[k] == Assignment(chosen[k], w, false)
    ensures (set a | a in added :: a.unit) == ToSet(chosen)
  {
    forall u | u in ToSet(chosen) ensures u in set a | a in added :: a.unit {
      var k :| 0 <= k < |chosen| && chosen[k] == u;
      assert added[k] in added;
    }
  }

  /** A release frees exactly the assignment it names. */
  lemma ReleaseFreesOne(r: Requirement, row: nat)
    requires ReleaseFrom(r, row).Ok?
    ensures var t := ReleaseFrom(r, row).value;
            row in ActiveRows(r.rows) && ActiveRows(t.rows) == ActiveRows(r.rows) - {row}
  {
    ReleasedActive(r.rows, {row});
  }

  /** A handout puts exactly the named pieces out; a return or a loss brings exactly them in and frees them. */
  lemma RecordMovesPieces(env: Catalogue, s: Tenant, i: nat, kind: EventKind, quantity: int, ids: seq<nat>, checks: UnitChecks)
    requires Reachable(env, s) && i < |s.reqs| && s.reqs[i].booking < |s.bookings|
    requires RecordOn(s.reqs[i], s.bookings[s.reqs[i].booking], kind, quantity, ids, checks).Ok?
    ensures var r, t := s.reqs[i], RecordOn(s.reqs[i], s.bookings[s.reqs[i].booking], kind, quantity, ids, checks).value;
            if kind == EventKind.HANDED_OUT
            then ToSet(ids) !! Out(r) && Out(t) == Out(r) + ToSet(ids) && ActiveRows(t.rows) == ActiveRows(r.rows)
            else ToSet(ids) <= Out(r) && Out(t) == Out(r) - ToSet(ids) && ActiveRows(t.rows) == ActiveRows(r.rows) - ToSet(ids)
  {
    RowOkAt(env, s, i);
    hide Reachable;
    RecordMoves(s.reqs[i], s.bookings[s.reqs[i].booking], kind, quantity, ids, checks);
  }

  lemma RecordMoves(r: Requirement, b: BookingStatus, kind: EventKind, quantity: int, ids: seq<nat>, checks: UnitChecks)
    requires RowOk(r, b) && RecordOn(r, b, kind, quantity, ids, checks).Ok?
    ensures var t := RecordOn(r, b, kind, quantity, ids, checks).value;
            if kind == EventKind.HANDED_OUT
            then ToSet(ids) !! Out(r) && Out(t) == Out(r) + ToSet(ids) && ActiveRows(t.rows) == ActiveRows(r.rows)
            else ToSet(ids) <= Out(r) && Out(t) == Out(r) - ToSet(ids) && ActiveRows(t.rows) == ActiveRows(r.rows) - ToSet(ids)
  {
    var t := RecordOn(r, b, kind, quantity, ids, checks).value;
    RecordWrites(r, b, kind, quantity, ids, checks);
    ResolvedShape(r, b, kind, quantity, ids);
    ResolvedWithin(r, b);
    hide RowOk, RecordOn, ReleaseRows, ActiveRows, ResolveAssignments, IdsOf;
    LogGrowsAll(r, t, t.events[|r.events|]);
    ReleasedActive(r.rows, ToSet(ids));
    OutMoves(HandedOutIds(r), ReturnedIds(r), LostIds(r), ToSet(ids));
  }

  /** The event and the assignment rows that a recorded handover writes. */
  lemma RecordWrites(r: Requirement, b: BookingStatus, kind: EventKind, quantity: int, ids: seq<nat>, checks: UnitChecks)
    requires RecordOn(r, b, kind, quantity, ids, checks).Ok?
    ensures var t := RecordOn(r, b, kind, quantity, ids, checks).value;
            && ResolveAssignments(r, kind, quantity, ids) == Ok(ToSet(ids)) && IsHandover(kind)
            && t.events == r.events + [Event(kind, quantity, ToSet(ids), r.status, t.status)]
            && t.rows == if kind == EventKind.HANDED_OUT then r.rows else ReleaseRows(r.rows, ToSet(ids))
  {
    hide ReleaseRows;
  }

  lemma OutMoves(h: set<nat>, back: set<nat>, lost: set<nat>, chosen: set<nat>)
    requires back + lost <= h
    ensures chosen !! h ==> chosen !! h - (back + lost) && (h + chosen) - (back + lost) == (h - (back + lost)) + chosen
    ensures h - (back + chosen + lost) == (h - (back + lost)) - chosen
    ensures h - (back + (lost + chosen)) == (h - (back + lost)) - chosen
  {
  }

  lemma ResolvedWithin(r: Requirement, b: BookingStatus)
    requires RowOk(r, b)
    ensures ResolvedIds(r) <= HandedOutIds(r)
  {
  }

  /** A second sweep at the same time finds nothing to do. */
  lemma SweepIsIdempotent(s: Tenant)
    ensures var t := s.(bookings := SweepBookings(s), reqs := SweepRows(s));
            (forall i :: 0 <= i < |t.reqs| ==> !Lapsed(t.reqs[i], t.now)) && SweepBookings(t) == t.bookings && SweepRows(t) == t.reqs
  {
    var t := s.(bookings := SweepBookings(s), reqs := SweepRows(s));
    assert forall i :: 0 <= i < |t.reqs| ==> !Lapsed(t.reqs[i], t.now);
    assert SweepRows(t) == t.reqs;
    assert SweepBookings(t) == t.bookings;
  }

  // ------------------------------------------------------------------ Units

  /** No unit is held twice over overlapping stored ranges, and no reservation holds more units than it reserved. */
  lemma UnitsAreExclusive(env: Catalogue, s: Tenant, i: nat, a: nat, j: nat, b: nat)
    requires Reachable(env, s) && Active(s.reqs, i, a) && Active(s.reqs, j, b) && (i, a) != (j, b)
    ensures s.reqs[i].rows[a].unit == s.reqs[j].rows[b].unit ==> !Overlaps(s.reqs[i].rows[a].range, s.reqs[j].rows[b].range)
    ensures |ActiveRows(s.reqs[i].rows)| <= s.reqs[i].quantity
  {
    ReachableInv(env, s);
    RowOkAt(env, s, i);
  }

  // ------------------------------------------------------------------ Coming back from CANCELLED

  lemma CancelledRowStep(env: Catalogue, s: Tenant, c: Command)
    requires OneRow(c) && c.req < |s.reqs| && s.reqs[c.req].booking < |s.bookings| && RowStep(env, s, c).Ok?
    requires s.reqs[c.req].status == ReqStatus.CANCELLED
    requires CountersOk(s.reqs[c.req], |ActiveRows(s.reqs[c.req].rows)|, s.bookings[s.reqs[c.req].booking])
    ensures RowStep(env, s, c).value.status != ReqStatus.CANCELLED <==> c.Release?
  {
  }

  lemma CancelledRowStays(env: Catalogue, s: Tenant, c: Command, i: nat)
    requires !OneRow(c) && Attempt(env, s, c).Ok?
    requires i < |s.reqs| && s.reqs[i].status == ReqStatus.CANCELLED && !HoldLive(s.reqs[i].hold)
    ensures i < |Attempt(env, s, c).value.reqs| && Attempt(env, s, c).value.reqs[i].status == ReqStatus.CANCELLED
  {
    hide TransitionRefusal;
    hide HoldRefusal;
    hide ExtensionCheck;
    if c.Create? {
      AdmitAppends(env, s.(bookings := s.bookings + [Pending]), |s.bookings|, c.expiresAt, c.lines);
    }
  }

  /** A cancelled row leaves CANCELLED only when one of its assignments is released. */
  lemma CancelledComesBackOnlyByRelease(env: Catalogue, s: Tenant, c: Command, i: nat)
    requires Reachable(env, s) && Attempt(env, s, c).Ok?
    requires i < |s.reqs| && s.reqs[i].status == ReqStatus.CANCELLED
    ensures i < |Attempt(env, s, c).value.reqs|
    ensures Attempt(env, s, c).value.reqs[i].status != ReqStatus.CANCELLED <==> c.Release? && c.req == i
  {
    RowOkAt(env, s, i);
    assert !HoldLive(s.reqs[i].hold);
    if !OneRow(c) {
      CancelledRowStays(env, s, c, i);
    } else if c.req == i {
      CancelledRowStep(env, s, c);
    }
  }

  lemma {:induction false} AdmitAppends(env: Catalogue, s: Tenant, b: nat, expiresAt: Option<int>, lines: seq<Line>)
    requires AdmitAll(env, s, b, expiresAt, lines).Ok?
    ensures var t := AdmitAll(env, s, b, expiresAt, lines).value;
            && t.bookings == s.bookings && t.now == s.now && t.keys == s.keys
            && s.reqs <= t.reqs && forall i :: |s.reqs| <= i < |t.reqs| ==> t.reqs[i].booking == b && t.reqs[i].rows == []
    decreases lines
  {
    if lines != [] {
      var line := lines[0];
      var w := Check(env, s.reqs, line.pool, line.start, line.end, line.quantity, s.now, None, true).value;
      AdmitAppends(env, s.(reqs := s.reqs + [NewRow(b, expiresAt, line, w)]), b, expiresAt, lines[1..]);
    }
  }

  // ------------------------------------------------------------------ Reviews and sweeps

  /** A sweep takes whole bookings: a row is swept exactly when its pending booking is, with every row of it. */
  lemma SweepTakesWholeBookings(env: Catalogue, s: Tenant, i: nat)
    requires Reachable(env, s) && i < |s.reqs|
    ensures s.reqs[i].booking < |s.bookings|
    ensures var t := Next(env, s, Sweep);
            Lapsed(s.reqs[i], s.now)
            <==> && s.bookings[s.reqs[i].booking] == Pending && t.bookings[s.reqs[i].booking] == Cancelled
                 && forall j :: 0 <= j < |s.reqs| && s.reqs[j].booking == s.reqs[i].booking
                                ==> Lapsed(s.reqs[j], s.now) && t.reqs[j].status == ReqStatus.CANCELLED
  {
    ReachableInv(env, s);
    NextSweep(env, s);
    hide Reachable, Inv, SweepBookings, SweepRows, Lapsed, Next;
    SweptWhole(s, i);
  }

  lemma NextSweep(env: Catalogue, s: Tenant)
    ensures Next(env, s, Sweep) == s.(bookings := SweepBookings(s), reqs := SweepRows(s))
  {
    hide SweepBookings, SweepRows;
  }

  lemma SweptWhole(s: Tenant, i: nat)
    requires Inv(s) && i < |s.reqs|
    ensures s.reqs[i].booking < |s.bookings|
    ensures Lapsed(s.reqs[i], s.now)
            <==> && s.bookings[s.reqs[i].booking] == Pending && SweepBookings(s)[s.reqs[i].booking] == Cancelled
                 && forall j :: 0 <= j < |s.reqs| && s.reqs[j].booking == s.reqs[i].booking
                                ==> Lapsed(s.reqs[j], s.now) && SweepRows(s)[j].status == ReqStatus.CANCELLED
  {
    hide Inv, SweptOut, Lapsed, Swept;
    SweptTogether(s, i);
    forall j | 0 <= j < |s.reqs| && s.reqs[j].booking == s.reqs[i].booking
      ensures Lapsed(s.reqs[j], s.now) == Lapsed(s.reqs[i], s.now)
      ensures Lapsed(s.reqs[j], s.now) ==> SweepRows(s)[j].status == ReqStatus.CANCELLED
    {
      SweptTogether(s, j);
      if Lapsed(s.reqs[j], s.now) { LapsedIsCancelled(s.reqs[j], s.now); }
    }
  }

  lemma LapsedIsCancelled(r: Requirement, now: int)
    requires Lapsed(r, now)
    ensures Swept(r, now).status == ReqStatus.CANCELLED
  {
  }

  /** Approving a request commits exactly what confirming the booking commits, or both are refused. */
  lemma ApprovalIsConfirmation(env: Catalogue, s: Tenant, b: nat, checks: CloseChecks)
    requires Reachable(env, s) && b < |s.bookings| && s.bookings[b] == Pending
    ensures match Attempt(env, s, Approve(b, true))
            case Ok(t) => Attempt(env, s, Transition(b, Confirmed, checks)) == Ok(t)
            case Refused(_) => Attempt(env, s, Transition(b, Confirmed, checks)).Refused?
  {
    AllReviewable(env, s, b);
    SameGate(RowsOf(s, b), s.now, checks);
    hide Reachable, MoveRows, ApprovalRefusal, TransitionRefusal, HoldRefusal, RowsOf, LiveRowsOf, ReviewableRowsOf;
  }

  /** Every row of a pending booking is in play and up for review. */
  lemma AllReviewable(env: Catalogue, s: Tenant, b: nat)
    requires Reachable(env, s) && b < |s.bookings| && s.bookings[b] == Pending
    ensures ReviewableRowsOf(s, b) == RowsOf(s, b) == LiveRowsOf(s, b)
    ensures forall r | r in RowsOf(s, b) :: Reviewable(r) && r.status != PLANNED
  {
    ReachableInv(env, s);
    hide Reachable;
    RowsUnderReview(s, b);
  }

  lemma RowsUnderReview(s: Tenant, b: nat)
    requires RowsOk(s.bookings, s.reqs) && b < |s.bookings| && s.bookings[b] == Pending
    ensures ReviewableRowsOf(s, b) == RowsOf(s, b) == LiveRowsOf(s, b)
    ensures forall r | r in RowsOf(s, b) :: Reviewable(r) && r.status != PLANNED
  {
    hide RowOk;
    forall r | r in RowsOf(s, b) ensures Reviewable(r) && InPlay(r) && r.status != PLANNED {
      var i :| 0 <= i < |s.reqs| && s.reqs[i] == r;
      assert GoodRow(s.bookings, s.reqs[i]);
      UnderReview(r);
    }
  }

  lemma UnderReview(r: Requirement)
    requires RowOk(r, Pending)
    ensures Reviewable(r) && InPlay(r) && r.status != PLANNED
  {
  }

  lemma SameGate(rows: set<Requirement>, now: int, checks: CloseChecks)
    requires forall r | r in rows :: Reviewable(r) && r.status != PLANNED
    ensures ApprovalRefusal(rows, now, true) == None
            <==> TransitionRefusal(rows, Confirmed, checks) == None && HoldRefusal(rows, now) == None
  {
  }

  /** And it does come back: sweeping a lapsed hold keeps its assignments, and releasing one puts the row in play again. */
  lemma SweptRowComesBack(env: Catalogue, s: Tenant, i: nat, a: nat)
    requires Reachable(env, s) && Active(s.reqs, i, a) && Lapsed(s.reqs[i], s.now)
    ensures var swept := Next(env, s, Sweep);
            && swept.reqs[i].status == ReqStatus.CANCELLED
            && InPlay(Next(env, swept, Release(i, a)).reqs[i])
            && !HoldLive(Next(env, swept, Release(i, a)).reqs[i].hold)
  {
    RowOkAt(env, s, i);
    hide Reachable, LogMatches, DatesOk, PreparationMatches;
  }

  // ------------------------------------------------------------------ Lifecycle

  function Rank(b: BookingStatus): nat {
    match b
    case Pending => 0
    case Confirmed => 1
    case Delivered => 2
    case Overdue => 3
    case Returned => 4
    case Inspected => 5
    case Completed => 6
    case Cancelled => 6
  }

  /** `to` is where a booking at `from` may be after any number of transitions. */
  predicate Later(from: BookingStatus, to: BookingStatus) {
    from == to || (Rank(from) < Rank(to) && (to == Cancelled ==> Rank(from) <= 1))
  }

  /** What no transaction changes about a row: its booking, its quantity and the day its rental starts. */
  predicate SameOrder(r: Requirement, t: Requirement) {
    t.booking == r.booking && t.quantity == r.quantity && t.hold.start == r.hold.start
  }

  /** `t` continues `s`: rows and bookings keep their places, bookings and the clock only move on. */
  ghost predicate Continues(s: Tenant, t: Tenant) {
    && |s.bookings| <= |t.bookings| && |s.reqs| <= |t.reqs| && s.now <= t.now
    && (forall b :: 0 <= b < |s.bookings| ==> Later(s.bookings[b], t.bookings[b]))
    && (forall i :: 0 <= i < |s.reqs| ==> SameOrder(s.reqs[i], t.reqs[i]))
    && (forall k | k in s.keys :: k in t.keys && t.keys[k] == s.keys[k])
  }

  lemma RowStepContinues(env: Catalogue, s: Tenant, c: Command)
    requires OneRow(c) && c.req < |s.reqs| && s.reqs[c.req].booking < |s.bookings| && RowStep(env, s, c).Ok?
    ensures SameOrder(s.reqs[c.req], RowStep(env, s, c).value)
  {
  }

  lemma SweepContinues(s: Tenant)
    ensures Continues(s, s.(bookings := SweepBookings(s), reqs := SweepRows(s)))
  {
  }

  lemma ExtendContinues(env: Catalogue, s: Tenant, b: nat, end: int)
    requires ExtendBooking(env, s, b, end).Ok?
    ensures Continues(s, ExtendBooking(env, s, b, end).value) && ExtendBooking(env, s, b, end).value.keys == s.keys
  {
    hide ExtensionCheck;
  }

  lemma EnterContinues(s: Tenant, b: nat, to: BookingStatus, checks: CloseChecks)
    requires b < |s.bookings| && Later(s.bookings[b], to) && Enter(s, b, to, checks).Ok?
    ensures Continues(s, Enter(s, b, to, checks).value) && Enter(s, b, to, checks).value.keys == s.keys
  {
    hide TransitionRefusal;
    hide HoldRefusal;
  }

  lemma DecideContinues(s: Tenant, c: Command)
    requires IsReview(c) && Decide(s, c).Ok?
    ensures Continues(s, Decide(s, c).value) && Decide(s, c).value.keys == s.keys
  {
    hide ApprovalRefusal;
    var t := Decide(s, c).value;
    assert forall i :: 0 <= i < |s.reqs| ==> SameOrder(s.reqs[i], t.reqs[i]);
    assert Later(Pending, Confirmed) && Later(Pending, Cancelled);
  }

  lemma AttemptContinues(env: Catalogue, s: Tenant, c: Command)
    requires Attempt(env, s, c).Ok?
    ensures Continues(s, Attempt(env, s, c).value) && Attempt(env, s, c).value.keys == s.keys
  {
    hide RowStep, AdmitAll, ExtendBooking, Enter, Decide, SweepRows, SweepBookings;
    if OneRow(c) {
      RowStepContinues(env, s, c);
    } else if IsReview(c) {
      DecideContinues(s, c);
    } else {
      match c
      case Create(expiresAt, lines) =>
        AdmitAppends(env, s.(bookings := s.bookings + [Pending]), |s.bookings|, expiresAt, lines);
      case Transition(b, to, checks) => EnterContinues(s, b, to, checks);
      case Cancel(b, byCustomer) => EnterContinues(s, b, Cancelled, CloseChecks(0, 0, 0, 0));
      case Sweep => SweepContinues(s);
      case Extend(b, end, _, _, _, _) => ExtendContinues(env, s, b, end);
      case _ =>
    }
  }

  lemma NextContinues(env: Catalogue, s: Tenant, c: Command)
    ensures Continues(s, Next(env, s, c))
  {
    if Attempt(env, s, c).Ok? {
      AttemptContinues(env, s, c);
    }
  }

  lemma {:induction false} RunContinues(env: Catalogue, s: Tenant, commands: seq<Command>)
    ensures Continues(s, Run(env, s, commands))
  {
    if commands != [] {
      var mid := Run(env, s, commands[..|commands| - 1]);
      RunContinues(env, s, commands[..|commands| - 1]);
      NextContinues(env, mid, commands[|commands| - 1]);
      assert forall b :: 0 <= b < |s.bookings| ==> Later(s.bookings[b], mid.bookings[b]);
      assert forall i :: 0 <= i < |s.reqs| ==> SameOrder(s.reqs[i], mid.reqs[i]);
    }
  }

  /**
   A rental that has begun is never extended again, whatever happens in between: the check
   measures notice from the day on which the rental was first to start, and that day stays.
   */
  lemma StartedRentalsAreNeverExtended(env: Catalogue, s: Tenant, commands: seq<Command>, b: nat, end: int, i: nat)
    requires i < |s.reqs|
    requires forall pool | pool in env :: DayStart(env[pool], s.reqs[i].hold.start) < s.now
    ensures i in Targets(Run(env, s, commands), b) ==> ExtendBooking(env, Run(env, s, commands), b, end).Refused?
  {
    var t := Run(env, s, commands);
    RunContinues(env, s, commands);
    hide Run;
    assert SameOrder(s.reqs[i], t.reqs[i]);
    StartedCheck(env, t, i, end);
    hide ExtensionCheck;
  }

  lemma StartedCheck(env: Catalogue, t: Tenant, i: nat, end: int)
    requires i < |t.reqs| && forall pool | pool in env :: DayStart(env[pool], t.reqs[i].hold.start) < t.now
    ensures ExtensionCheck(env, t, i, end).Refused?
  {
  }

  /** From delivery on, every row stays fully handed out; from return on, fully resolved; a cancelled booking has nothing out. */
  lemma LifecycleIsSafe(env: Catalogue, s: Tenant, commands: seq<Command>, i: nat)
    requires Reachable(env, s) && i < |s.reqs|
    ensures s.reqs[i].booking < |s.bookings| && i < |Run(env, s, commands).reqs|
    ensures var b, t := s.bookings[s.reqs[i].booking], Run(env, s, commands).reqs[i];
            && (b in {Delivered, Overdue, Returned, Inspected, Completed} ==> t.handedOutQty == t.quantity == s.reqs[i].quantity)
            && (b in {Returned, Inspected, Completed} ==> t.returnedQty + t.lostQty == t.quantity && Out(t) == {})
            && (b == Cancelled ==> t.handedOutQty == 0 && Out(t) == {})
  {
    hide Reachable, Run;
    RowOkAt(env, s, i);
    ReachableInv(env, s);
    RunContinues(env, s, commands);
    RunKeeps(env, s, commands);
    hide RowOk;
    var t := Run(env, s, commands);
    assert GoodRow(t.bookings, t.reqs[i]);
    StageOfRow(t.reqs[i], t.bookings[t.reqs[i].booking]);
    hide Inv, Out;
    assert Later(s.bookings[s.reqs[i].booking], t.bookings[s.reqs[i].booking]);
    LaterStages(s.bookings[s.reqs[i].booking], t.bookings[s.reqs[i].booking]);
  }

  lemma LaterStages(from: BookingStatus, to: BookingStatus)
    requires Later(from, to)
    ensures from in {Delivered, Overdue, Returned, Inspected, Completed} ==> to in {Delivered, Overdue, Returned, Inspected, Completed}
    ensures from in {Returned, Inspected, Completed} ==> to in {Returned, Inspected, Completed}
    ensures from == Cancelled ==> to == Cancelled
  {
  }

  /** What the status of its booking says about a row. */
  lemma StageOfRow(r: Requirement, b: BookingStatus)
    requires RowOk(r, b)
    ensures b in {Delivered, Overdue, Returned, Inspected, Completed} ==> r.handedOutQty == r.quantity
    ensures b in {Returned, Inspected, Completed} ==> r.returnedQty + r.lostQty == r.quantity && Out(r) == {}
    ensures b == Cancelled ==> r.handedOutQty == 0 && Out(r) == {}
  {
    StageCounters(r, |ActiveRows(r.rows)|, b);
    hide CountersOk, LogMatches;
    if r.handedOutQty == Resolved(r) {
      AllResolved(r);
    }
  }

  lemma StageCounters(r: Requirement, active: nat, b: BookingStatus)
    requires CountersOk(r, active, b)
    ensures b in {Delivered, Overdue, Returned, Inspected, Completed} ==> r.handedOutQty == r.quantity
    ensures b in {Returned, Inspected, Completed} ==> Resolved(r) == r.quantity
    ensures b == Cancelled ==> r.handedOutQty == Resolved(r) == 0
  {
  }

  /** How often a run changes the status of booking `b`. */
  function Changes(env: Catalogue, s: Tenant, commands: seq<Command>, b: nat): nat {
    if commands == [] then 0
    else
      var mid := Run(env, s, commands[..|commands| - 1]);
      var end := Next(env, mid, commands[|commands| - 1]);
      Changes(env, s, commands[..|commands| - 1], b)
      + if b < |mid.bookings| && b < |end.bookings| && mid.bookings[b] != end.bookings[b] then 1 else 0
  }

  lemma RunSplits(env: Catalogue, s: Tenant, commands: seq<Command>)
    ensures commands == [] ==> Run(env, s, commands) == s
    ensures commands != [] ==> Run(env, s, commands) == Next(env, Run(env, s, commands[..|commands| - 1]), commands[|commands| - 1])
  {
    hide Next;
  }

  /** Any run, however long, changes a booking's status at most six times. */
  lemma {:induction false} AtMostSixChanges(env: Catalogue, s: Tenant, commands: seq<Command>, b: nat)
    ensures Changes(env, s, commands, b) <= 6
    ensures b < |Run(env, s, commands).bookings| ==> Changes(env, s, commands, b) <= Rank(Run(env, s, commands).bookings[b])
    ensures b >= |Run(env, s, commands).bookings| ==> Changes(env, s, commands, b) == 0
  {
    hide Next, Run;
    RunSplits(env, s, commands);
    if commands != [] {
      AtMostSixChanges(env, s, commands[..|commands| - 1], b);
      NextContinues(env, Run(env, s, commands[..|commands| - 1]), commands[|commands| - 1]);
    }
  }

  // ------------------------------------------------------------------ Idempotency

  /** A keyed command that succeeded once changes nothing at any later time, and its key fits no other request. */
  lemma ReplaysChangeNothing(env: Catalogue, s: Tenant, c: Command, between: seq<Command>, again: Command)
    requires KeyOf(c).Some? && Apply(env, s, c).Ok?
    requires KeyOf(again).Some? && KeyOf(again).value.0 == KeyOf(c).value.0
    ensures var later := Run(env, Apply(env, s, c).value, between);
            Apply(env, later, again) == if KeyOf(again) == KeyOf(c) then Ok(later) else Refused(IdempotencyKeyReused)
  {
    RunContinues(env, Apply(env, s, c).value, between);
  }
}
