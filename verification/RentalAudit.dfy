/**
 The event log as an audit trail. It accounts for every piece, and for every status change
 but one: the rejection of a booking request cancels its rows without an event.
 */
module RentalAudit {
  import opened Common
  import opened RentalModel
  import opened RentalMachine
  import opened RentalInvariant
  import opened RentalSafety
  import opened RentalTheorems

  /** The quantities of one kind of event, added up. */
  function Logged(events: seq<Event>, kind: EventKind): int {
    if events == [] then 0
    else Logged(events[..|events| - 1], kind) + if events[|events| - 1].kind == kind then events[|events| - 1].quantity else 0
  }

  /** Each event starts from the status in which the one before it left the row. */
  ghost predicate Linked(events: seq<Event>) {
    && events != [] && events[0].from == PLANNED
    && forall k :: 0 < k < |events| ==> events[k].from == events[k - 1].to
  }

  /** The status in which the last event left the row. */
  function LastStatus(events: seq<Event>): ReqStatus
    requires events != []
  {
    events[|events| - 1].to
  }

  ghost predicate Accounted(r: Requirement) {
    && Logged(r.events, EventKind.HANDED_OUT) == r.handedOutQty
    && Logged(r.events, EventKind.RETURNED) == r.returnedQty
    && Logged(r.events, EventKind.MARKED_LOST) == r.lostQty
  }

  ghost predicate Trail(r: Requirement) {
    Linked(r.events) && LastStatus(r.events) == r.status && Accounted(r)
  }

  /** A row of a rejected booking: cancelled for good, and the log does not know it. */
  ghost predicate Gap(r: Requirement) {
    && Linked(r.events) && LastStatus(r.events) != r.status && Accounted(r)
    && r.status == ReqStatus.CANCELLED && ActiveRows(r.rows) == {} && !HoldLive(r.hold)
  }

  ghost predicate TrailOf(r: Requirement, rejected: set<nat>) {
    if r.booking in rejected then Gap(r) else Trail(r)
  }

  function Change(e: Event, kind: EventKind): int {
    if e.kind == kind then e.quantity else 0
  }

  lemma TrailGrows(r: Requirement, t: Requirement, e: Event)
    requires Trail(r) && OneMoreEvent(r, t, e) && e.from == r.status && e.to == t.status
    requires t.handedOutQty == r.handedOutQty + Change(e, EventKind.HANDED_OUT)
    requires t.returnedQty == r.returnedQty + Change(e, EventKind.RETURNED)
    requires t.lostQty == r.lostQty + Change(e, EventKind.MARKED_LOST)
    ensures Trail(t)
  {
    assert t.events[..|r.events|] == r.events;
  }

  /** The event fields, the status and the counters are all that matter to the trail. */
  lemma TrailStays(r: Requirement, t: Requirement)
    requires Trail(r) && t.events == r.events && t.status == r.status
    requires t.handedOutQty == r.handedOutQty && t.returnedQty == r.returnedQty && t.lostQty == r.lostQty
    ensures Trail(t)
  {
  }

  // ------------------------------------------------------------------ One row

  lemma RecordTrail(r: Requirement, b: BookingStatus, kind: EventKind, quantity: int, ids: seq<nat>, checks: UnitChecks)
    requires Trail(r) && RecordOn(r, b, kind, quantity, ids, checks).Ok?
    ensures Trail(RecordOn(r, b, kind, quantity, ids, checks).value)
  {
    hide ResolveAssignments, ReleaseRows, Trail;
    var t := RecordOn(r, b, kind, quantity, ids, checks).value;
    TrailGrows(r, t, t.events[|r.events|]);
  }

  /** A row that can be substituted is already RESERVED, so its status changes without an event. */
  lemma SubstitutedWasReserved(r: Requirement, b: BookingStatus)
    requires RowOk(r, b) && ActiveRows(r.rows) == {}
    requires r.status !in {ReqStatus.HANDED_OUT, PARTIALLY_HANDED_OUT, PARTIALLY_RETURNED, ReqStatus.RETURNED, LOST,
                           ReqStatus.CANCELLED, SUPERSEDED}
    ensures r.status == ReqStatus.RESERVED
  {
    NothingOut(r, b);
  }

  lemma RowStepTrail(env: Catalogue, s: Tenant, c: Command)
    requires OneRow(c) && c.req < |s.reqs| && s.reqs[c.req].booking < |s.bookings| && RowStep(env, s, c).Ok?
    requires Trail(s.reqs[c.req]) && RowOk(s.reqs[c.req], s.bookings[s.reqs[c.req].booking])
    ensures Trail(RowStep(env, s, c).value)
  {
    hide Trail, RowOk, Check, RecordOn, Distinct;
    var r, b := s.reqs[c.req], s.bookings[s.reqs[c.req].booking];
    var t := RowStep(env, s, c).value;
    match c
    case Assign(_, _, _) => TrailGrows(r, t, t.events[|r.events|]);
    case Release(_, _) => TrailGrows(r, t, t.events[|r.events|]);
    case Prepare(_, _, _, _) => TrailGrows(r, t, t.events[|r.events|]);
    case Record(_, kind, quantity, ids, _, _, checks) => RecordTrail(r, b, kind, quantity, ids, checks);
    case Substitute(_, _, _, _, _, _) =>
      SubstitutedWasReserved(r, b);
      TrailStays(r, t);
  }

  lemma MovedTrail(r: Requirement, to: BookingStatus)
    requires Trail(r)
    ensures Trail(Moved(r, to))
  {
    hide Trail, ReleaseRows;
    var t := Moved(r, to);
    if |t.events| > |r.events| {
      TrailGrows(r, t, t.events[|r.events|]);
    } else {
      TrailStays(r, t);
    }
  }

  lemma SweptTrail(r: Requirement, now: int)
    requires Trail(r)
    ensures Trail(Swept(r, now))
  {
    hide Trail;
    if Lapsed(r, now) { TrailGrows(r, Swept(r, now), Swept(r, now).events[|r.events|]); }
  }

  lemma ExtendedTrail(r: Requirement, end: int, w: Range)
    requires Trail(r)
    ensures Trail(Extended(r, end, w))
  {
    hide Trail;
    var t := Extended(r, end, w);
    if r.status == ReqStatus.OVERDUE { TrailGrows(r, t, t.events[|r.events|]); } else { TrailStays(r, t); }
  }

  lemma NewTrail(b: nat, expiresAt: Option<int>, line: Line, w: Range)
    ensures Trail(NewRow(b, expiresAt, line, w))
  {
    var events := NewRow(b, expiresAt, line, w).events;
    assert events[..0] == [];
  }

  // ------------------------------------------------------------------ Rejections

  lemma RejectedGap(r: Requirement)
    requires RowOk(r, Pending) && Trail(r)
    ensures Gap(Rejected(r)) && Rejected(r).booking == r.booking
  {
    RejectKeeps(r);
    hide RowOk;
    assert Rejected(r).events == r.events && r.status != ReqStatus.CANCELLED;
  }

  /** No command on a single row touches a row of a rejected booking. */
  lemma GapRefuses(env: Catalogue, s: Tenant, c: Command)
    requires OneRow(c) && c.req < |s.reqs| && s.reqs[c.req].booking < |s.bookings|
    requires Gap(s.reqs[c.req]) && s.bookings[s.reqs[c.req].booking] == Cancelled
    ensures RowStep(env, s, c).Refused?
  {
    hide Linked, Accounted, Check, Distinct;
  }

  // ------------------------------------------------------------------ Runs

  /** The bookings whose request a run rejects. */
  function RejectedBookings(env: Catalogue, s: Tenant, commands: seq<Command>): set<nat> {
    if commands == [] then {}
    else
      var c := commands[|commands| - 1];
      RejectedBookings(env, s, commands[..|commands| - 1])
      + if c.Reject? && Attempt(env, Run(env, s, commands[..|commands| - 1]), c).Ok? then {c.booking} else {}
  }

  ghost predicate Trails(reqs: seq<Requirement>, rejected: set<nat>) {
    forall i :: 0 <= i < |reqs| ==> TrailOf(reqs[i], rejected)
  }

  ghost predicate AllCancelled(s: Tenant, rejected: set<nat>) {
    forall b | b in rejected :: b < |s.bookings| && s.bookings[b] == Cancelled
  }

  lemma {:induction false} AdmitTrails(env: Catalogue, s: Tenant, b: nat, expiresAt: Option<int>, lines: seq<Line>, rejected: set<nat>)
    requires Trails(s.reqs, rejected) && b !in rejected && AdmitAll(env, s, b, expiresAt, lines).Ok?
    ensures Trails(AdmitAll(env, s, b, expiresAt, lines).value.reqs, rejected)
    decreases lines
  {
    hide Check, Trail, Gap;
    if lines != [] {
      var line := lines[0];
      var w := Check(env, s.reqs, line.pool, line.start, line.end, line.quantity, s.now, None, true).value;
      NewTrail(b, expiresAt, line, w);
      AdmitTrails(env, s.(reqs := s.reqs + [NewRow(b, expiresAt, line, w)]), b, expiresAt, lines[1..], rejected);
    }
  }

  lemma MoveTrails(reqs: seq<Requirement>, b: nat, to: BookingStatus, rejected: set<nat>)
    requires Trails(reqs, rejected) && b !in rejected
    ensures Trails(MoveRows(reqs, b, to), rejected)
  {
    hide Trail, Gap, Moved;
    forall i | 0 <= i < |reqs| ensures TrailOf(MoveRows(reqs, b, to)[i], rejected) {
      assert TrailOf(reqs[i], rejected);
      if reqs[i].booking == b {
        MovedTrail(reqs[i], to);
        MovedBooking(reqs[i], to);
      }
    }
  }

  lemma ExtendTrails(env: Catalogue, s: Tenant, b: nat, end: int, rejected: set<nat>)
    requires Trails(s.reqs, rejected) && AllCancelled(s, rejected) && ExtendBooking(env, s, b, end).Ok?
    ensures Trails(ExtendBooking(env, s, b, end).value.reqs, rejected)
  {
    hide Trail, Gap, ExtensionCheck;
    assert b !in rejected;
    var next := ExtendBooking(env, s, b, end).value.reqs;
    forall i | 0 <= i < |s.reqs| ensures |next| == |s.reqs| && TrailOf(next[i], rejected) {
      assert TrailOf(s.reqs[i], rejected);
      if i in Targets(s, b) { ExtendedTrail(s.reqs[i], end, ExtensionCheck(env, s, i, end).value); }
    }
  }

  lemma SweepTrails(s: Tenant, rejected: set<nat>)
    requires Trails(s.reqs, rejected)
    ensures Trails(SweepRows(s), rejected)
  {
    hide Trail;
    forall i | 0 <= i < |s.reqs| ensures TrailOf(SweepRows(s)[i], rejected) {
      assert TrailOf(s.reqs[i], rejected);
      SweptTrailOf(s.reqs[i], s.now, rejected);
    }
  }

  lemma SweptTrailOf(r: Requirement, now: int, rejected: set<nat>)
    requires TrailOf(r, rejected)
    ensures TrailOf(Swept(r, now), rejected)
  {
    hide Trail;
    if r.booking !in rejected { SweptTrail(r, now); }
  }

  lemma RenewTrails(reqs: seq<Requirement>, b: nat, until: int, rejected: set<nat>)
    requires Trails(reqs, rejected) && b !in rejected
    ensures Trails(RenewRows(reqs, b, until), rejected)
  {
    hide Trail, Gap;
    var next := RenewRows(reqs, b, until);
    forall i | 0 <= i < |reqs| ensures TrailOf(next[i], rejected) {
      assert TrailOf(reqs[i], rejected);
      if reqs[i].booking == b { TrailStays(reqs[i], next[i]); }
    }
  }

  lemma RejectTrails(s: Tenant, b: nat, rejected: set<nat>)
    requires Inv(s) && Trails(s.reqs, rejected) && b < |s.bookings| && s.bookings[b] == Pending && b !in rejected
    ensures Trails(RejectRows(s.reqs, b), rejected + {b})
  {
    hide Trail, Gap, RowOk, Rejected, Exclusive, HoldsAlike;
    var next := RejectRows(s.reqs, b);
    forall i | 0 <= i < |s.reqs| ensures TrailOf(next[i], rejected + {b}) {
      assert TrailOf(s.reqs[i], rejected) && GoodRow(s.bookings, s.reqs[i]);
      if s.reqs[i].booking == b { RejectedGap(s.reqs[i]); }
    }
  }

  lemma DecideTrails(s: Tenant, c: Command, rejected: set<nat>)
    requires Inv(s) && Trails(s.reqs, rejected) && AllCancelled(s, rejected) && IsReview(c) && Decide(s, c).Ok?
    ensures Trails(Decide(s, c).value.reqs, rejected + if c.Reject? then {c.booking} else {})
  {
    hide Inv, Trails, MoveRows, RejectRows, RenewRows, ApprovalRefusal;
    assert c.booking !in rejected;
    assert rejected + {} == rejected;
    match c
    case Approve(b, fit) => MoveTrails(s.reqs, b, Confirmed, rejected);
    case Reject(b) => RejectTrails(s, b, rejected);
    case Renew(b, until) => RenewTrails(s.reqs, b, until, rejected);
  }

  lemma EnterTrails(s: Tenant, b: nat, to: BookingStatus, checks: CloseChecks, rejected: set<nat>)
    requires Trails(s.reqs, rejected) && AllCancelled(s, rejected)
    requires b < |s.bookings| && Allowed(s.bookings[b], to) && Enter(s, b, to, checks).Ok?
    ensures Trails(Enter(s, b, to, checks).value.reqs, rejected)
  {
    hide Trails, MoveRows, TransitionRefusal, HoldRefusal;
    assert b !in rejected;
    MoveTrails(s.reqs, b, to, rejected);
  }

  lemma RowTrails(env: Catalogue, s: Tenant, c: Command, rejected: set<nat>)
    requires Inv(s) && Trails(s.reqs, rejected) && AllCancelled(s, rejected)
    requires OneRow(c) && c.req < |s.reqs| && s.reqs[c.req].booking < |s.bookings| && RowStep(env, s, c).Ok?
    ensures Trails(s.reqs[c.req := RowStep(env, s, c).value], rejected)
  {
    var r := s.reqs[c.req];
    RowStepExpiry(env, s, c);
    hide Trail, Gap, RowOk, RowStep, Exclusive, HoldsAlike;
    assert GoodRow(s.bookings, r) && TrailOf(r, rejected);
    if r.booking in rejected {
      GapRefuses(env, s, c);
    } else {
      RowStepTrail(env, s, c);
    }
  }

  lemma AttemptTrails(env: Catalogue, s: Tenant, c: Command, rejected: set<nat>)
    requires Inv(s) && Trails(s.reqs, rejected) && AllCancelled(s, rejected) && Attempt(env, s, c).Ok?
    ensures Trails(Attempt(env, s, c).value.reqs, rejected + if c.Reject? then {c.booking} else {})
  {
    hide Inv, Trails, RowStep, AdmitAll, ExtendBooking, Enter, Decide, SweepRows, SweepBookings;
    assert rejected + {} == rejected;
    if OneRow(c) {
      RowTrails(env, s, c, rejected);
    } else if IsReview(c) {
      DecideTrails(s, c, rejected);
    } else {
      match c
      case Create(expiresAt, lines) =>
        AdmitTrails(env, s.(bookings := s.bookings + [Pending]), |s.bookings|, expiresAt, lines, rejected);
      case Extend(b, end, _, _, _, _) => ExtendTrails(env, s, b, end, rejected);
      case Transition(b, to, checks) => EnterTrails(s, b, to, checks, rejected);
      case Cancel(b, _) => EnterTrails(s, b, Cancelled, CloseChecks(0, 0, 0, 0), rejected);
      case Sweep => SweepTrails(s, rejected);
      case Tick(_) =>
    }
  }

  /** A rejected booking is cancelled, and stays so. */
  lemma AttemptCancelled(env: Catalogue, s: Tenant, c: Command, rejected: set<nat>)
    requires AllCancelled(s, rejected) && Attempt(env, s, c).Ok?
    ensures AllCancelled(Attempt(env, s, c).value, rejected + if c.Reject? then {c.booking} else {})
  {
    AttemptContinues(env, s, c);
    if !c.Reject? { hide Attempt; }
    var t := Attempt(env, s, c).value;
    forall b | b in rejected ensures b < |t.bookings| && t.bookings[b] == Cancelled {
      assert Later(s.bookings[b], t.bookings[b]);
    }
  }

  lemma {:induction false} RunTrails(env: Catalogue, now: int, commands: seq<Command>)
    ensures var s, rejected := Run(env, Empty(now), commands), RejectedBookings(env, Empty(now), commands);
            Trails(s.reqs, rejected) && AllCancelled(s, rejected)
  {
    if commands != [] {
      var before, c := commands[..|commands| - 1], commands[|commands| - 1];
      var mid, rejected := Run(env, Empty(now), before), RejectedBookings(env, Empty(now), before);
      RunTrails(env, now, before);
      EmptyInv(now);
      RunKeeps(env, Empty(now), before);
      hide Attempt, Trails, Inv, AllCancelled;
      if Attempt(env, mid, c).Ok? {
        AttemptTrails(env, mid, c, rejected);
        AttemptCancelled(env, mid, c, rejected);
      }
      NextTrails(env, mid, c, rejected);
      assert rejected + {} == rejected;
    }
  }

  /** A replay or a refusal leaves the log as it is; a committed attempt is what the step leaves. */
  lemma NextTrails(env: Catalogue, s: Tenant, c: Command, rejected: set<nat>)
    requires Trails(s.reqs, rejected) && AllCancelled(s, rejected)
    requires var next := rejected + if c.Reject? then {c.booking} else {};
             Attempt(env, s, c).Ok? ==> Trails(Attempt(env, s, c).value.reqs, next) && AllCancelled(Attempt(env, s, c).value, next)
    ensures var next := rejected + if c.Reject? && Attempt(env, s, c).Ok? then {c.booking} else {};
            Trails(Next(env, s, c).reqs, next) && AllCancelled(Next(env, s, c), next)
  {
    hide Attempt, Trails;
    assert rejected + {} == rejected;
  }

  lemma EmptyInv(now: int)
    ensures Inv(Empty(now))
  {
  }

  /**
   After any run the log of a requirement is linked from PLANNED on, and its quantities add
   up to the counters. It leads to the current status exactly when the booking was not rejected.
   */
  lemma LogIsAnAuditTrail(env: Catalogue, now: int, commands: seq<Command>, i: nat)
    requires i < |Run(env, Empty(now), commands).reqs|
    ensures var r := Run(env, Empty(now), commands).reqs[i];
            && r.events != [] && r.events[0].from == PLANNED
            && (forall k :: 0 < k < |r.events| ==> r.events[k].from == r.events[k - 1].to)
            && Logged(r.events, EventKind.HANDED_OUT) == r.handedOutQty
            && Logged(r.events, EventKind.RETURNED) == r.returnedQty
            && Logged(r.events, EventKind.MARKED_LOST) == r.lostQty
            && (r.events[|r.events| - 1].to == r.status <==> r.booking !in RejectedBookings(env, Empty(now), commands))
  {
    RunTrails(env, now, commands);
    hide Run, RejectedBookings;
    assert TrailOf(Run(env, Empty(now), commands).reqs[i], RejectedBookings(env, Empty(now), commands));
  }
}
