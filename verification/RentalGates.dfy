/**
 The gates of a booking, one by one: from where, and with what requirements, each status can be
 entered, and what entering it does to the rows.
 */
module RentalGates {
  import opened Common
  import opened RentalModel
  import opened RentalMachine

  /** Row `i` is a requirement of booking `b` that was neither cancelled nor superseded. */
  predicate Open(s: Tenant, b: nat, i: nat) {
    i < |s.reqs| && s.reqs[i].booking == b && s.reqs[i].status != ReqStatus.CANCELLED && s.reqs[i].status != SUPERSEDED
  }

  ghost predicate AnyOpen(s: Tenant, b: nat) {
    exists i: nat :: Open(s, b, i)
  }

  /** Every open row's pieces have come back or been lost. */
  ghost predicate AllResolved(s: Tenant, b: nat) {
    forall i: nat :: Open(s, b, i) ==> s.reqs[i].returnedQty + s.reqs[i].lostQty == s.reqs[i].quantity
  }

  ghost predicate NothingOut(s: Tenant, b: nat) {
    forall i: nat :: Open(s, b, i) ==> s.reqs[i].handedOutQty <= s.reqs[i].returnedQty + s.reqs[i].lostQty
  }

  /** How many assignments of a row are active. */
  function Held(r: Requirement): nat {
    |set a: nat | a < |r.rows| && !r.rows[a].released|
  }

  /** A reservation that is confirmed, or pending and not past its expiry. */
  predicate Valid(h: Hold, now: int) {
    h.status == HoldStatus.CONFIRMED
    || (h.status == HoldStatus.PENDING && match h.expiresAt case None => true case Some(t) => now < t)
  }

  /** The transaction is accepted exactly when `may` holds. */
  predicate AcceptedIff(env: Catalogue, s: Tenant, c: Command, may: bool) {
    Apply(env, s, c).Ok? <==> may
  }

  /** Booking `b` at `from` with some open row. */
  ghost predicate At(s: Tenant, b: nat, from: BookingStatus) {
    b < |s.bookings| && s.bookings[b] == from && AnyOpen(s, b)
  }

  /** The in-play rows, as the gates see them. */
  lemma LiveIsOpen(s: Tenant, b: nat)
    ensures forall r :: r in LiveRowsOf(s, b) <==> exists i: nat :: Open(s, b, i) && s.reqs[i] == r
    ensures LiveRowsOf(s, b) == {} <==> !AnyOpen(s, b)
  {
    forall r ensures r in LiveRowsOf(s, b) <==> exists i: nat :: Open(s, b, i) && s.reqs[i] == r {
      if r in LiveRowsOf(s, b) {
        var i :| 0 <= i < |s.reqs| && s.reqs[i] == r;
        assert Open(s, b, i);
      }
    }
    if AnyOpen(s, b) {
      var i: nat :| Open(s, b, i);
      assert s.reqs[i] in LiveRowsOf(s, b);
    }
    if LiveRowsOf(s, b) != {} {
      var r :| r in LiveRowsOf(s, b);
      var i: nat :| Open(s, b, i) && s.reqs[i] == r;
    }
  }

  /** What a property of all open rows is to the gates. */
  lemma AllLive(s: Tenant, b: nat, p: Requirement -> bool)
    ensures (forall r | r in LiveRowsOf(s, b) :: p(r)) <==> forall i: nat :: Open(s, b, i) ==> p(s.reqs[i])
  {
    LiveIsOpen(s, b);
    hide LiveRowsOf;
    if forall r | r in LiveRowsOf(s, b) :: p(r) {
      forall i: nat | Open(s, b, i) ensures p(s.reqs[i]) { assert s.reqs[i] in LiveRowsOf(s, b); }
    }
  }

  /** The reservations of booking `b`, all still valid. */
  ghost predicate AllValid(s: Tenant, b: nat) {
    forall i: nat :: i < |s.reqs| && s.reqs[i].booking == b ==> Valid(s.reqs[i].hold, s.now)
  }

  /** Nothing moves back to under review. */
  lemma NeverToPending(env: Catalogue, s: Tenant, b: nat, checks: CloseChecks)
    ensures AcceptedIff(env, s, Transition(b, Pending, checks), false)
  {
  }

  /** Confirmed: from pending, every open row reserved with all its pieces assigned, and every reservation valid. */
  lemma ToConfirmedIff(env: Catalogue, s: Tenant, b: nat, checks: CloseChecks)
    ensures AcceptedIff(env, s, Transition(b, Confirmed, checks),
                        At(s, b, Pending) && AllValid(s, b) && forall i: nat :: Open(s, b, i) ==> ReadyToConfirm(s.reqs[i]))
  {
    LiveIsOpen(s, b);
    AllLive(s, b, (r: Requirement) => ReadyToConfirm(r));
    RowsAreValid(s, b);
    hide Open, LiveRowsOf, MoveRows, HoldRefusal, AllValid;
  }

  predicate ReadyToConfirm(r: Requirement) {
    && (r.status == ReqStatus.RESERVED || r.status == PARTIALLY_ASSIGNED || r.status == ReqStatus.ASSIGNED)
    && Held(r) == r.quantity
  }

  lemma RowsAreValid(s: Tenant, b: nat)
    ensures AnyOpen(s, b) ==> (HoldRefusal(RowsOf(s, b), s.now) == None <==> AllValid(s, b))
  {
    forall i: nat | i < |s.reqs| && s.reqs[i].booking == b ensures s.reqs[i] in RowsOf(s, b) {
    }
    if AnyOpen(s, b) {
      var i: nat :| Open(s, b, i);
      assert s.reqs[i] in RowsOf(s, b);
    }
  }

  /** Delivered: from confirmed, with every open row handed out in full. */
  lemma ToDeliveredIff(env: Catalogue, s: Tenant, b: nat, checks: CloseChecks)
    ensures AcceptedIff(env, s, Transition(b, Delivered, checks),
                        At(s, b, Confirmed) && forall i: nat :: Open(s, b, i) ==> s.reqs[i].handedOutQty == s.reqs[i].quantity)
  {
    LiveIsOpen(s, b);
    AllLive(s, b, (r: Requirement) => r.handedOutQty == r.quantity);
    hide Open, LiveRowsOf, MoveRows;
  }

  /** Overdue: from delivered, whatever the rows say. */
  lemma ToOverdueIff(env: Catalogue, s: Tenant, b: nat, checks: CloseChecks)
    ensures AcceptedIff(env, s, Transition(b, Overdue, checks), At(s, b, Delivered))
  {
    LiveIsOpen(s, b);
    hide Open, LiveRowsOf, MoveRows;
  }

  /** Returned: from delivered or overdue, with every open row resolved. */
  lemma ToReturnedIff(env: Catalogue, s: Tenant, b: nat, checks: CloseChecks)
    ensures AcceptedIff(env, s, Transition(b, Returned, checks),
                        (At(s, b, Delivered) || At(s, b, Overdue)) && AllResolved(s, b))
  {
    LiveIsOpen(s, b);
    AllLive(s, b, (r: Requirement) => r.returnedQty + r.lostQty == r.quantity);
    hide Open, LiveRowsOf, MoveRows;
  }

  /** Inspected: from returned, with every open row resolved and no unit left to inspect. */
  lemma ToInspectedIff(env: Catalogue, s: Tenant, b: nat, checks: CloseChecks)
    ensures AcceptedIff(env, s, Transition(b, Inspected, checks),
                        At(s, b, Returned) && AllResolved(s, b) && checks.uninspected == 0)
  {
    LiveIsOpen(s, b);
    AllLive(s, b, (r: Requirement) => r.returnedQty + r.lostQty == r.quantity);
    hide Open, LiveRowsOf, MoveRows;
  }

  /** Completed: from inspected, resolved, inspected, with deposits settled, nothing due and no work open. */
  lemma ToCompletedIff(env: Catalogue, s: Tenant, b: nat, checks: CloseChecks)
    ensures AcceptedIff(env, s, Transition(b, Completed, checks),
                        && At(s, b, Inspected) && AllResolved(s, b) && checks.uninspected == 0
                        && checks.unsettledDeposits == 0 && checks.balanceDue <= 0 && checks.openWork == 0)
  {
    LiveIsOpen(s, b);
    AllLive(s, b, (r: Requirement) => r.returnedQty + r.lostQty == r.quantity);
    hide Open, LiveRowsOf, MoveRows;
  }

  /** Cancelled: from pending or confirmed, by a customer from pending only, with nothing out. */
  lemma ToCancelledIff(env: Catalogue, s: Tenant, b: nat, checks: CloseChecks, byCustomer: bool)
    ensures AcceptedIff(env, s, Transition(b, Cancelled, checks), (At(s, b, Pending) || At(s, b, Confirmed)) && NothingOut(s, b))
    ensures AcceptedIff(env, s, Cancel(b, byCustomer),
                        (At(s, b, Pending) || (At(s, b, Confirmed) && !byCustomer)) && NothingOut(s, b))
    ensures Apply(env, s, Cancel(b, byCustomer)).Ok? ==> Apply(env, s, Cancel(b, byCustomer)) == Apply(env, s, Transition(b, Cancelled, checks))
  {
    LiveIsOpen(s, b);
    AllLive(s, b, (r: Requirement) => r.handedOutQty <= r.returnedQty + r.lostQty);
    hide Open, LiveRowsOf, MoveRows;
  }

  // ------------------------------------------------------------------ What a transition writes

  /** The row's log has one entry more, and its status is the one the entry names. */
  predicate Logs(r: Requirement, t: Requirement, kind: EventKind, quantity: int, ids: set<nat>, to: ReqStatus) {
    t.events == r.events + [Event(kind, quantity, ids, r.status, to)] && t.status == to
  }

  /** The same row, but for status, log, reservation and assignments. */
  predicate SameOtherwise(r: Requirement, t: Requirement) {
    t == r.(status := t.status, events := t.events, hold := t.hold, rows := t.rows)
  }

  /** The same assignments, none of them active any more. */
  predicate AllLetGo(r: Requirement, t: Requirement) {
    |t.rows| == |r.rows| && forall a :: 0 <= a < |r.rows| ==> t.rows[a] == r.rows[a].(released := true)
  }

  /** A live reservation ends with `end`; another stays as it is. */
  predicate Ends(h: Hold, t: Hold, end: HoldStatus) {
    t == h.(status := if h.status == HoldStatus.PENDING || h.status == HoldStatus.CONFIRMED then end else h.status)
  }

  /** What the move to `to` makes of one row of the booking. */
  predicate RowEnters(r: Requirement, t: Requirement, to: BookingStatus) {
    && SameOtherwise(r, t)
    && var open := r.status != ReqStatus.CANCELLED && r.status != SUPERSEDED;
       var out := r.handedOutQty - r.returnedQty - r.lostQty;
       match to
       case Confirmed =>
         && t.hold == r.hold.(status := HoldStatus.CONFIRMED, expiresAt := t.hold.expiresAt)
         && (r.hold.status == HoldStatus.PENDING ==> t.hold.expiresAt == None)
         && (r.hold.status == HoldStatus.CONFIRMED ==> t == r) && t == r.(hold := t.hold)
       case Overdue => t.hold == r.hold && t.rows == r.rows
                       && if open && out > 0 then Logs(r, t, EventKind.OVERDUE, out, {}, ReqStatus.OVERDUE) else t == r
       case Cancelled =>
         && AllLetGo(r, t) && Ends(r.hold, t.hold, HoldStatus.CANCELLED)
         && if open then Logs(r, t, EventKind.CANCELLED, r.quantity, {}, ReqStatus.CANCELLED)
            else t.status == r.status && t.events == r.events
       case Completed =>
         AllLetGo(r, t) && Ends(r.hold, t.hold, HoldStatus.RELEASED) && t.status == r.status && t.events == r.events
       case _ => t == r
  }

  /** An accepted transition moves the booking, and does to each of its rows, and to no other, what its target calls for. */
  lemma TransitionWrites(env: Catalogue, s: Tenant, b: nat, to: BookingStatus, checks: CloseChecks)
    requires Apply(env, s, Transition(b, to, checks)).Ok?
    ensures var t := Apply(env, s, Transition(b, to, checks)).value;
            && b < |s.bookings| && t == s.(bookings := s.bookings[b := to], reqs := t.reqs) && |t.reqs| == |s.reqs|
            && forall i :: 0 <= i < |s.reqs| ==>
                 if s.reqs[i].booking == b then RowEnters(s.reqs[i], t.reqs[i], to) else t.reqs[i] == s.reqs[i]
  {
    var t := Apply(env, s, Transition(b, to, checks)).value;
    assert Enter(s, b, to, checks) == Ok(t);
    forall i: nat | i < |s.reqs| && s.reqs[i].booking == b ensures RowEnters(s.reqs[i], Moved(s.reqs[i], to), to) {
      if to == Confirmed { StillValid(s, b, checks, i); }
      MovedEnters(s.reqs[i], to, s.now);
    }
    hide RowEnters, Moved, TransitionRefusal, HoldRefusal;
  }

  lemma StillValid(s: Tenant, b: nat, checks: CloseChecks, i: nat)
    requires b < |s.bookings| && Enter(s, b, Confirmed, checks).Ok? && i < |s.reqs| && s.reqs[i].booking == b
    ensures Valid(s.reqs[i].hold, s.now)
  {
    assert s.reqs[i] in RowsOf(s, b);
    hide TransitionRefusal, MoveRows;
  }

  lemma MovedEnters(r: Requirement, to: BookingStatus, now: int)
    requires to == Confirmed ==> Valid(r.hold, now)
    ensures RowEnters(r, Moved(r, to), to)
  {
  }

  // ------------------------------------------------------------------ Reviews, renewals and the sweep

  /** Row `i` is a requirement of booking `b` that waits for its approval. */
  predicate Waiting(s: Tenant, b: nat, i: nat) {
    && i < |s.reqs| && s.reqs[i].booking == b
    && var status := s.reqs[i].status;
       status == PLANNED || status == ReqStatus.RESERVED || status == PARTIALLY_ASSIGNED || status == ReqStatus.ASSIGNED
  }

  /** Approval: of a pending booking, fit units, and every waiting row fully assigned with a valid reservation. */
  lemma ApproveIff(env: Catalogue, s: Tenant, b: nat, fit: bool)
    ensures AcceptedIff(env, s, Approve(b, fit),
                        && b < |s.bookings| && s.bookings[b] == Pending && fit && (exists i: nat :: Waiting(s, b, i))
                        && forall i: nat :: Waiting(s, b, i) ==> Valid(s.reqs[i].hold, s.now) && Held(s.reqs[i]) == s.reqs[i].quantity)
  {
    var rows := ReviewableRowsOf(s, b);
    forall i: nat | Waiting(s, b, i) ensures s.reqs[i] in rows { }
    forall r | r in rows ensures exists i: nat :: Waiting(s, b, i) && s.reqs[i] == r {
      var i :| 0 <= i < |s.reqs| && s.reqs[i] == r;
      assert Waiting(s, b, i);
    }
    hide MoveRows, ReviewableRowsOf, Waiting;
  }

  /** An approval confirms the booking and its pending reservations, and nothing else. */
  lemma ApproveWrites(env: Catalogue, s: Tenant, b: nat, fit: bool)
    requires Apply(env, s, Approve(b, fit)).Ok?
    ensures var t := Apply(env, s, Approve(b, fit)).value;
            && b < |s.bookings| && t == s.(bookings := s.bookings[b := Confirmed], reqs := t.reqs) && |t.reqs| == |s.reqs|
            && forall i: nat :: i < |s.reqs| ==>
                 t.reqs[i] == if s.reqs[i].booking == b && s.reqs[i].hold.status == HoldStatus.PENDING
                              then s.reqs[i].(hold := s.reqs[i].hold.(status := HoldStatus.CONFIRMED, expiresAt := None)) else s.reqs[i]
  {
    hide ApprovalRefusal;
  }

  /** Rejection: of a pending booking; it cancels the waiting rows, but writes no entry into their logs. */
  lemma RejectIff(env: Catalogue, s: Tenant, b: nat)
    ensures AcceptedIff(env, s, Reject(b), b < |s.bookings| && s.bookings[b] == Pending)
    ensures Apply(env, s, Reject(b)).Ok? ==>
              var t := Apply(env, s, Reject(b)).value;
              && t == s.(bookings := s.bookings[b := Cancelled], reqs := t.reqs) && |t.reqs| == |s.reqs|
              && forall i: nat :: i < |s.reqs| ==>
                   if s.reqs[i].booking != b then t.reqs[i] == s.reqs[i]
                   else && SameOtherwise(s.reqs[i], t.reqs[i]) && AllLetGo(s.reqs[i], t.reqs[i])
                        && Ends(s.reqs[i].hold, t.reqs[i].hold, HoldStatus.CANCELLED) && t.reqs[i].events == s.reqs[i].events
                        && t.reqs[i].status == if Waiting(s, b, i) then ReqStatus.CANCELLED else s.reqs[i].status
  {
  }

  /** Renewal: of a pending booking with a pending reservation, to a later time. */
  lemma RenewIff(env: Catalogue, s: Tenant, b: nat, until: int)
    ensures AcceptedIff(env, s, Renew(b, until),
                        && b < |s.bookings| && s.bookings[b] == Pending && s.now < until
                        && exists i: nat :: i < |s.reqs| && s.reqs[i].booking == b && s.reqs[i].hold.status == HoldStatus.PENDING)
  {
    forall i: nat | i < |s.reqs| && s.reqs[i].booking == b ensures s.reqs[i] in RowsOf(s, b) { }
    if r :| r in RowsOf(s, b) && r.hold.status == HoldStatus.PENDING {
      var i :| 0 <= i < |s.reqs| && s.reqs[i] == r;
    }
    hide RenewRows, RowsOf;
  }

  /** It moves the expiry of all the booking's pending reservations, and nothing else. */
  lemma RenewWrites(env: Catalogue, s: Tenant, b: nat, until: int)
    requires Apply(env, s, Renew(b, until)).Ok?
    ensures var t := Apply(env, s, Renew(b, until)).value;
            && t == s.(reqs := t.reqs) && |t.reqs| == |s.reqs|
            && forall i: nat :: i < |s.reqs| ==>
                 && t.reqs[i] == s.reqs[i].(hold := s.reqs[i].hold.(expiresAt := t.reqs[i].hold.expiresAt))
                 && t.reqs[i].hold.expiresAt == if s.reqs[i].booking == b && s.reqs[i].hold.status == HoldStatus.PENDING
                                                then Some(until) else s.reqs[i].hold.expiresAt
  {
    hide RowsOf;
  }

  /** A pending reservation whose expiry has come. */
  predicate RanOut(h: Hold, now: int) {
    h.status == HoldStatus.PENDING && h.expiresAt.Some? && h.expiresAt.value <= now
  }

  /**
   The sweep: every reservation that ran out expires and its row is cancelled with an entry in
   its log, but keeps its assignments. A pending booking is cancelled exactly when one of its
   reservations ran out and none of the others is live.
   */
  lemma SweepWrites(env: Catalogue, s: Tenant)
    ensures Apply(env, s, Sweep).Ok?
    ensures var t := Apply(env, s, Sweep).value;
            && t == s.(bookings := t.bookings, reqs := t.reqs) && |t.reqs| == |s.reqs| && |t.bookings| == |s.bookings|
            && (forall i :: 0 <= i < |s.reqs| ==>
                  var r := s.reqs[i];
                  if RanOut(r.hold, s.now)
                  then && SameOtherwise(r, t.reqs[i]) && t.reqs[i].rows == r.rows && t.reqs[i].hold == r.hold.(status := EXPIRED)
                       && Logs(r, t.reqs[i], EventKind.CANCELLED, r.quantity, {}, ReqStatus.CANCELLED)
                  else t.reqs[i] == r)
            && (forall b: nat :: b < |s.bookings| ==> t.bookings[b] == if s.bookings[b] == Pending && RunsOut(s, b) then Cancelled else s.bookings[b])
  {
    forall b: nat | b < |s.bookings| && s.bookings[b] == Pending ensures SweptOut(s, b) <==> RunsOut(s, b) {
    }
  }

  ghost predicate RunsOut(s: Tenant, b: nat) {
    && (exists i :: 0 <= i < |s.reqs| && s.reqs[i].booking == b && RanOut(s.reqs[i].hold, s.now))
    && (forall i :: 0 <= i < |s.reqs| && s.reqs[i].booking == b ==>
          RanOut(s.reqs[i].hold, s.now) || (s.reqs[i].hold.status != HoldStatus.PENDING && s.reqs[i].hold.status != HoldStatus.CONFIRMED))
  }

  /** The clock never goes back, and moves nothing else. */
  lemma TickIff(env: Catalogue, s: Tenant, instant: int)
    ensures AcceptedIff(env, s, Tick(instant), s.now <= instant)
    ensures s.now <= instant ==> Apply(env, s, Tick(instant)) == Ok(s.(now := instant))
  {
  }
}
