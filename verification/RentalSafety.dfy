/** What holds in every state of every run of the rental engine. */
module RentalSafety {
  import opened Common
  import opened RentalModel
  import opened RentalMachine
  import opened RentalInvariant

  /** Row `a` of requirement `i` is an assignment not yet released. */
  ghost predicate Active(reqs: seq<Requirement>, i: nat, a: nat) {
    i < |reqs| && a in ActiveRows(reqs[i].rows)
  }

  /** No physical unit has two active assignments whose stored ranges overlap. */
  ghost predicate Exclusive(reqs: seq<Requirement>) {
    forall i: nat, a: nat, j: nat, b: nat {:trigger Active(reqs, i, a), Active(reqs, j, b)} ::
      Active(reqs, i, a) && Active(reqs, j, b) && (i != j || a != b) && reqs[i].rows[a].unit == reqs[j].rows[b].unit
      ==> !Overlaps(reqs[i].rows[a].range, reqs[j].rows[b].range)
  }

  ghost predicate GoodRow(bookings: seq<BookingStatus>, r: Requirement) {
    r.booking < |bookings| && RowOk(r, bookings[r.booking])
  }

  ghost predicate RowsOk(bookings: seq<BookingStatus>, reqs: seq<Requirement>) {
    forall i :: 0 <= i < |reqs| ==> GoodRow(bookings, reqs[i])
  }

  /** The holds of a pending booking all expire at the same instant, so they lapse together. */
  ghost predicate HoldsAlike(bookings: seq<BookingStatus>, reqs: seq<Requirement>) {
    forall i, j :: 0 <= i < |reqs| && 0 <= j < |reqs| && PendingPair(bookings, reqs[i], reqs[j])
                   ==> reqs[i].hold.expiresAt == reqs[j].hold.expiresAt
  }

  /** Two rows of one booking that is still pending. */
  ghost predicate PendingPair(bookings: seq<BookingStatus>, r: Requirement, t: Requirement) {
    r.booking == t.booking && r.booking < |bookings| && bookings[r.booking] == Pending
  }

  ghost predicate Inv(s: Tenant) {
    RowsOk(s.bookings, s.reqs) && Exclusive(s.reqs) && HoldsAlike(s.bookings, s.reqs)
  }

  // ------------------------------------------------------------------ Expiry of holds

  /** A row still pending afterwards was pending before, with the same expiry. */
  ghost predicate KeepsExpiry(before: seq<BookingStatus>, after: seq<BookingStatus>, r: Requirement, t: Requirement) {
    t.booking == r.booking
    && (t.booking < |after| && after[t.booking] == Pending
        ==> r.booking < |before| && before[r.booking] == Pending && t.hold.expiresAt == r.hold.expiresAt)
  }

  lemma AlikeStays(s: Tenant, t: Tenant)
    requires HoldsAlike(s.bookings, s.reqs) && |t.reqs| == |s.reqs|
    requires forall i :: 0 <= i < |s.reqs| ==> KeepsExpiry(s.bookings, t.bookings, s.reqs[i], t.reqs[i])
    ensures HoldsAlike(t.bookings, t.reqs)
  {
    forall i, j | 0 <= i < |t.reqs| && 0 <= j < |t.reqs| && PendingPair(t.bookings, t.reqs[i], t.reqs[j])
      ensures t.reqs[i].hold.expiresAt == t.reqs[j].hold.expiresAt
    {
      assert KeepsExpiry(s.bookings, t.bookings, s.reqs[i], t.reqs[i]) && KeepsExpiry(s.bookings, t.bookings, s.reqs[j], t.reqs[j]);
      assert PendingPair(s.bookings, s.reqs[i], s.reqs[j]);
    }
  }

  // ------------------------------------------------------------------ Unit exclusivity

  /** Every active row of `t` is an active row of `r`, unit and range included. */
  ghost predicate Shrinks(r: Requirement, t: Requirement) {
    forall a: nat | a in ActiveRows(t.rows) :: a in ActiveRows(r.rows) && t.rows[a] == r.rows[a]
  }

  lemma ShrinkExclusive(reqs: seq<Requirement>, next: seq<Requirement>)
    requires Exclusive(reqs) && |next| == |reqs|
    requires forall i :: 0 <= i < |reqs| ==> Shrinks(reqs[i], next[i])
    ensures Exclusive(next)
  {
    forall i: nat, a: nat | Active(next, i, a)
      ensures Active(reqs, i, a) && next[i].rows[a] == reqs[i].rows[a]
    {
      assert Shrinks(reqs[i], next[i]);
    }
  }

  lemma AssignExclusive(s: Tenant, i: nat, units: seq<nat>, eligible: set<nat>, barred: set<nat>)
    requires Exclusive(s.reqs) && i < |s.reqs|
    requires AssignTo(s.reqs[i], units, eligible, barred, TakenUnits(s, s.reqs[i].hold.blocked)).Ok?
    ensures Exclusive(s.reqs[i := AssignTo(s.reqs[i], units, eligible, barred, TakenUnits(s, s.reqs[i].hold.blocked)).value])
  {
    var r := s.reqs[i];
    var chosen := Distinct(units);
    var t := AssignTo(r, units, eligible, barred, TakenUnits(s, r.hold.blocked)).value;
    var next := s.reqs[i := t];
    forall j: nat, b: nat | Active(next, j, b)
      ensures if j == i && b >= |r.rows|
              then next[j].rows[b] == Assignment(chosen[b - |r.rows|], r.hold.blocked, false)
                   && chosen[b - |r.rows|] !in TakenUnits(s, r.hold.blocked)
              else Active(s.reqs, j, b) && next[j].rows[b] == s.reqs[j].rows[b]
                   && (Overlaps(s.reqs[j].rows[b].range, r.hold.blocked) ==> s.reqs[j].rows[b].unit in TakenUnits(s, r.hold.blocked))
    {
      if j == i && b >= |r.rows| {
        assert chosen[b - |r.rows|] in ToSet(chosen);
        assert chosen[b - |r.rows|] !in ToSet(chosen) * (barred + TakenUnits(s, r.hold.blocked));
      }
    }
  }

  // ------------------------------------------------------------------ One transaction

  lemma AdmitKeeps(env: Catalogue, s: Tenant, b: nat, expiresAt: Option<int>, lines: seq<Line>)
    requires Inv(s) && b < |s.bookings| && s.bookings[b] == Pending
    requires forall i :: 0 <= i < |s.reqs| && s.reqs[i].booking == b ==> s.reqs[i].hold.expiresAt == expiresAt
    requires AdmitAll(env, s, b, expiresAt, lines).Ok?
    ensures Inv(AdmitAll(env, s, b, expiresAt, lines).value)
    decreases lines
  {
    hide RowOk;
    if lines != [] {
      var line := lines[0];
      var w := Check(env, s.reqs, line.pool, line.start, line.end, line.quantity, s.now, None, true).value;
      var r := NewRow(b, expiresAt, line, w);
      NewRowOk(b, expiresAt, line, w);
      hide Check;
      var next := s.(reqs := s.reqs + [r]);
      forall i: nat, a: nat | Active(next.reqs, i, a)
        ensures Active(s.reqs, i, a) && next.reqs[i] == s.reqs[i]
      {
      }
      AlikeWith(s.bookings, s.reqs, r);
      AdmitKeeps(env, next, b, expiresAt, lines[1..]);
    }
  }

  lemma AlikeWith(bookings: seq<BookingStatus>, reqs: seq<Requirement>, r: Requirement)
    requires HoldsAlike(bookings, reqs)
    requires forall i :: 0 <= i < |reqs| && reqs[i].booking == r.booking ==> reqs[i].hold.expiresAt == r.hold.expiresAt
    ensures HoldsAlike(bookings, reqs + [r])
  {
  }

  lemma NewRowOk(b: nat, expiresAt: Option<int>, line: Line, w: Range)
    requires line.quantity >= 1 && w.first <= line.start <= line.end <= w.last
    ensures RowOk(NewRow(b, expiresAt, line, w), Pending)
  {
    var r := NewRow(b, expiresAt, line, w);
    assert r.events == [] + [r.events[0]];
    LogGrows([], r.events[0], EventKind.HANDED_OUT);
    LogGrows([], r.events[0], EventKind.RETURNED);
    LogGrows([], r.events[0], EventKind.MARKED_LOST);
    assert HandedOutIds(r) == {} && ReturnedIds(r) == {} && LostIds(r) == {};
    assert ActiveRows(r.rows) == {};
  }

  /** Replacing one row by one that the invariant admits and that holds no new unit. */
  lemma PutKeeps(s: Tenant, i: nat, r: Requirement)
    requires Inv(s) && i < |s.reqs|
    requires GoodRow(s.bookings, r) && Shrinks(s.reqs[i], r)
    requires r.booking == s.reqs[i].booking && r.hold.expiresAt == s.reqs[i].hold.expiresAt
    ensures Inv(s.(reqs := s.reqs[i := r]))
  {
    RowsWith(s.bookings, s.reqs, i, r);
    ShrinkExclusive(s.reqs, s.reqs[i := r]);
    AlikeStays(s, s.(reqs := s.reqs[i := r]));
  }

  lemma RowsWith(bookings: seq<BookingStatus>, reqs: seq<Requirement>, i: nat, r: Requirement)
    requires RowsOk(bookings, reqs) && i < |reqs| && GoodRow(bookings, r)
    ensures RowsOk(bookings, reqs[i := r])
  {
    var next := reqs[i := r];
    forall j | 0 <= j < |next| ensures GoodRow(bookings, next[j]) {
      assert next[j] == if j == i then r else reqs[j];
    }
  }

  lemma RecordGood(bookings: seq<BookingStatus>, r: Requirement, kind: EventKind, quantity: int, ids: seq<nat>, checks: UnitChecks)
    requires GoodRow(bookings, r) && RecordOn(r, bookings[r.booking], kind, quantity, ids, checks).Ok?
    ensures var t := RecordOn(r, bookings[r.booking], kind, quantity, ids, checks).value;
            GoodRow(bookings, t) && Shrinks(r, t)
  {
    hide RowOk;
    if kind == EventKind.HANDED_OUT {
      HandOutKeeps(r, bookings[r.booking], quantity, ids, checks);
    } else {
      ReturnKeeps(r, bookings[r.booking], kind, quantity, ids, checks);
    }
  }

  /** A row that can be substituted has no piece out: an overdue row still has an active assignment. */
  lemma SubstituteGood(bookings: seq<BookingStatus>, r: Requirement, t: Requirement)
    requires GoodRow(bookings, r) && ActiveRows(r.rows) == {}
    requires r.status !in {ReqStatus.RETURNED, LOST, ReqStatus.CANCELLED}
    requires t == r.(pool := t.pool, hold := r.hold.(blocked := t.hold.blocked), status := ReqStatus.RESERVED, prep := NOT_STARTED)
    requires DatesOk(t.hold)
    ensures GoodRow(bookings, t) && r.handedOutQty == 0
  {
    NothingOut(r, bookings[r.booking]);
    SubstituteRowOk(r, t, bookings[r.booking]);
  }

  lemma SubstituteRowOk(r: Requirement, t: Requirement, b: BookingStatus)
    requires RowOk(r, b) && r.handedOutQty == Resolved(r) && ActiveRows(r.rows) == {}
    requires r.status !in {ReqStatus.RETURNED, LOST, ReqStatus.CANCELLED}
    requires t == r.(pool := t.pool, hold := r.hold.(blocked := t.hold.blocked), status := ReqStatus.RESERVED, prep := NOT_STARTED)
    requires DatesOk(t.hold)
    ensures RowOk(t, b) && r.handedOutQty == 0
  {
    assert LogMatches(t);
  }

  lemma NothingOut(r: Requirement, b: BookingStatus)
    requires RowOk(r, b) && ActiveRows(r.rows) == {}
    ensures r.handedOutQty == Resolved(r)
  {
    assert HandedOutIds(r) - ResolvedIds(r) == {};
    SubsetSize(ResolvedIds(r), HandedOutIds(r));
    SubsetSize(HandedOutIds(r), ResolvedIds(r));
  }

  lemma ExtendRowsKeep(env: Catalogue, s: Tenant, b: nat, end: int)
    requires Inv(s) && ExtendBooking(env, s, b, end).Ok?
    ensures Inv(ExtendBooking(env, s, b, end).value)
  {
    hide RowOk;
    var t := ExtendBooking(env, s, b, end).value;
    forall i | 0 <= i < |s.reqs| ensures GoodRow(t.bookings, t.reqs[i]) && Shrinks(s.reqs[i], t.reqs[i]) {
      assert GoodRow(s.bookings, s.reqs[i]);
      if i in Targets(s, b) {
        assert ExtensionCheck(env, s, i, end).Ok?;
        ExtendKeeps(s.reqs[i], s.bookings[s.reqs[i].booking], end, ExtensionCheck(env, s, i, end).value);
      }
    }
    ShrinkExclusive(s.reqs, t.reqs);
    AlikeStays(s, t);
  }

  lemma EnterKeeps(s: Tenant, b: nat, to: BookingStatus, checks: CloseChecks)
    requires Inv(s) && b < |s.bookings| && Allowed(s.bookings[b], to) && Enter(s, b, to, checks).Ok?
    ensures Inv(Enter(s, b, to, checks).value)
  {
    var t := Enter(s, b, to, checks).value;
    forall i | 0 <= i < |s.reqs| ensures GoodRow(t.bookings, t.reqs[i]) && Shrinks(s.reqs[i], t.reqs[i]) {
      assert GoodRow(s.bookings, s.reqs[i]);
      if s.reqs[i].booking == b {
        EnterPasses(s, b, to, checks, i);
        MoveGood(s.bookings, s.reqs[i], to, s.now);
      }
    }
    ShrinkExclusive(s.reqs, t.reqs);
    MovedAlike(s, t, b, to);
  }

  /** No transition leads back to `pending`. */
  lemma MovedAlike(s: Tenant, t: Tenant, b: nat, to: BookingStatus)
    requires HoldsAlike(s.bookings, s.reqs) && b < |s.bookings| && to != Pending
    requires t == s.(bookings := s.bookings[b := to], reqs := MoveRows(s.reqs, b, to))
    ensures HoldsAlike(t.bookings, t.reqs)
  {
    hide Moved;
    forall i | 0 <= i < |s.reqs| ensures KeepsExpiry(s.bookings, t.bookings, s.reqs[i], t.reqs[i]) {
      MovedBooking(s.reqs[i], to);
    }
    AlikeStays(s, t);
  }

  lemma MovedBooking(r: Requirement, to: BookingStatus)
    ensures Moved(r, to).booking == r.booking
  {
  }

  lemma MoveGood(bookings: seq<BookingStatus>, r: Requirement, to: BookingStatus, now: int)
    requires GoodRow(bookings, r) && Allowed(bookings[r.booking], to) && Passes(r, to, now)
    ensures GoodRow(bookings[r.booking := to], Moved(r, to)) && Shrinks(r, Moved(r, to))
  {
    hide RowOk;
    MoveKeeps(r, bookings[r.booking], to, now);
  }

  lemma EnterPasses(s: Tenant, b: nat, to: BookingStatus, checks: CloseChecks, i: nat)
    requires b < |s.bookings| && Enter(s, b, to, checks).Ok?
    requires i < |s.reqs| && s.reqs[i].booking == b
    ensures Passes(s.reqs[i], to, s.now)
  {
    var r := s.reqs[i];
    assert r in RowsOf(s, b);
    assert InPlay(r) ==> r in LiveRowsOf(s, b);
  }

  lemma SweepRowsKeep(s: Tenant)
    requires Inv(s)
    ensures Inv(s.(bookings := SweepBookings(s), reqs := SweepRows(s)))
  {
    hide RowOk, SweptOut;
    var t := s.(bookings := SweepBookings(s), reqs := SweepRows(s));
    forall i | 0 <= i < |s.reqs|
      ensures GoodRow(t.bookings, t.reqs[i]) && Shrinks(s.reqs[i], t.reqs[i]) && KeepsExpiry(s.bookings, t.bookings, s.reqs[i], t.reqs[i])
    {
      assert GoodRow(s.bookings, s.reqs[i]);
      SweptTogether(s, i);
      if Lapsed(s.reqs[i], s.now) { SweepKeeps(s.reqs[i], s.now); }
    }
    ShrinkExclusive(s.reqs, t.reqs);
    AlikeStays(s, t);
  }

  /** A lapsed hold belongs to a pending booking, and the sweep cancels it: every other hold has lapsed as well. */
  lemma SweptTogether(s: Tenant, i: nat)
    requires Inv(s) && i < |s.reqs|
    ensures s.reqs[i].booking < |s.bookings|
    ensures Lapsed(s.reqs[i], s.now) ==> s.bookings[s.reqs[i].booking] == Pending
    ensures SweptOut(s, s.reqs[i].booking) <==> Lapsed(s.reqs[i], s.now)
  {
    hide RowOk, Exclusive;
    var b := s.reqs[i].booking;
    assert GoodRow(s.bookings, s.reqs[i]);
    if Lapsed(s.reqs[i], s.now) { LapsedIsPending(s.reqs[i], s.bookings[b], s.now); }
    if s.bookings[b] == Pending {
      forall j | 0 <= j < |s.reqs| && s.reqs[j].booking == b
        ensures Lapsed(s.reqs[j], s.now) == Lapsed(s.reqs[i], s.now) && HoldLive(s.reqs[j].hold)
      {
        assert GoodRow(s.bookings, s.reqs[j]) && PendingPair(s.bookings, s.reqs[i], s.reqs[j]);
        PendingHold(s.reqs[i]);
        PendingHold(s.reqs[j]);
      }
    }
  }

  lemma LapsedIsPending(r: Requirement, b: BookingStatus, now: int)
    requires RowOk(r, b) && Lapsed(r, now)
    ensures b == Pending
  {
  }

  lemma PendingHold(r: Requirement)
    requires RowOk(r, Pending)
    ensures r.hold.status == HoldStatus.PENDING
  {
  }

  lemma ApproveKeeps(s: Tenant, b: nat, fit: bool)
    requires Inv(s) && b < |s.bookings| && s.bookings[b] == Pending && ApproveRequest(s, b, fit).Ok?
    ensures Inv(ApproveRequest(s, b, fit).value)
  {
    hide RowOk;
    var t := ApproveRequest(s, b, fit).value;
    forall i | 0 <= i < |s.reqs| ensures GoodRow(t.bookings, t.reqs[i]) && Shrinks(s.reqs[i], t.reqs[i]) {
      assert GoodRow(s.bookings, s.reqs[i]);
      if s.reqs[i].booking == b {
        ApprovalPasses(s, b, fit, i);
        MoveGood(s.bookings, s.reqs[i], Confirmed, s.now);
      }
    }
    ShrinkExclusive(s.reqs, t.reqs);
    MovedAlike(s, t, b, Confirmed);
  }

  /** The review looks at every row of a pending booking, as all of them are reviewable. */
  lemma ApprovalPasses(s: Tenant, b: nat, fit: bool, i: nat)
    requires Inv(s) && b < |s.bookings| && s.bookings[b] == Pending && ApproveRequest(s, b, fit).Ok?
    requires i < |s.reqs| && s.reqs[i].booking == b
    ensures Passes(s.reqs[i], Confirmed, s.now) && Counted(s.reqs[i].hold, s.now)
  {
    assert GoodRow(s.bookings, s.reqs[i]);
    RejectKeeps(s.reqs[i]);
    assert s.reqs[i] in ReviewableRowsOf(s, b);
  }

  lemma RejectRowsKeep(s: Tenant, b: nat)
    requires Inv(s) && b < |s.bookings| && s.bookings[b] == Pending
    ensures Inv(s.(bookings := s.bookings[b := Cancelled], reqs := RejectRows(s.reqs, b)))
  {
    hide RowOk, Rejected;
    var t := s.(bookings := s.bookings[b := Cancelled], reqs := RejectRows(s.reqs, b));
    forall i | 0 <= i < |s.reqs|
      ensures GoodRow(t.bookings, t.reqs[i]) && Shrinks(s.reqs[i], t.reqs[i]) && KeepsExpiry(s.bookings, t.bookings, s.reqs[i], t.reqs[i])
    {
      assert GoodRow(s.bookings, s.reqs[i]);
      if s.reqs[i].booking == b {
        RejectKeeps(s.reqs[i]);
        assert Rejected(s.reqs[i]).booking == b by { RejectedBooking(s.reqs[i]); }
      }
    }
    ShrinkExclusive(s.reqs, t.reqs);
    AlikeStays(s, t);
  }

  lemma RejectedBooking(r: Requirement)
    ensures Rejected(r).booking == r.booking
  {
  }

  lemma RenewKeeps(s: Tenant, b: nat, until: int)
    requires Inv(s) && b < |s.bookings| && s.bookings[b] == Pending
    ensures Inv(s.(reqs := RenewRows(s.reqs, b, until)))
  {
    hide RowOk;
    var reqs := RenewRows(s.reqs, b, until);
    forall i | 0 <= i < |s.reqs|
      ensures GoodRow(s.bookings, reqs[i]) && Shrinks(s.reqs[i], reqs[i]) && reqs[i].booking == s.reqs[i].booking
      ensures reqs[i].hold.expiresAt == if s.reqs[i].booking == b then Some(until) else s.reqs[i].hold.expiresAt
    {
      assert GoodRow(s.bookings, s.reqs[i]);
      if s.reqs[i].booking == b { RenewedRowOk(s.reqs[i], until); }
    }
    ShrinkExclusive(s.reqs, reqs);
    assert HoldsAlike(s.bookings, reqs) by {
      forall i, j | 0 <= i < |reqs| && 0 <= j < |reqs| && PendingPair(s.bookings, reqs[i], reqs[j])
        ensures reqs[i].hold.expiresAt == reqs[j].hold.expiresAt
      {
        assert PendingPair(s.bookings, s.reqs[i], s.reqs[j]);
      }
    }
  }

  lemma RenewedRowOk(r: Requirement, until: int)
    requires RowOk(r, Pending)
    ensures RowOk(r.(hold := r.hold.(expiresAt := Some(until))), Pending) && r.hold.status == HoldStatus.PENDING
  {
  }

  lemma DecideKeeps(s: Tenant, c: Command)
    requires Inv(s) && IsReview(c) && Decide(s, c).Ok?
    ensures Inv(Decide(s, c).value)
  {
    hide Inv, ApproveRequest, RejectRows, RenewRows;
    match c
    case Approve(b, fit) => ApproveKeeps(s, b, fit);
    case Reject(b) => RejectRowsKeep(s, b);
    case Renew(b, until) => RenewKeeps(s, b, until);
  }

  lemma AssignGood(bookings: seq<BookingStatus>, r: Requirement, units: seq<nat>, eligible: set<nat>, barred: set<nat>, taken: set<nat>)
    requires GoodRow(bookings, r) && AssignTo(r, units, eligible, barred, taken).Ok?
    ensures GoodRow(bookings, AssignTo(r, units, eligible, barred, taken).value)
  {
    AssignKeeps(r, bookings[r.booking], units, eligible, barred, taken);
  }

  lemma ReleaseGood(bookings: seq<BookingStatus>, r: Requirement, row: nat)
    requires GoodRow(bookings, r) && ReleaseFrom(r, row).Ok?
    ensures GoodRow(bookings, ReleaseFrom(r, row).value) && Shrinks(r, ReleaseFrom(r, row).value)
  {
    hide RowOk;
    ReleaseKeeps(r, bookings[r.booking], row);
  }

  lemma PrepareGood(bookings: seq<BookingStatus>, r: Requirement, ready: bool)
    requires GoodRow(bookings, r) && PrepareIt(r, bookings[r.booking], ready).Ok?
    ensures GoodRow(bookings, PrepareIt(r, bookings[r.booking], ready).value)
    ensures Shrinks(r, PrepareIt(r, bookings[r.booking], ready).value)
  {
    hide RowOk;
    PrepareKeeps(r, bookings[r.booking], ready);
  }

  /** A command on one row, other than an assignment, keeps that row good and gives it no new unit. */
  lemma RowStepGood(env: Catalogue, s: Tenant, c: Command)
    requires OneRow(c) && !c.Assign? && c.req < |s.reqs| && GoodRow(s.bookings, s.reqs[c.req])
    requires RowStep(env, s, c).Ok?
    ensures GoodRow(s.bookings, RowStep(env, s, c).value) && Shrinks(s.reqs[c.req], RowStep(env, s, c).value)
  {
    hide RowOk;
    var r := s.reqs[c.req];
    match c
    case Release(_, row) => ReleaseGood(s.bookings, r, row);
    case Prepare(_, ready, _, _) => PrepareGood(s.bookings, r, ready);
    case Record(_, kind, quantity, ids, _, _, checks) => RecordGood(s.bookings, r, kind, quantity, ids, checks);
    case Substitute(_, _, _, _, _, _) => SubstituteGood(s.bookings, r, RowStep(env, s, c).value);
  }

  lemma RowStepExpiry(env: Catalogue, s: Tenant, c: Command)
    requires OneRow(c) && c.req < |s.reqs| && s.reqs[c.req].booking < |s.bookings| && RowStep(env, s, c).Ok?
    ensures var t := RowStep(env, s, c).value;
            t.booking == s.reqs[c.req].booking && t.hold.expiresAt == s.reqs[c.req].hold.expiresAt
  {
  }

  lemma AttemptRowKeeps(env: Catalogue, s: Tenant, c: Command)
    requires Inv(s) && OneRow(c) && c.req < |s.reqs| && RowStep(env, s, c).Ok?
    ensures Inv(s.(reqs := s.reqs[c.req := RowStep(env, s, c).value]))
  {
    hide RowOk, AssignTo, BarredUnits, TakenUnits, Shrinks, Stock;
    var r := s.reqs[c.req];
    var t := RowStep(env, s, c).value;
    assert GoodRow(s.bookings, r);
    RowStepExpiry(env, s, c);
    if c.Assign? {
      var barred := BarredUnits(env, r.pool, c.units, r.hold.blocked);
      AssignExclusive(s, c.req, c.units, c.eligible * Stock(env, r.pool), barred);
      AssignGood(s.bookings, r, c.units, c.eligible * Stock(env, r.pool), barred, TakenUnits(s, r.hold.blocked));
      RowsWith(s.bookings, s.reqs, c.req, t);
      AlikeStays(s, s.(reqs := s.reqs[c.req := t]));
    } else {
      RowStepGood(env, s, c);
      PutKeeps(s, c.req, t);
    }
  }

  lemma NewBookingKeeps(s: Tenant)
    requires Inv(s)
    ensures Inv(s.(bookings := s.bookings + [Pending]))
    ensures forall i :: 0 <= i < |s.reqs| ==> s.reqs[i].booking != |s.bookings|
  {
    var bookings := s.bookings + [Pending];
    forall i | 0 <= i < |s.reqs| ensures GoodRow(bookings, s.reqs[i]) && s.reqs[i].booking < |s.bookings| {
      assert GoodRow(s.bookings, s.reqs[i]);
    }
    AlikeStays(s, s.(bookings := bookings));
  }

  lemma AttemptKeeps(env: Catalogue, s: Tenant, c: Command)
    requires Inv(s) && Attempt(env, s, c).Ok?
    ensures Inv(Attempt(env, s, c).value)
  {
    hide Inv, RowStep, AdmitAll, ExtendBooking, Enter, Decide, SweepRows, SweepBookings;
    if OneRow(c) {
      AttemptRowKeeps(env, s, c);
    } else if IsReview(c) {
      DecideKeeps(s, c);
    } else {
      match c
      case Create(expiresAt, lines) =>
        NewBookingKeeps(s);
        AdmitKeeps(env, s.(bookings := s.bookings + [Pending]), |s.bookings|, expiresAt, lines);
      case Extend(b, end, _, _, _, _) => ExtendRowsKeep(env, s, b, end);
      case Transition(b, to, checks) => EnterKeeps(s, b, to, checks);
      case Cancel(b, byCustomer) => EnterKeeps(s, b, Cancelled, CloseChecks(0, 0, 0, 0));
      case Sweep => SweepRowsKeep(s);
      case Tick(to) => SameTables(s, s.(now := to));
    }
  }

  /** Only the row tables matter to the invariant. */
  lemma SameTables(s: Tenant, t: Tenant)
    requires Inv(s) && t.bookings == s.bookings && t.reqs == s.reqs
    ensures Inv(t)
  {
  }

  /** Every transaction keeps the invariant. */
  lemma ApplyKeeps(env: Catalogue, s: Tenant, c: Command)
    requires Inv(s)
    ensures Inv(Next(env, s, c))
  {
    hide Attempt, Inv;
    if Attempt(env, s, c).Ok? {
      AttemptKeeps(env, s, c);
      if Next(env, s, c) != s { SameTables(Attempt(env, s, c).value, Next(env, s, c)); }
    }
  }

  /** From any state that meets the invariant, every run does. */
  lemma {:induction false} RunKeeps(env: Catalogue, s: Tenant, commands: seq<Command>)
    requires Inv(s)
    ensures Inv(Run(env, s, commands))
  {
    if commands != [] {
      RunKeeps(env, s, commands[..|commands| - 1]);
      ApplyKeeps(env, Run(env, s, commands[..|commands| - 1]), commands[|commands| - 1]);
    }
  }

  /** So it holds in every state reachable from an empty tenant. */
  ghost predicate Reachable(env: Catalogue, s: Tenant) {
    exists now: int, commands: seq<Command> :: s == Run(env, Empty(now), commands)
  }

  lemma ReachableInv(env: Catalogue, s: Tenant)
    requires Reachable(env, s)
    ensures Inv(s)
  {
    var now: int, commands: seq<Command> :| s == Run(env, Empty(now), commands);
    RunKeeps(env, Empty(now), commands);
  }
}
