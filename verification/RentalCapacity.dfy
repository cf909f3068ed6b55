/**
 Admission by counting. The check adds up every reservation that overlaps the requested
 range; what it protects is the number of units on each single day.
 */
module RentalCapacity {
  import opened Common
  import opened RentalModel
  import opened RentalMachine
  import opened RentalInvariant
  import opened RentalSafety
  import opened RentalTheorems

  /** On day `d` the live reserved quantity fits the units eligible that day plus the shortage limit. */
  ghost predicate Fits(env: Catalogue, reqs: seq<Requirement>, now: int, pool: Pool, d: int) {
    pool in env ==> Load(reqs, pool, Day(d), now, None) <= Capacity(env[pool], Day(d)) + env[pool].shortage
  }

  ghost predicate DaysFit(env: Catalogue, reqs: seq<Requirement>, now: int) {
    forall pool, d :: Fits(env, reqs, now, pool, d)
  }

  predicate Positive(reqs: seq<Requirement>) {
    forall i :: 0 <= i < |reqs| ==> reqs[i].quantity >= 0
  }

  // ------------------------------------------------------------------ Adding up

  lemma {:induction false} LoadDominated(a: seq<Requirement>, b: seq<Requirement>, pool: Pool, v: Range, w: Range,
                                         before: int, now: int, skip: Option<nat>)
    requires |a| == |b| && Positive(b)
    requires forall i :: 0 <= i < |a| && skip != Some(i) && Weighs(a[i], pool, v, before)
                         ==> Weighs(b[i], pool, w, now) && a[i].quantity == b[i].quantity
    ensures Load(a, pool, v, before, skip) <= Load(b, pool, w, now, skip)
  {
    if a != [] {
      LoadDominated(a[..|a| - 1], b[..|b| - 1], pool, v, w, before, now, skip);
    }
  }

  /** Leaving a row out takes away exactly what it weighs. */
  lemma {:induction false} LoadSplit(reqs: seq<Requirement>, pool: Pool, w: Range, now: int, i: nat)
    requires i < |reqs|
    ensures Load(reqs, pool, w, now, None)
            == Load(reqs, pool, w, now, Some(i)) + if Weighs(reqs[i], pool, w, now) then reqs[i].quantity else 0
  {
    var n := |reqs| - 1;
    if i == n {
      LoadBelow(reqs[..n], pool, w, now, i);
    } else {
      LoadSplit(reqs[..n], pool, w, now, i);
    }
  }

  lemma {:induction false} LoadBelow(reqs: seq<Requirement>, pool: Pool, w: Range, now: int, i: nat)
    requires |reqs| <= i
    ensures Load(reqs, pool, w, now, None) == Load(reqs, pool, w, now, Some(i))
  {
    if reqs != [] {
      LoadBelow(reqs[..|reqs| - 1], pool, w, now, i);
    }
  }

  lemma LoadOthers(reqs: seq<Requirement>, i: nat, t: Requirement, pool: Pool, w: Range, now: int)
    requires i < |reqs| && Positive(reqs) && t.quantity >= 0
    ensures Load(reqs[i := t], pool, w, now, Some(i)) == Load(reqs, pool, w, now, Some(i))
  {
    LoadDominated(reqs[i := t], reqs, pool, w, w, now, now, Some(i));
    LoadDominated(reqs, reqs[i := t], pool, w, w, now, now, Some(i));
  }

  /** On a day inside the checked range the count is no larger and the units are no fewer. */
  lemma DayInside(env: Catalogue, reqs: seq<Requirement>, pool: Pool, w: Range, now: int, skip: Option<nat>, d: int)
    requires pool in env && Positive(reqs) && w.first <= d <= w.last
    ensures Load(reqs, pool, Day(d), now, skip) <= Load(reqs, pool, w, now, skip)
    ensures Capacity(env[pool], w) <= Capacity(env[pool], Day(d))
  {
    LoadDominated(reqs, reqs, pool, Day(d), w, now, now, skip);
    SubsetSize(CountedUnits(env[pool], w), CountedUnits(env[pool], Day(d)));
  }

  /** What a successful check says about the count. */
  lemma CheckedCount(env: Catalogue, reqs: seq<Requirement>, pool: Pool, start: int, end: int, quantity: int, now: int, skip: Option<nat>, enforce: bool)
    requires Check(env, reqs, pool, start, end, quantity, now, skip, enforce).Ok?
    ensures pool in env && quantity >= 1 && start <= end
    ensures var w := Check(env, reqs, pool, start, end, quantity, now, skip, enforce).value;
            && w == BlockedRange(env[pool], start, end)
            && Load(reqs, pool, w, now, skip) + quantity <= Capacity(env[pool], w) + env[pool].shortage
  {
  }

  // ------------------------------------------------------------------ One transaction

  /** `t` weighs no more than `r`, wherever it weighs. */
  predicate NoHeavier(r: Requirement, t: Requirement, before: int, now: int) {
    && t.pool == r.pool && t.quantity == r.quantity && t.hold.blocked == r.hold.blocked
    && (Counted(t.hold, now) ==> Counted(r.hold, before))
  }

  lemma LighterFits(env: Catalogue, a: seq<Requirement>, b: seq<Requirement>, before: int, now: int)
    requires |a| == |b| && Positive(a) && DaysFit(env, a, before)
    requires forall i :: 0 <= i < |a| ==> NoHeavier(a[i], b[i], before, now)
    ensures DaysFit(env, b, now)
  {
    forall pool, d ensures Fits(env, b, now, pool, d) {
      assert Fits(env, a, before, pool, d);
      LoadDominated(b, a, pool, Day(d), Day(d), now, before, None);
    }
  }

  /** A checked row can be added. */
  lemma AddedFits(env: Catalogue, reqs: seq<Requirement>, now: int, t: Requirement)
    requires Positive(reqs) && DaysFit(env, reqs, now)
    requires Check(env, reqs, t.pool, t.hold.start, t.hold.end, t.quantity, now, None, true) == Ok(t.hold.blocked)
    ensures DaysFit(env, reqs + [t], now)
  {
    CheckedCount(env, reqs, t.pool, t.hold.start, t.hold.end, t.quantity, now, None, true);
    hide Check;
    forall pool, d ensures Fits(env, reqs + [t], now, pool, d) {
      assert Fits(env, reqs, now, pool, d);
      assert (reqs + [t])[..|reqs|] == reqs;
      if Weighs(t, pool, Day(d), now) {
        DayInside(env, reqs, pool, t.hold.blocked, now, None, d);
      }
    }
  }

  /** A checked row can take the place of the row left out of its check. */
  lemma ReplacedFits(env: Catalogue, reqs: seq<Requirement>, now: int, i: nat, t: Requirement)
    requires i < |reqs| && Positive(reqs) && DaysFit(env, reqs, now)
    requires Check(env, reqs, t.pool, t.hold.start, t.hold.end, t.quantity, now, Some(i), false) == Ok(t.hold.blocked)
    ensures DaysFit(env, reqs[i := t], now)
  {
    CheckedCount(env, reqs, t.pool, t.hold.start, t.hold.end, t.quantity, now, Some(i), false);
    hide Check;
    var next := reqs[i := t];
    forall pool, d ensures Fits(env, next, now, pool, d) {
      assert Fits(env, reqs, now, pool, d);
      LoadSplit(reqs, pool, Day(d), now, i);
      LoadSplit(reqs[i := t], pool, Day(d), now, i);
      LoadOthers(reqs, i, t, pool, Day(d), now);
      if Weighs(t, pool, Day(d), now) {
        DayInside(env, reqs, pool, t.hold.blocked, now, Some(i), d);
      }
    }
  }

  lemma AdmitFits(env: Catalogue, s: Tenant, b: nat, expiresAt: Option<int>, lines: seq<Line>)
    requires Positive(s.reqs) && DaysFit(env, s.reqs, s.now) && AdmitAll(env, s, b, expiresAt, lines).Ok?
    ensures DaysFit(env, AdmitAll(env, s, b, expiresAt, lines).value.reqs, s.now)
    decreases lines
  {
    if lines != [] {
      var line := lines[0];
      var w := Check(env, s.reqs, line.pool, line.start, line.end, line.quantity, s.now, None, true).value;
      var r := NewRow(b, expiresAt, line, w);
      AddedFits(env, s.reqs, s.now, r);
      CheckedCount(env, s.reqs, line.pool, line.start, line.end, line.quantity, s.now, None, true);
      hide Check;
      AdmitFits(env, s.(reqs := s.reqs + [r]), b, expiresAt, lines[1..]);
    }
  }

  // ------------------------------------------------------------------ Extending several rows at once

  /** Among the rewritten rows of one pool there is one with the earliest start. */
  lemma {:induction false} Earliest(reqs: seq<Requirement>, targets: set<nat>) returns (e: nat)
    requires targets != {} && forall i | i in targets :: i < |reqs|
    ensures e in targets && forall i | i in targets :: reqs[e].hold.start <= reqs[i].hold.start
    decreases |targets|
  {
    var x :| x in targets;
    e := x;
    if targets - {x} != {} {
      var rest := Earliest(reqs, targets - {x});
      e := if reqs[rest].hold.start < reqs[x].hold.start then rest else x;
    }
  }

  /** What an extension does to the hold of a row, and what it had checked. */
  ghost predicate Stretched(env: Catalogue, s: Tenant, end: int, i: nat, t: Requirement)
    requires i < |s.reqs|
  {
    var r := s.reqs[i];
    && t.pool == r.pool && t.quantity == r.quantity && r.pool in env
    && t.hold == r.hold.(end := end, blocked := BlockedRange(env[r.pool], r.hold.start, end))
    && r.hold.start < end && r.hold.end < end
    && Load(s.reqs, r.pool, t.hold.blocked, s.now, Some(i)) + r.quantity <= Capacity(env[r.pool], t.hold.blocked) + env[r.pool].shortage
  }

  lemma ExtensionRow(env: Catalogue, s: Tenant, b: nat, end: int, i: nat)
    requires ExtendBooking(env, s, b, end).Ok? && i < |s.reqs|
    ensures |ExtendBooking(env, s, b, end).value.reqs| == |s.reqs|
    ensures var t := ExtendBooking(env, s, b, end).value.reqs[i];
            if i in Targets(s, b) then Stretched(env, s, end, i, t) else t == s.reqs[i]
  {
    if i in Targets(s, b) {
      var r := s.reqs[i];
      assert ExtensionCheck(env, s, i, end).Ok?;
      CheckedCount(env, s.reqs, r.pool, r.hold.start, end, r.quantity, s.now, Some(i), false);
    }
  }

  /** The new table of an extension, seen row by row. */
  ghost predicate StretchedRows(env: Catalogue, s: Tenant, end: int, targets: set<nat>, next: seq<Requirement>) {
    && |next| == |s.reqs| && (forall i | i in targets :: i < |s.reqs|)
    && (forall i: nat :: i < |s.reqs| ==> if i in targets then Stretched(env, s, end, i, next[i]) else next[i] == s.reqs[i])
  }

  /**
   The check of the earliest row already counted everything that any rewritten row will
   weigh: their new ranges lie inside its range, and their old ranges reach into it.
   */
  lemma EarliestSawThem(env: Catalogue, s: Tenant, end: int, targets: set<nat>, next: seq<Requirement>, e: nat, d: int)
    requires StretchedRows(env, s, end, targets, next) && Positive(s.reqs) && e in targets
    requires forall i: nat | i < |s.reqs| :: DatesOk(s.reqs[i].hold)
    requires forall i | i in targets && s.reqs[i].pool == s.reqs[e].pool :: s.reqs[e].hold.start <= s.reqs[i].hold.start
    requires next[e].hold.blocked.first <= d <= next[e].hold.blocked.last
    ensures Load(next, s.reqs[e].pool, Day(d), s.now, Some(e)) <= Load(s.reqs, s.reqs[e].pool, next[e].hold.blocked, s.now, Some(e))
  {
    var pool := s.reqs[e].pool;
    var w := next[e].hold.blocked;
    assert Stretched(env, s, end, e, next[e]);
    forall i: nat | i < |s.reqs| && i != e && Weighs(next[i], pool, Day(d), s.now)
      ensures Weighs(s.reqs[i], pool, w, s.now) && s.reqs[i].quantity == next[i].quantity
    {
      assert DatesOk(s.reqs[i].hold);
      assert if i in targets then Stretched(env, s, end, i, next[i]) else next[i] == s.reqs[i];
    }
    LoadDominated(next, s.reqs, pool, Day(d), w, s.now, s.now, Some(e));
  }

  lemma StretchedFits(env: Catalogue, s: Tenant, end: int, targets: set<nat>, next: seq<Requirement>, pool: Pool, d: int)
    requires StretchedRows(env, s, end, targets, next) && Positive(s.reqs)
    requires forall i: nat | i < |s.reqs| :: DatesOk(s.reqs[i].hold)
    requires Fits(env, s.reqs, s.now, pool, d)
    ensures Fits(env, next, s.now, pool, d)
  {
    hide DatesOk;
    var here := set i | i in targets && s.reqs[i].pool == pool;
    if exists i | i in here :: Weighs(next[i], pool, Day(d), s.now) {
      var i :| i in here && Weighs(next[i], pool, Day(d), s.now);
      var e := Earliest(s.reqs, here);
      assert Stretched(env, s, end, i, next[i]) && Stretched(env, s, end, e, next[e]);
      var w := next[e].hold.blocked;
      assert w.first <= d <= w.last;
      hide Stretched;
      EarliestSawThem(env, s, end, targets, next, e, d);
      LoadSplit(next, pool, Day(d), s.now, e);
      DayInside(env, s.reqs, pool, w, s.now, Some(e), d);
    } else {
      assert forall i: nat | i < |s.reqs| && Weighs(next[i], pool, Day(d), s.now) :: i in targets ==> i in here;
      LoadDominated(next, s.reqs, pool, Day(d), Day(d), s.now, s.now, None);
    }
  }

  lemma ExtensionRows(env: Catalogue, s: Tenant, b: nat, end: int)
    requires ExtendBooking(env, s, b, end).Ok?
    ensures StretchedRows(env, s, end, Targets(s, b), ExtendBooking(env, s, b, end).value.reqs)
    ensures ExtendBooking(env, s, b, end).value.now == s.now
  {
    hide Stretched;
    var next := ExtendBooking(env, s, b, end).value.reqs;
    forall i: nat | i < |s.reqs|
      ensures |next| == |s.reqs| && if i in Targets(s, b) then Stretched(env, s, end, i, next[i]) else next[i] == s.reqs[i]
    {
      ExtensionRow(env, s, b, end, i);
    }
  }

  /** Each row is checked alone against the old ranges; together the new ranges still fit, every day. */
  lemma ExtensionFits(env: Catalogue, s: Tenant, b: nat, end: int)
    requires Inv(s) && DaysFit(env, s.reqs, s.now) && ExtendBooking(env, s, b, end).Ok?
    ensures ExtendBooking(env, s, b, end).value.now == s.now
    ensures DaysFit(env, ExtendBooking(env, s, b, end).value.reqs, s.now)
  {
    hide ExtendBooking, StretchedRows, DatesOk, Fits, Inv;
    RowsHaveDates(s);
    ExtensionRows(env, s, b, end);
    var next := ExtendBooking(env, s, b, end).value.reqs;
    forall pool, d ensures Fits(env, next, s.now, pool, d) {
      assert Fits(env, s.reqs, s.now, pool, d);
      StretchedFits(env, s, end, Targets(s, b), next, pool, d);
    }
  }

  lemma RowsHaveDates(s: Tenant)
    requires Inv(s)
    ensures Positive(s.reqs) && forall i: nat | i < |s.reqs| :: DatesOk(s.reqs[i].hold)
  {
    forall i: nat | i < |s.reqs| ensures s.reqs[i].quantity >= 0 && DatesOk(s.reqs[i].hold) {
      assert GoodRow(s.bookings, s.reqs[i]);
    }
  }

  // ------------------------------------------------------------------ Renewing holds

  /** Quantity of the lapsed holds of booking `b` that overlaps `w`. */
  function LapsedLoad(reqs: seq<Requirement>, b: nat, pool: Pool, w: Range, now: int): int {
    if reqs == [] then 0
    else
      var r := reqs[|reqs| - 1];
      LapsedLoad(reqs[..|reqs| - 1], b, pool, w, now)
      + if r.booking == b && Lapsed(r, now) && r.pool == pool && Overlaps(r.hold.blocked, w) then r.quantity else 0
  }

  /** Renewing puts every lapsed hold of the booking back into the count, unchecked. */
  lemma {:induction false} RenewalLoad(reqs: seq<Requirement>, b: nat, until: int, pool: Pool, w: Range, now: int)
    requires until > now
    ensures Load(RenewRows(reqs, b, until), pool, w, now, None)
            == Load(reqs, pool, w, now, None) + LapsedLoad(reqs, b, pool, w, now)
  {
    if reqs != [] {
      RenewalLoad(reqs[..|reqs| - 1], b, until, pool, w, now);
      assert RenewRows(reqs, b, until)[..|reqs| - 1] == RenewRows(reqs[..|reqs| - 1], b, until);
    }
  }

  /** Every day has room left for the lapsed quantity of booking `b`. */
  ghost predicate HasRoom(env: Catalogue, s: Tenant, b: nat) {
    forall pool, d | pool in env ::
      Load(s.reqs, pool, Day(d), s.now, None) + LapsedLoad(s.reqs, b, pool, Day(d), s.now)
      <= Capacity(env[pool], Day(d)) + env[pool].shortage
  }

  /** So a renewal keeps every day within its units exactly when there is room left for the lapsed quantity. */
  lemma RenewalFitsIff(env: Catalogue, s: Tenant, b: nat, until: int)
    requires Attempt(env, s, Renew(b, until)).Ok?
    ensures DaysFit(env, Attempt(env, s, Renew(b, until)).value.reqs, s.now) <==> HasRoom(env, s, b)
  {
    var next := RenewRows(s.reqs, b, until);
    forall pool, d
      ensures Load(next, pool, Day(d), s.now, None)
              == Load(s.reqs, pool, Day(d), s.now, None) + LapsedLoad(s.reqs, b, pool, Day(d), s.now)
    {
      RenewalLoad(s.reqs, b, until, pool, Day(d), s.now);
    }
    assert forall pool, d :: (
      Fits(env, next, s.now, pool, d)
      <==> (pool in env ==> Load(next, pool, Day(d), s.now, None) <= Capacity(env[pool], Day(d)) + env[pool].shortage));
  }

  /** Sweeping lapsed holds changes no count: they had stopped counting when they lapsed. */
  lemma SweepKeepsLoad(s: Tenant, pool: Pool, w: Range, skip: Option<nat>)
    requires Positive(s.reqs)
    ensures Load(SweepRows(s), pool, w, s.now, skip) == Load(s.reqs, pool, w, s.now, skip)
  {
    LoadDominated(SweepRows(s), s.reqs, pool, w, w, s.now, s.now, skip);
    LoadDominated(s.reqs, SweepRows(s), pool, w, w, s.now, s.now, skip);
  }

  // ------------------------------------------------------------------ Runs

  lemma RowStepFits(env: Catalogue, s: Tenant, c: Command)
    requires OneRow(c) && c.req < |s.reqs| && s.reqs[c.req].booking < |s.bookings| && RowStep(env, s, c).Ok?
    requires Positive(s.reqs) && DaysFit(env, s.reqs, s.now)
    ensures DaysFit(env, s.reqs[c.req := RowStep(env, s, c).value], s.now)
  {
    var r, t := s.reqs[c.req], RowStep(env, s, c).value;
    if c.Substitute? {
      SubstituteRefits(env, s, c.req, c.pool, c.allowed);
      ReplacedFits(env, s.reqs, s.now, c.req, t);
    } else {
      assert NoHeavier(r, t, s.now, s.now) by { hide Check; }
      LighterFits(env, s.reqs, s.reqs[c.req := t], s.now, s.now);
    }
  }

  lemma SubstituteRefits(env: Catalogue, s: Tenant, i: nat, pool: Pool, allowed: bool)
    requires i < |s.reqs| && SubstituteRow(env, s, i, pool, allowed).Ok?
    ensures var t := SubstituteRow(env, s, i, pool, allowed).value;
            Check(env, s.reqs, t.pool, t.hold.start, t.hold.end, t.quantity, s.now, Some(i), false) == Ok(t.hold.blocked)
  {
  }

  lemma TimeFits(env: Catalogue, s: Tenant, c: Command)
    requires (c.Sweep? || c.Tick?) && Attempt(env, s, c).Ok?
    requires Positive(s.reqs) && DaysFit(env, s.reqs, s.now)
    ensures var t := Attempt(env, s, c).value; DaysFit(env, t.reqs, t.now)
  {
    hide DaysFit;
    var t := Attempt(env, s, c).value;
    LighterFits(env, s.reqs, t.reqs, s.now, t.now);
  }

  lemma EnterFits(env: Catalogue, s: Tenant, b: nat, to: BookingStatus, checks: CloseChecks)
    requires b < |s.bookings| && Enter(s, b, to, checks).Ok? && Positive(s.reqs) && DaysFit(env, s.reqs, s.now)
    ensures Enter(s, b, to, checks).value.now == s.now
    ensures DaysFit(env, Enter(s, b, to, checks).value.reqs, s.now)
  {
    var next := Enter(s, b, to, checks).value.reqs;
    forall i | 0 <= i < |s.reqs| ensures NoHeavier(s.reqs[i], next[i], s.now, s.now) {
      if s.reqs[i].booking == b { EnterPasses(s, b, to, checks, i); }
    }
    LighterFits(env, s.reqs, next, s.now, s.now);
  }

  /** Approval and rejection: an approved hold was counted already, a rejected one no longer is. */
  lemma ReviewFits(env: Catalogue, s: Tenant, c: Command)
    requires Inv(s) && (c.Approve? || c.Reject?) && Decide(s, c).Ok? && Positive(s.reqs) && DaysFit(env, s.reqs, s.now)
    ensures Decide(s, c).value.now == s.now && DaysFit(env, Decide(s, c).value.reqs, s.now)
  {
    hide Inv, DaysFit, ApprovalRefusal, Positive;
    var next := Decide(s, c).value.reqs;
    forall i | 0 <= i < |s.reqs| ensures NoHeavier(s.reqs[i], next[i], s.now, s.now) {
      if s.reqs[i].booking == c.booking && c.Approve? { ApprovalPasses(s, c.booking, c.fit, i); }
    }
    LighterFits(env, s.reqs, next, s.now, s.now);
  }

  /** A transaction keeps every day within its units; a renewal does so exactly when there is room. */
  lemma NextFits(env: Catalogue, s: Tenant, c: Command)
    requires Inv(s) && DaysFit(env, s.reqs, s.now) && Attempt(env, s, c).Ok?
    ensures var t := Attempt(env, s, c).value;
            DaysFit(env, t.reqs, t.now) <==> (c.Renew? ==> HasRoom(env, s, c.booking))
  {
    RowsHaveDates(s);
    hide Inv, DaysFit, Positive, RowStep, AdmitAll, ExtendBooking, Enter, HasRoom, SweepRows, SweepBookings;
    if OneRow(c) {
      RowStepFits(env, s, c);
    } else if c.Renew? {
      RenewalFitsIff(env, s, c.booking, c.renewed);
    } else {
      hide Decide;
      match c
      case Create(expiresAt, lines) =>
        AdmitFits(env, s.(bookings := s.bookings + [Pending]), |s.bookings|, expiresAt, lines);
        AdmitAppends(env, s.(bookings := s.bookings + [Pending]), |s.bookings|, expiresAt, lines);
      case Extend(b, end, _, _, _, _) => ExtensionFits(env, s, b, end);
      case Transition(b, to, checks) => EnterFits(env, s, b, to, checks);
      case Cancel(b, _) => EnterFits(env, s, b, Cancelled, CloseChecks(0, 0, 0, 0));
      case Sweep => TimeFits(env, s, c);
      case Tick(_) => TimeFits(env, s, c);
      case _ => ReviewFits(env, s, c);
    }
  }

  /** A renewal before any hold of the booking has lapsed always has room. */
  lemma TimelyRenewalHasRoom(env: Catalogue, s: Tenant, b: nat)
    requires DaysFit(env, s.reqs, s.now)
    requires forall i :: 0 <= i < |s.reqs| && s.reqs[i].booking == b ==> !Lapsed(s.reqs[i], s.now)
    ensures HasRoom(env, s, b)
  {
    forall pool, d | pool in env
      ensures Load(s.reqs, pool, Day(d), s.now, None) + LapsedLoad(s.reqs, b, pool, Day(d), s.now)
              <= Capacity(env[pool], Day(d)) + env[pool].shortage
    {
      assert Fits(env, s.reqs, s.now, pool, d);
      NothingLapsed(s.reqs, b, pool, Day(d), s.now);
    }
  }

  lemma {:induction false} NothingLapsed(reqs: seq<Requirement>, b: nat, pool: Pool, w: Range, now: int)
    requires forall i :: 0 <= i < |reqs| && reqs[i].booking == b ==> !Lapsed(reqs[i], now)
    ensures LapsedLoad(reqs, b, pool, w, now) == 0
  {
    if reqs != [] { NothingLapsed(reqs[..|reqs| - 1], b, pool, w, now); }
  }

  /** In every state that the run passes through, every day is within its units. */
  ghost predicate AlwaysFits(env: Catalogue, s: Tenant, commands: seq<Command>) {
    var t := Run(env, s, commands);
    DaysFit(env, t.reqs, t.now) && (commands != [] ==> AlwaysFits(env, s, commands[..|commands| - 1]))
  }

  /** Every renewal that the run carries out finds room for what it brings back. */
  ghost predicate RenewalsHaveRoom(env: Catalogue, s: Tenant, commands: seq<Command>) {
    commands != [] ==>
      var mid, c := Run(env, s, commands[..|commands| - 1]), commands[|commands| - 1];
      && RenewalsHaveRoom(env, s, commands[..|commands| - 1])
      && (c.Renew? && Attempt(env, mid, c).Ok? ==> HasRoom(env, mid, c.booking))
  }

  /**
   Over any run no day at any pool is ever sold beyond its units and shortage limit, exactly
   when each renewal in it had room; everything else is safe by itself.
   */
  lemma {:induction false} EveryDayFits(env: Catalogue, now: int, commands: seq<Command>)
    ensures AlwaysFits(env, Empty(now), commands) <==> RenewalsHaveRoom(env, Empty(now), commands)
  {
    if commands != [] {
      var before, c := commands[..|commands| - 1], commands[|commands| - 1];
      var mid := Run(env, Empty(now), before);
      EveryDayFits(env, now, before);
      RunKeeps(env, Empty(now), before);
      hide Attempt, Inv, DaysFit, HasRoom;
      if AlwaysFits(env, Empty(now), before) {
        assert DaysFit(env, mid.reqs, mid.now);
        if Attempt(env, mid, c).Ok? { NextFits(env, mid, c); }
        NextDays(env, mid, c);
      }
    }
  }

  lemma NextDays(env: Catalogue, s: Tenant, c: Command)
    requires DaysFit(env, s.reqs, s.now)
    ensures var t := Next(env, s, c);
            DaysFit(env, t.reqs, t.now)
            <==> (KnownKey(s, c) || (Attempt(env, s, c).Ok? ==> DaysFit(env, Attempt(env, s, c).value.reqs, Attempt(env, s, c).value.now)))
  {
    hide Attempt, DaysFit;
  }

  predicate KnownKey(s: Tenant, c: Command) {
    KeyOf(c).Some? && KeyOf(c).value.0 in s.keys
  }
}
