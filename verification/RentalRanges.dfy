/**
 The dates that rows store. A reservation blocks the range that the policy gives for its
 rental dates; an assignment copies that range when it is made. An extension rewrites the
 reservation only, but it lengthens it, so assignments stay inside their reservations.
 */
module RentalRanges {
  import opened Common
  import opened RentalModel
  import opened RentalMachine
  import opened RentalSafety
  import opened RentalTheorems
  import opened RentalCapacity

  /** The blocked range is the one the policy gives for the rental dates. */
  predicate Dated(env: Catalogue, r: Requirement) {
    r.pool in env && r.hold.blocked == BlockedRange(env[r.pool], r.hold.start, r.hold.end)
  }

  // ------------------------------------------------------------------ Every row is dated

  lemma {:induction false} AdmitDated(env: Catalogue, s: Tenant, b: nat, expiresAt: Option<int>, lines: seq<Line>)
    requires AdmitAll(env, s, b, expiresAt, lines).Ok? && forall r | r in s.reqs :: Dated(env, r)
    ensures forall r | r in AdmitAll(env, s, b, expiresAt, lines).value.reqs :: Dated(env, r)
    decreases lines
  {
    if lines != [] {
      var line := lines[0];
      var w := Check(env, s.reqs, line.pool, line.start, line.end, line.quantity, s.now, None, true).value;
      CheckedCount(env, s.reqs, line.pool, line.start, line.end, line.quantity, s.now, None, true);
      hide Check;
      AdmitDated(env, s.(reqs := s.reqs + [NewRow(b, expiresAt, line, w)]), b, expiresAt, lines[1..]);
    }
  }

  predicate SameDates(r: Requirement, t: Requirement) {
    t.pool == r.pool && t.hold == r.hold.(status := t.hold.status, expiresAt := t.hold.expiresAt)
  }

  lemma RowStepDated(env: Catalogue, s: Tenant, c: Command)
    requires OneRow(c) && c.req < |s.reqs| && s.reqs[c.req].booking < |s.bookings| && RowStep(env, s, c).Ok?
    requires Dated(env, s.reqs[c.req])
    ensures Dated(env, RowStep(env, s, c).value)
  {
    if c.Substitute? {
      var r := s.reqs[c.req];
      SubstituteRefits(env, s, c.req, c.pool, c.allowed);
      CheckedCount(env, s.reqs, c.pool, r.hold.start, r.hold.end, r.quantity, s.now, Some(c.req), false);
    } else {
      hide Check;
      assert SameDates(s.reqs[c.req], RowStep(env, s, c).value);
    }
  }

  ghost predicate AllDated(env: Catalogue, reqs: seq<Requirement>) {
    forall i :: 0 <= i < |reqs| ==> Dated(env, reqs[i])
  }

  lemma SameDatesKeep(env: Catalogue, a: seq<Requirement>, b: seq<Requirement>)
    requires AllDated(env, a) && |a| == |b| && forall i :: 0 <= i < |a| ==> SameDates(a[i], b[i])
    ensures AllDated(env, b)
  {
  }

  lemma WideDated(env: Catalogue, s: Tenant, c: Command)
    requires !OneRow(c) && !c.Create? && !c.Extend? && Attempt(env, s, c).Ok? && AllDated(env, s.reqs)
    ensures AllDated(env, Attempt(env, s, c).value.reqs)
  {
    hide TransitionRefusal, HoldRefusal, ApprovalRefusal, Dated, AllDated;
    SameDatesKeep(env, s.reqs, Attempt(env, s, c).value.reqs);
  }

  lemma NextDated(env: Catalogue, s: Tenant, c: Command)
    requires Attempt(env, s, c).Ok? && AllDated(env, s.reqs)
    ensures AllDated(env, Attempt(env, s, c).value.reqs)
  {
    hide Dated, RowStep, ExtensionCheck, Check;
    if OneRow(c) {
      RowStepDated(env, s, c);
    } else if c.Create? {
      AdmitDated(env, s.(bookings := s.bookings + [Pending]), |s.bookings|, c.expiresAt, c.lines);
    } else if c.Extend? {
      var next := ExtendBooking(env, s, c.booking, c.end).value.reqs;
      forall i | 0 <= i < |s.reqs| ensures |next| == |s.reqs| && Dated(env, next[i]) {
        assert Dated(env, s.reqs[i]);
        StretchedDated(env, s, c.booking, c.end, i);
      }
    } else {
      WideDated(env, s, c);
    }
  }

  lemma StretchedDated(env: Catalogue, s: Tenant, b: nat, end: int, i: nat)
    requires ExtendBooking(env, s, b, end).Ok? && i < |s.reqs| && Dated(env, s.reqs[i])
    ensures |ExtendBooking(env, s, b, end).value.reqs| == |s.reqs|
    ensures Dated(env, ExtendBooking(env, s, b, end).value.reqs[i])
  {
    ExtensionRow(env, s, b, end, i);
    hide ExtendBooking;
  }

  lemma {:induction false} RunDated(env: Catalogue, now: int, commands: seq<Command>)
    ensures AllDated(env, Run(env, Empty(now), commands).reqs)
  {
    hide Attempt, Dated;
    if commands != [] {
      RunDated(env, now, commands[..|commands| - 1]);
      var mid := Run(env, Empty(now), commands[..|commands| - 1]);
      if Attempt(env, mid, commands[|commands| - 1]).Ok? {
        NextDated(env, mid, commands[|commands| - 1]);
      }
    }
  }

  /** In every reachable state each row blocks the range its policy gives for its rental dates. */
  lemma ReachableDated(env: Catalogue, s: Tenant, i: nat)
    requires Reachable(env, s) && i < |s.reqs|
    ensures Dated(env, s.reqs[i])
  {
    hide Run;
    var now: int, commands: seq<Command> :| s == Run(env, Empty(now), commands);
    RunDated(env, now, commands);
  }

  // ------------------------------------------------------------------ Ranges of assignments

  /** Every active assignment of `t` was one of `r`, under the same blocked range, or copies the range of `t`. */
  ghost predicate Carries(r: Requirement, t: Requirement) {
    forall a | a in ActiveRows(t.rows) ::
      || t.rows[a].range == t.hold.blocked
      || (a in ActiveRows(r.rows) && t.rows[a] == r.rows[a] && t.hold.blocked == r.hold.blocked)
  }

  lemma RowStepCarries(env: Catalogue, s: Tenant, c: Command)
    requires OneRow(c) && c.req < |s.reqs| && s.reqs[c.req].booking < |s.bookings| && RowStep(env, s, c).Ok?
    ensures Carries(s.reqs[c.req], RowStep(env, s, c).value)
  {
    hide Check, ResolveAssignments, NextCounters, Distinct;
    var r, t := s.reqs[c.req], RowStep(env, s, c).value;
    if c.Record? || c.Prepare? || c.Release? { RecordHold(s, c, t, env); }
  }

  lemma RecordHold(s: Tenant, c: Command, t: Requirement, env: Catalogue)
    requires (c.Record? || c.Prepare? || c.Release?) && c.req < |s.reqs| && s.reqs[c.req].booking < |s.bookings|
    requires RowStep(env, s, c) == Ok(t)
    ensures t.hold == s.reqs[c.req].hold && t.pool == s.reqs[c.req].pool && Shrinks(s.reqs[c.req], t)
  {
  }

  lemma WideCarries(env: Catalogue, s: Tenant, c: Command)
    requires !OneRow(c) && !c.Create? && !c.Extend? && Attempt(env, s, c).Ok?
    ensures var t := Attempt(env, s, c).value;
            |t.reqs| == |s.reqs| && forall i :: 0 <= i < |s.reqs| ==> Carries(s.reqs[i], t.reqs[i])
  {
    hide TransitionRefusal, HoldRefusal, ApprovalRefusal;
  }

  /** What a transaction other than an extension does to the ranges of assignments. */
  lemma AttemptCarries(env: Catalogue, s: Tenant, c: Command)
    requires !c.Extend? && Attempt(env, s, c).Ok?
    ensures var t := Attempt(env, s, c).value;
            && |s.reqs| <= |t.reqs| && (forall i :: 0 <= i < |s.reqs| ==> Carries(s.reqs[i], t.reqs[i]))
            && (forall i :: |s.reqs| <= i < |t.reqs| ==> t.reqs[i].rows == [])
  {
    hide RowStep, AdmitAll, Carries;
    assert forall r: Requirement :: Carries(r, r) by { CarriesItself(); }
    if OneRow(c) {
      RowStepCarries(env, s, c);
    } else if c.Create? {
      AdmitAppends(env, s.(bookings := s.bookings + [Pending]), |s.bookings|, c.expiresAt, c.lines);
    } else {
      WideCarries(env, s, c);
    }
  }

  lemma CarriesItself()
    ensures forall r: Requirement :: Carries(r, r)
  {
  }

  /** The active assignments of a row carry its reservation's range. */
  ghost predicate RangesTrack(r: Requirement) {
    forall a | a in ActiveRows(r.rows) :: r.rows[a].range == r.hold.blocked
  }

  /** The active assignments of a row lie inside its reservation's range. */
  ghost predicate RangesWithin(r: Requirement) {
    forall a | a in ActiveRows(r.rows) :: Within(r.rows[a].range, r.hold.blocked)
  }

  lemma CarriedOn(r: Requirement, t: Requirement)
    requires Carries(r, t)
    ensures RangesTrack(r) ==> RangesTrack(t)
    ensures RangesWithin(r) ==> RangesWithin(t)
  {
  }

  ghost predicate AllTrack(reqs: seq<Requirement>) {
    forall i :: 0 <= i < |reqs| ==> RangesTrack(reqs[i])
  }

  ghost predicate AllWithin(reqs: seq<Requirement>) {
    forall i :: 0 <= i < |reqs| ==> RangesWithin(reqs[i])
  }

  lemma AttemptCarriesOn(env: Catalogue, s: Tenant, c: Command)
    requires !c.Extend? && Attempt(env, s, c).Ok?
    ensures AllTrack(s.reqs) ==> AllTrack(Attempt(env, s, c).value.reqs)
    ensures AllWithin(s.reqs) ==> AllWithin(Attempt(env, s, c).value.reqs)
  {
    AttemptCarries(env, s, c);
    hide Attempt, Carries, RangesTrack, RangesWithin;
    var t := Attempt(env, s, c).value;
    forall i | 0 <= i < |t.reqs|
      ensures AllTrack(s.reqs) ==> RangesTrack(t.reqs[i])
      ensures AllWithin(s.reqs) ==> RangesWithin(t.reqs[i])
    {
      if i < |s.reqs| { CarriedOn(s.reqs[i], t.reqs[i]); } else { NoRanges(t.reqs[i]); }
    }
  }

  lemma NoRanges(r: Requirement)
    requires r.rows == []
    ensures RangesTrack(r) && RangesWithin(r)
  {
  }

  /** Without extensions every active assignment carries the range of its reservation. */
  lemma {:induction false} RangesTrackWithoutExtensions(env: Catalogue, now: int, commands: seq<Command>)
    requires forall c | c in commands :: !c.Extend?
    ensures AllTrack(Run(env, Empty(now), commands).reqs)
  {
    hide Attempt, RangesTrack;
    if commands != [] {
      RangesTrackWithoutExtensions(env, now, commands[..|commands| - 1]);
      var mid := Run(env, Empty(now), commands[..|commands| - 1]);
      if Attempt(env, mid, commands[|commands| - 1]).Ok? {
        AttemptCarriesOn(env, mid, commands[|commands| - 1]);
      }
    }
  }

  // ------------------------------------------------------------------ Extensions

  lemma ExtensionKeepsRows(env: Catalogue, s: Tenant, b: nat, end: int, i: nat)
    requires ExtendBooking(env, s, b, end).Ok? && i < |s.reqs|
    ensures |ExtendBooking(env, s, b, end).value.reqs| == |s.reqs|
    ensures ExtendBooking(env, s, b, end).value.reqs[i].rows == s.reqs[i].rows
  {
    hide ExtensionCheck;
  }

  /** An extension leaves the first blocked day and moves the last one out. */
  lemma ExtensionStretches(env: Catalogue, s: Tenant, b: nat, end: int, i: nat)
    requires ExtendBooking(env, s, b, end).Ok? && i in Targets(s, b) && Dated(env, s.reqs[i])
    ensures var t := ExtendBooking(env, s, b, end).value.reqs[i];
            t.hold.blocked.first == s.reqs[i].hold.blocked.first && t.hold.blocked.last > s.reqs[i].hold.blocked.last
  {
    ExtensionRow(env, s, b, end, i);
    hide ExtendBooking;
  }

  /** The ranges survive an extension exactly on the rows with nothing assigned yet. */
  lemma ExtensionTracksIff(env: Catalogue, s: Tenant, b: nat, end: int, i: nat)
    requires ExtendBooking(env, s, b, end).Ok? && i in Targets(s, b)
    requires Reachable(env, s) && RangesTrack(s.reqs[i])
    ensures RangesTrack(ExtendBooking(env, s, b, end).value.reqs[i]) <==> ActiveRows(s.reqs[i].rows) == {}
  {
    ReachableDated(env, s, i);
    ExtensionStretches(env, s, b, end, i);
    ExtensionKeepsRows(env, s, b, end, i);
    hide ExtendBooking, Reachable;
    var t := ExtendBooking(env, s, b, end).value.reqs[i];
    if a :| a in ActiveRows(s.reqs[i].rows) {
      assert a in ActiveRows(t.rows) && t.rows[a].range.last < t.hold.blocked.last;
    }
  }

  lemma ExtensionWithin(env: Catalogue, s: Tenant, b: nat, end: int)
    requires ExtendBooking(env, s, b, end).Ok? && AllDated(env, s.reqs) && AllWithin(s.reqs)
    ensures AllWithin(ExtendBooking(env, s, b, end).value.reqs)
  {
    hide Dated, RangesWithin;
    var next := ExtendBooking(env, s, b, end).value.reqs;
    forall i: nat | i < |s.reqs| ensures |next| == |s.reqs| && RangesWithin(next[i]) {
      ExtensionRow(env, s, b, end, i);
      if i in Targets(s, b) {
        ExtensionStretches(env, s, b, end, i);
        ExtensionKeepsRows(env, s, b, end, i);
        WiderStillWithin(s.reqs[i], next[i]);
      }
    }
  }

  lemma WiderStillWithin(r: Requirement, t: Requirement)
    requires RangesWithin(r) && t.rows == r.rows && Within(r.hold.blocked, t.hold.blocked)
    ensures RangesWithin(t)
  {
  }

  lemma {:induction false} RunWithin(env: Catalogue, now: int, commands: seq<Command>)
    ensures AllWithin(Run(env, Empty(now), commands).reqs)
  {
    hide Attempt, AllWithin;
    if commands != [] {
      var before, c := commands[..|commands| - 1], commands[|commands| - 1];
      RunWithin(env, now, before);
      RunDated(env, now, before);
      var mid := Run(env, Empty(now), before);
      if Attempt(env, mid, c).Ok? { AttemptWithin(env, mid, c); }
    } else {
      assert AllWithin([]) by { NoRows(); }
    }
  }

  lemma NoRows()
    ensures AllWithin([])
  {
  }

  lemma AttemptWithin(env: Catalogue, s: Tenant, c: Command)
    requires AllDated(env, s.reqs) && AllWithin(s.reqs) && Attempt(env, s, c).Ok?
    ensures AllWithin(Attempt(env, s, c).value.reqs)
  {
    hide AllDated, AllWithin, ExtendBooking, RowStep;
    if c.Extend? {
      ExtensionWithin(env, s, c.booking, c.end);
    } else {
      AttemptCarriesOn(env, s, c);
    }
  }

  /** In every reachable state each active assignment lies inside the range of its reservation, extended or not. */
  lemma ReachableWithin(env: Catalogue, s: Tenant, i: nat, a: nat)
    requires Reachable(env, s) && Active(s.reqs, i, a)
    ensures Within(s.reqs[i].rows[a].range, s.reqs[i].hold.blocked)
  {
    hide Run;
    var now: int, commands: seq<Command> :| s == Run(env, Empty(now), commands);
    RunWithin(env, now, commands);
    assert RangesWithin(s.reqs[i]);
  }

  // ------------------------------------------------------------------ Units stay in their pool

  /** Every active assignment of the row holds a unit stocked in its pool. */
  ghost predicate Stocked(env: Catalogue, r: Requirement) {
    forall a | a in ActiveRows(r.rows) :: r.rows[a].unit in Stock(env, r.pool)
  }

  /** No new unit, and no new pool as long as a unit is held. */
  ghost predicate KeepsUnits(r: Requirement, t: Requirement) {
    Shrinks(r, t) && (ActiveRows(t.rows) != {} ==> t.pool == r.pool)
  }

  lemma UnitsKept(env: Catalogue, r: Requirement, t: Requirement)
    requires Stocked(env, r) && KeepsUnits(r, t)
    ensures Stocked(env, t)
  {
  }

  lemma RowStepStocked(env: Catalogue, s: Tenant, c: Command)
    requires OneRow(c) && c.req < |s.reqs| && s.reqs[c.req].booking < |s.bookings| && RowStep(env, s, c).Ok?
    requires Stocked(env, s.reqs[c.req])
    ensures Stocked(env, RowStep(env, s, c).value)
  {
    hide Check, ResolveAssignments, NextCounters, Stock;
    var r, t := s.reqs[c.req], RowStep(env, s, c).value;
    if c.Assign? {
      var barred, taken := BarredUnits(env, r.pool, c.units, r.hold.blocked), TakenUnits(s, r.hold.blocked);
      AssignStocked(r, c.units, c.eligible * Stock(env, r.pool), barred, taken);
      hide AssignTo, TakenUnits, BarredUnits;
    } else {
      if !c.Substitute? { RecordHold(s, c, t, env); }
      UnitsKept(env, r, t);
    }
  }

  lemma AssignStocked(r: Requirement, units: seq<nat>, eligible: set<nat>, barred: set<nat>, taken: set<nat>)
    requires AssignTo(r, units, eligible, barred, taken).Ok?
    ensures var t := AssignTo(r, units, eligible, barred, taken).value;
            t.pool == r.pool
            && forall a | a in ActiveRows(t.rows) :: t.rows[a].unit in eligible || (a in ActiveRows(r.rows) && t.rows[a] == r.rows[a])
  {
    var chosen := Distinct(units);
    assert forall k :: 0 <= k < |chosen| ==> chosen[k] in ToSet(chosen);
    hide Distinct;
  }

  ghost predicate AllStocked(env: Catalogue, reqs: seq<Requirement>) {
    forall i :: 0 <= i < |reqs| ==> Stocked(env, reqs[i])
  }

  lemma SameOrReleased(r: Requirement, t: Requirement)
    requires t.pool == r.pool && (t.rows == r.rows || t.rows == ReleaseRows(r.rows, ActiveRows(r.rows)))
    ensures KeepsUnits(r, t)
  {
  }

  lemma WideStocked(env: Catalogue, s: Tenant, c: Command)
    requires !OneRow(c) && !c.Create? && Attempt(env, s, c).Ok? && AllStocked(env, s.reqs)
    ensures AllStocked(env, Attempt(env, s, c).value.reqs)
  {
    hide TransitionRefusal, HoldRefusal, ApprovalRefusal, ExtensionCheck, Stocked, Stock, ActiveRows, Lapsed, InPlay, Unresolved;
    var t := Attempt(env, s, c).value;
    forall i | 0 <= i < |s.reqs| ensures |t.reqs| == |s.reqs| && Stocked(env, t.reqs[i]) {
      assert t.reqs[i].rows == s.reqs[i].rows || t.reqs[i].rows == ReleaseRows(s.reqs[i].rows, ActiveRows(s.reqs[i].rows));
      SameOrReleased(s.reqs[i], t.reqs[i]);
      UnitsKept(env, s.reqs[i], t.reqs[i]);
    }
  }

  lemma AttemptStocked(env: Catalogue, s: Tenant, c: Command)
    requires Attempt(env, s, c).Ok? && AllStocked(env, s.reqs)
    ensures AllStocked(env, Attempt(env, s, c).value.reqs)
  {
    hide RowStep, AdmitAll, Stock;
    if OneRow(c) {
      RowStepStocked(env, s, c);
    } else if c.Create? {
      AdmitAppends(env, s.(bookings := s.bookings + [Pending]), |s.bookings|, c.expiresAt, c.lines);
    } else {
      WideStocked(env, s, c);
    }
  }

  lemma {:induction false} RunStocked(env: Catalogue, now: int, commands: seq<Command>)
    ensures AllStocked(env, Run(env, Empty(now), commands).reqs)
  {
    hide Attempt, Stocked;
    if commands != [] {
      RunStocked(env, now, commands[..|commands| - 1]);
      var mid := Run(env, Empty(now), commands[..|commands| - 1]);
      if Attempt(env, mid, commands[|commands| - 1]).Ok? {
        AttemptStocked(env, mid, commands[|commands| - 1]);
      }
    }
  }

  /** In every reachable state a requirement holds only units of its own pool, substitutions included. */
  lemma ReachableStocked(env: Catalogue, s: Tenant, i: nat, a: nat)
    requires Reachable(env, s) && Active(s.reqs, i, a)
    ensures s.reqs[i].rows[a].unit in Stock(env, s.reqs[i].pool)
  {
    hide Run, Stock;
    var now: int, commands: seq<Command> :| s == Run(env, Empty(now), commands);
    RunStocked(env, now, commands);
    assert Stocked(env, s.reqs[i]);
  }
}
