/**
 When one unit is promised to two rentals. Assignments look at the dates stored with other
 assignments, not at the reservations behind them, and an extension does not look at
 assignments at all; so each of the two can break the promise, and nothing else can.
 */
module RentalPromises {
  import opened Common
  import opened RentalModel
  import opened RentalMachine
  import opened RentalInvariant
  import opened RentalSafety
  import opened RentalTheorems
  import opened RentalCapacity
  import opened RentalRanges

  /** Both rows are live, and both hold one of the same units. */
  predicate Share(r: Requirement, t: Requirement) {
    HoldLive(r.hold) && HoldLive(t.hold) && UnitsIn(r.rows) * UnitsIn(t.rows) != {}
  }

  /** No unit is held for two live reservations whose blocked ranges overlap. */
  ghost predicate PromisedOnce(reqs: seq<Requirement>) {
    forall i, j :: 0 <= i < |reqs| && 0 <= j < |reqs| && i != j && Share(reqs[i], reqs[j])
                   ==> !Overlaps(reqs[i].hold.blocked, reqs[j].hold.blocked)
  }

  /** No other live row whose reservation overlaps that of row `i` holds one of `units`. */
  ghost predicate CleanAssign(reqs: seq<Requirement>, i: nat, units: seq<nat>)
    requires i < |reqs|
  {
    forall j :: 0 <= j < |reqs| && j != i && HoldLive(reqs[j].hold) && Overlaps(reqs[i].hold.blocked, reqs[j].hold.blocked)
                ==> ToSet(units) * UnitsIn(reqs[j].rows) == {}
  }

  /** The range that row `r` blocks once it is extended to `end`. */
  function NewRange(env: Catalogue, r: Requirement, end: int): Range {
    if r.pool in env then BlockedRange(env[r.pool], r.hold.start, end) else r.hold.blocked
  }

  /** No unit of a rewritten row is held for another live reservation that overlaps its new range. */
  ghost predicate CleanExtend(env: Catalogue, s: Tenant, b: nat, end: int) {
    forall i, j :: i in Targets(s, b) && 0 <= j < |s.reqs| && j != i && Share(s.reqs[i], s.reqs[j])
                   ==> !Overlaps(NewRange(env, s.reqs[i], end), s.reqs[j].hold.blocked)
  }

  /** What an assignment or extension would have to look at, before it is carried out. */
  ghost predicate Clean(env: Catalogue, s: Tenant, c: Command) {
    match c
    case Assign(i, units, _) => i < |s.reqs| ==> CleanAssign(s.reqs, i, units)
    case Extend(b, end, _, _, _, _) => CleanExtend(env, s, b, end)
    case _ => true
  }

  // ------------------------------------------------------------------ Commands that cannot break it

  /** Whatever `t` still holds, `r` held for the same dates. */
  predicate HoldsNoMore(r: Requirement, t: Requirement) {
    HoldLive(t.hold) && UnitsIn(t.rows) != {} ==>
      HoldLive(r.hold) && t.hold.blocked == r.hold.blocked && UnitsIn(t.rows) <= UnitsIn(r.rows)
  }

  lemma FewerPromises(reqs: seq<Requirement>, next: seq<Requirement>)
    requires PromisedOnce(reqs) && |reqs| <= |next|
    requires forall i :: 0 <= i < |reqs| ==> HoldsNoMore(reqs[i], next[i])
    requires forall i :: |reqs| <= i < |next| ==> next[i].rows == []
    ensures PromisedOnce(next)
  {
    hide HoldLive, Overlaps;
    forall i | |reqs| <= i < |next| ensures UnitsIn(next[i].rows) == {} {
    }
    hide UnitsIn;
    forall i, j | 0 <= i < |next| && 0 <= j < |next| && i != j && Share(next[i], next[j])
      ensures !Overlaps(next[i].hold.blocked, next[j].hold.blocked)
    {
      assert HoldsNoMore(reqs[i], next[i]) && HoldsNoMore(reqs[j], next[j]);
      assert Share(reqs[i], reqs[j]);
    }
  }

  lemma ShrunkUnits(r: Requirement, t: Requirement)
    requires Shrinks(r, t)
    ensures UnitsIn(t.rows) <= UnitsIn(r.rows)
  {
  }

  lemma RowHoldsNoMoreUnits(env: Catalogue, s: Tenant, c: Command)
    requires OneRow(c) && !c.Assign? && c.req < |s.reqs| && s.reqs[c.req].booking < |s.bookings| && RowStep(env, s, c).Ok?
    ensures HoldsNoMore(s.reqs[c.req], RowStep(env, s, c).value)
  {
    hide Check;
    var r, t := s.reqs[c.req], RowStep(env, s, c).value;
    if c.Substitute? {
      assert ActiveRows(t.rows) == {};
    } else {
      RecordHold(s, c, t, env);
      hide RowStep;
      ShrunkUnits(r, t);
    }
  }

  lemma WideHoldsNoMore(env: Catalogue, s: Tenant, c: Command)
    requires !OneRow(c) && !c.Create? && !c.Extend? && Attempt(env, s, c).Ok?
    ensures var t := Attempt(env, s, c).value;
            |t.reqs| == |s.reqs| && forall i :: 0 <= i < |s.reqs| ==> HoldsNoMore(s.reqs[i], t.reqs[i])
  {
    hide TransitionRefusal, HoldRefusal, ApprovalRefusal, UnitsIn, ActiveRows;
    var t := Attempt(env, s, c).value;
    assert |t.reqs| == |s.reqs|;
    forall i | 0 <= i < |s.reqs| ensures HoldsNoMore(s.reqs[i], t.reqs[i]) {
      assert t.reqs[i].rows == s.reqs[i].rows || t.reqs[i].rows == ReleaseRows(s.reqs[i].rows, ActiveRows(s.reqs[i].rows));
      ReleasedHoldNothing(s.reqs[i].rows);
    }
  }

  lemma ReleasedHoldNothing(rows: seq<Assignment>)
    ensures UnitsIn(ReleaseRows(rows, ActiveRows(rows))) == {}
  {
    ReleasedActive(rows, ActiveRows(rows));
  }

  lemma OthersKeepThePromise(env: Catalogue, s: Tenant, c: Command)
    requires PromisedOnce(s.reqs) && !c.Assign? && !c.Extend? && Attempt(env, s, c).Ok?
    ensures PromisedOnce(Attempt(env, s, c).value.reqs)
  {
    hide PromisedOnce, HoldsNoMore, RowStep, AdmitAll;
    forall r: Requirement ensures HoldsNoMore(r, r) { NoMoreThanItself(r); }
    if OneRow(c) {
      RowHoldsNoMoreUnits(env, s, c);
    } else if c.Create? {
      AdmitAppends(env, s.(bookings := s.bookings + [Pending]), |s.bookings|, c.expiresAt, c.lines);
    } else {
      WideHoldsNoMore(env, s, c);
    }
    FewerPromises(s.reqs, Attempt(env, s, c).value.reqs);
  }

  lemma NoMoreThanItself(r: Requirement)
    ensures HoldsNoMore(r, r)
  {
  }

  // ------------------------------------------------------------------ Assignments

  lemma AssignPromisedIff(reqs: seq<Requirement>, i: nat, units: seq<nat>, t: Requirement)
    requires PromisedOnce(reqs) && i < |reqs| && HoldLive(reqs[i].hold)
    requires t.hold == reqs[i].hold && UnitsIn(t.rows) == UnitsIn(reqs[i].rows) + ToSet(units)
    ensures PromisedOnce(reqs[i := t]) <==> CleanAssign(reqs, i, units)
  {
    hide UnitsIn, HoldLive;
    var next := reqs[i := t];
    if PromisedOnce(next) {
      forall j | 0 <= j < |reqs| && j != i && HoldLive(reqs[j].hold) && Overlaps(reqs[i].hold.blocked, reqs[j].hold.blocked)
        ensures ToSet(units) * UnitsIn(reqs[j].rows) == {}
      {
        assert !Share(next[i], next[j]);
      }
    }
    if CleanAssign(reqs, i, units) {
      forall j, k | 0 <= j < |next| && 0 <= k < |next| && j != k && Share(next[j], next[k])
        ensures !Overlaps(next[j].hold.blocked, next[k].hold.blocked)
      {
        assert j != i && k != i ==> Share(reqs[j], reqs[k]);
        assert j == i ==> Share(reqs[i], reqs[k]) || ToSet(units) * UnitsIn(reqs[k].rows) != {};
        assert k == i ==> Share(reqs[j], reqs[i]) || ToSet(units) * UnitsIn(reqs[j].rows) != {};
      }
    }
  }

  lemma AssignStepPromisedIff(env: Catalogue, s: Tenant, i: nat, units: seq<nat>, eligible: set<nat>)
    requires PromisedOnce(s.reqs) && Attempt(env, s, Assign(i, units, eligible)).Ok?
    ensures PromisedOnce(Attempt(env, s, Assign(i, units, eligible)).value.reqs) <==> Clean(env, s, Assign(i, units, eligible))
  {
    var r := s.reqs[i];
    var stocked, barred, taken := eligible * Stock(env, r.pool), BarredUnits(env, r.pool, units, r.hold.blocked), TakenUnits(s, r.hold.blocked);
    var t := AssignTo(r, units, stocked, barred, taken).value;
    assert HoldLive(r.hold) && t.hold == r.hold by { hide UnitsIn; }
    AssignmentAddsUnits(r, units, stocked, barred, taken);
    hide PromisedOnce, AssignTo, UnitsIn, TakenUnits, BarredUnits, CleanAssign;
    AssignPromisedIff(s.reqs, i, units, t);
  }

  // ------------------------------------------------------------------ Extensions

  /** The table after an extension, as far as promises go. */
  ghost predicate Rewritten(env: Catalogue, s: Tenant, b: nat, end: int, next: seq<Requirement>) {
    && |next| == |s.reqs|
    && forall i: nat :: i < |s.reqs| ==> RewrittenRow(env, s, b, end, i, next[i])
  }

  ghost predicate RewrittenRow(env: Catalogue, s: Tenant, b: nat, end: int, i: nat, t: Requirement)
    requires i < |s.reqs|
  {
    var r := s.reqs[i];
    && t.rows == r.rows && HoldLive(t.hold) == HoldLive(r.hold)
    && if i in Targets(s, b)
       then && t.hold.blocked == NewRange(env, r, end) && t.hold.blocked.first == r.hold.blocked.first
            && r.hold.blocked.first <= r.hold.blocked.last < t.hold.blocked.last && r.hold.blocked.first <= end <= t.hold.blocked.last
       else t.hold.blocked == r.hold.blocked
  }

  lemma ExtensionRewrites(env: Catalogue, s: Tenant, b: nat, end: int)
    requires Reachable(env, s) && ExtendBooking(env, s, b, end).Ok?
    ensures Rewritten(env, s, b, end, ExtendBooking(env, s, b, end).value.reqs)
  {
    hide Reachable, RewrittenRow;
    var next := ExtendBooking(env, s, b, end).value.reqs;
    forall i: nat | i < |s.reqs| ensures |next| == |s.reqs| && RewrittenRow(env, s, b, end, i, next[i]) {
      ExtensionRewritesRow(env, s, b, end, i);
    }
  }

  lemma ExtensionRewritesRow(env: Catalogue, s: Tenant, b: nat, end: int, i: nat)
    requires Reachable(env, s) && ExtendBooking(env, s, b, end).Ok? && i < |s.reqs|
    ensures |ExtendBooking(env, s, b, end).value.reqs| == |s.reqs|
    ensures RewrittenRow(env, s, b, end, i, ExtendBooking(env, s, b, end).value.reqs[i])
  {
    ReachableDated(env, s, i);
    ReachableInv(env, s);
    hide Reachable, Inv;
    RowsHaveDates(s);
    assert DatesOk(s.reqs[i].hold);
    ExtensionKeepsRows(env, s, b, end, i);
    ExtensionRow(env, s, b, end, i);
    if i in Targets(s, b) { ExtensionStretches(env, s, b, end, i); }
    hide ExtendBooking;
  }

  /** Two rewritten rows both block the new last day; the later one meets the earlier one's new range by itself. */
  lemma BothRewritten(env: Catalogue, s: Tenant, b: nat, end: int, next: seq<Requirement>, i: nat, j: nat)
    requires Rewritten(env, s, b, end, next) && i in Targets(s, b) && j in Targets(s, b) && i != j && Share(s.reqs[i], s.reqs[j])
    ensures Overlaps(next[i].hold.blocked, next[j].hold.blocked) && !CleanExtend(env, s, b, end)
  {
    assert i < |s.reqs| && j < |s.reqs|;
    hide Targets, UnitsIn, HoldLive, NewRange;
    assert RewrittenRow(env, s, b, end, i, next[i]) && RewrittenRow(env, s, b, end, j, next[j]);
    assert Share(s.reqs[j], s.reqs[i]);
    if s.reqs[i].hold.blocked.first <= s.reqs[j].hold.blocked.first {
      assert Overlaps(NewRange(env, s.reqs[i], end), s.reqs[j].hold.blocked);
    } else {
      assert Overlaps(NewRange(env, s.reqs[j], end), s.reqs[i].hold.blocked);
    }
  }

  lemma ExtendPromisedIff(env: Catalogue, s: Tenant, b: nat, end: int, next: seq<Requirement>)
    requires PromisedOnce(s.reqs) && Rewritten(env, s, b, end, next)
    ensures PromisedOnce(next) <==> CleanExtend(env, s, b, end)
  {
    assert |next| == |s.reqs| && forall i | i in Targets(s, b) :: i < |s.reqs|;
    hide Targets, UnitsIn, HoldLive, NewRange, Rewritten, Share;
    forall i: nat, j: nat | i < |s.reqs| && j < |s.reqs|
      ensures |next| == |s.reqs| && (Share(next[i], next[j]) <==> Share(s.reqs[i], s.reqs[j]))
    {
      SameShare(env, s, b, end, next, i, j);
    }
    if PromisedOnce(next) {
      forall i: nat, j: nat | i in Targets(s, b) && j < |s.reqs| && j != i && Share(s.reqs[i], s.reqs[j])
        ensures !Overlaps(NewRange(env, s.reqs[i], end), s.reqs[j].hold.blocked)
      {
        NewRangeOf(env, s, b, end, next, i, j);
      }
    }
    if CleanExtend(env, s, b, end) {
      forall i: nat, j: nat | i < |next| && j < |next| && i != j && Share(next[i], next[j])
        ensures !Overlaps(next[i].hold.blocked, next[j].hold.blocked)
      {
        KeptApart(env, s, b, end, next, i, j);
      }
    }
  }

  lemma SameShare(env: Catalogue, s: Tenant, b: nat, end: int, next: seq<Requirement>, i: nat, j: nat)
    requires Rewritten(env, s, b, end, next) && i < |s.reqs| && j < |s.reqs|
    ensures |next| == |s.reqs| && (Share(next[i], next[j]) <==> Share(s.reqs[i], s.reqs[j]))
  {
    hide Targets, UnitsIn, HoldLive, NewRange;
    assert RewrittenRow(env, s, b, end, i, next[i]) && RewrittenRow(env, s, b, end, j, next[j]);
  }

  lemma NewRangeOf(env: Catalogue, s: Tenant, b: nat, end: int, next: seq<Requirement>, i: nat, j: nat)
    requires Rewritten(env, s, b, end, next) && i in Targets(s, b) && j < |s.reqs| && i != j && Share(s.reqs[i], s.reqs[j])
    requires PromisedOnce(next) && Share(next[i], next[j])
    ensures !Overlaps(NewRange(env, s.reqs[i], end), s.reqs[j].hold.blocked)
  {
    hide Share, NewRange;
    assert RewrittenRow(env, s, b, end, i, next[i]) && RewrittenRow(env, s, b, end, j, next[j]);
    hide Targets, HoldLive;
    assert !Overlaps(next[i].hold.blocked, next[j].hold.blocked);
    if j in Targets(s, b) { BothRewritten(env, s, b, end, next, i, j); }
  }

  lemma KeptApart(env: Catalogue, s: Tenant, b: nat, end: int, next: seq<Requirement>, i: nat, j: nat)
    requires PromisedOnce(s.reqs) && Rewritten(env, s, b, end, next) && CleanExtend(env, s, b, end)
    requires i < |s.reqs| && j < |s.reqs| && i != j && Share(s.reqs[i], s.reqs[j])
    ensures !Overlaps(next[i].hold.blocked, next[j].hold.blocked)
  {
    hide Targets, UnitsIn, HoldLive, NewRange;
    assert RewrittenRow(env, s, b, end, i, next[i]) && RewrittenRow(env, s, b, end, j, next[j]);
    assert Share(s.reqs[j], s.reqs[i]);
    if i in Targets(s, b) && j in Targets(s, b) { BothRewritten(env, s, b, end, next, i, j); }
  }

  // ------------------------------------------------------------------ Steps and runs

  /**
   A transaction keeps every unit promised once, exactly when it is clean: an assignment or
   extension that looks only at what the code looks at may not be, everything else is.
   */
  lemma NextPromisedIff(env: Catalogue, s: Tenant, c: Command)
    requires Reachable(env, s) && PromisedOnce(s.reqs) && Attempt(env, s, c).Ok?
    ensures PromisedOnce(Attempt(env, s, c).value.reqs) <==> Clean(env, s, c)
  {
    hide Reachable, PromisedOnce, CleanAssign, CleanExtend, RowStep, AdmitAll, ExtendBooking, Enter, Decide, SweepRows, SweepBookings;
    if c.Assign? {
      AssignStepPromisedIff(env, s, c.req, c.units, c.eligible);
    } else if c.Extend? {
      ExtensionRewrites(env, s, c.booking, c.end);
      ExtendPromisedIff(env, s, c.booking, c.end, ExtendBooking(env, s, c.booking, c.end).value.reqs);
    } else {
      OthersKeepThePromise(env, s, c);
    }
  }

  /** In every state that the run passes through, every unit is promised once. */
  ghost predicate AlwaysPromisedOnce(env: Catalogue, s: Tenant, commands: seq<Command>) {
    PromisedOnce(Run(env, s, commands).reqs) && (commands != [] ==> AlwaysPromisedOnce(env, s, commands[..|commands| - 1]))
  }

  /** Every assignment and extension that the run carries out, replays aside, was clean. */
  ghost predicate AlwaysClean(env: Catalogue, s: Tenant, commands: seq<Command>) {
    commands != [] ==>
      var mid, c := Run(env, s, commands[..|commands| - 1]), commands[|commands| - 1];
      && AlwaysClean(env, s, commands[..|commands| - 1])
      && (!KnownKey(mid, c) && Attempt(env, mid, c).Ok? ==> Clean(env, mid, c))
  }

  lemma NextPromise(env: Catalogue, s: Tenant, c: Command)
    requires PromisedOnce(s.reqs)
    ensures PromisedOnce(Next(env, s, c).reqs)
            <==> (!KnownKey(s, c) && Attempt(env, s, c).Ok? ==> PromisedOnce(Attempt(env, s, c).value.reqs))
  {
    hide Attempt, PromisedOnce;
  }

  /** Over any run every unit is promised once in every state, exactly when each assignment and extension was clean. */
  lemma {:induction false} EveryUnitPromisedOnce(env: Catalogue, now: int, commands: seq<Command>)
    ensures AlwaysPromisedOnce(env, Empty(now), commands) <==> AlwaysClean(env, Empty(now), commands)
  {
    hide Attempt, PromisedOnce, Clean, KnownKey;
    if commands != [] {
      var before, c := commands[..|commands| - 1], commands[|commands| - 1];
      var mid := Run(env, Empty(now), before);
      EveryUnitPromisedOnce(env, now, before);
      assert Reachable(env, mid);
      if AlwaysPromisedOnce(env, Empty(now), before) {
        assert PromisedOnce(mid.reqs);
        NextPromise(env, mid, c);
        if Attempt(env, mid, c).Ok? { NextPromisedIff(env, mid, c); }
      }
    } else {
      assert PromisedOnce([]) by { NothingPromised(); }
    }
  }

  lemma NothingPromised()
    ensures PromisedOnce([])
  {
  }
}
