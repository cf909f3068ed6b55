/**
 From counts to physical units. A count that says "available" leaves that many units free
 to assign, extended rentals included, less the units that lapsed holds still have: these
 are in use but not counted.
 */
module RentalUnits {
  import opened Common
  import opened RentalModel
  import opened RentalMachine
  import opened RentalSafety
  import opened RentalTheorems
  import opened RentalCapacity
  import opened RentalRanges

  /** The units that the active rows of one requirement hold during `w`. */
  function RowUnits(r: Requirement, w: Range): set<nat> {
    set a | a in ActiveRows(r.rows) && Overlaps(r.rows[a].range, w) :: r.rows[a].unit
  }

  function UnitsHeld(reqs: seq<Requirement>, w: Range): set<nat> {
    if reqs == [] then {} else UnitsHeld(reqs[..|reqs| - 1], w) + RowUnits(reqs[|reqs| - 1], w)
  }

  lemma {:induction false} HeldIsTaken(reqs: seq<Requirement>, w: Range, u: nat)
    ensures u in UnitsHeld(reqs, w) <==> exists i: nat :: i < |reqs| && u in RowUnits(reqs[i], w)
  {
    if reqs != [] {
      HeldIsTaken(reqs[..|reqs| - 1], w, u);
      if u in RowUnits(reqs[|reqs| - 1], w) {
        assert u in RowUnits(reqs[|reqs| - 1], w);
      }
      if i: nat :| i < |reqs| && u in RowUnits(reqs[i], w) {
        assert i < |reqs| - 1 ==> reqs[..|reqs| - 1][i] == reqs[i];
      }
    }
  }

  lemma TakenIsHeld(s: Tenant, w: Range)
    ensures TakenUnits(s, w) == UnitsHeld(s.reqs, w)
  {
    forall u: nat ensures u in TakenUnits(s, w) <==> u in UnitsHeld(s.reqs, w) {
      HeldIsTaken(s.reqs, w, u);
      if u in TakenUnits(s, w) {
        var i: nat, a: nat :| i < |s.reqs| && a < |s.reqs[i].rows| && !s.reqs[i].rows[a].released
                              && Overlaps(s.reqs[i].rows[a].range, w) && s.reqs[i].rows[a].unit == u;
        assert u in RowUnits(s.reqs[i], w);
      }
    }
  }

  lemma {:induction false} ImageSize(ids: set<nat>, rows: seq<Assignment>)
    requires forall a | a in ids :: a < |rows|
    ensures |set a | a in ids :: rows[a].unit| <= |ids|
    decreases |ids|
  {
    if ids != {} {
      var x :| x in ids;
      ImageSize(ids - {x}, rows);
      assert (set a | a in ids :: rows[a].unit) == (set a | a in ids - {x} :: rows[a].unit) + {rows[x].unit};
    }
  }

  lemma RowUnitsSize(r: Requirement, w: Range)
    ensures |RowUnits(r, w)| <= |ActiveRows(r.rows)|
  {
    var all := set a | a in ActiveRows(r.rows) :: r.rows[a].unit;
    ImageSize(ActiveRows(r.rows), r.rows);
    SubsetSize(RowUnits(r, w), all);
  }

  /** Whoever holds one of `units` during `w` is a counted reservation that reaches into `w`. */
  ghost predicate HoldersCounted(r: Requirement, pool: Pool, units: set<nat>, w: Range, now: int) {
    RowUnits(r, w) * units != {} ==> Weighs(r, pool, w, now)
  }

  /** The units held among the countable ones are no more than the quantity counted. */
  lemma {:induction false} HeldAtMostLoad(reqs: seq<Requirement>, pool: Pool, units: set<nat>, w: Range, now: int)
    requires forall i :: 0 <= i < |reqs| ==> |ActiveRows(reqs[i].rows)| <= reqs[i].quantity
    requires forall i :: 0 <= i < |reqs| ==> HoldersCounted(reqs[i], pool, units, w, now)
    ensures |UnitsHeld(reqs, w) * units| <= Load(reqs, pool, w, now, None)
  {
    if reqs != [] {
      var r := reqs[|reqs| - 1];
      HeldAtMostLoad(reqs[..|reqs| - 1], pool, units, w, now);
      var before := UnitsHeld(reqs[..|reqs| - 1], w) * units;
      var mine := RowUnits(r, w) * units;
      assert UnitsHeld(reqs, w) * units == before + mine;
      assert |before + mine| <= |before| + |mine|;
      RowUnitsSize(r, w);
      SubsetSize(mine, RowUnits(r, w));
    }
  }

  lemma {:induction false} Pick(s: set<nat>, n: nat) returns (units: seq<nat>)
    requires n <= |s|
    ensures |units| == n && ToSet(units) <= s
    ensures forall i, j :: 0 <= i < j < |units| ==> units[i] != units[j]
    decreases n
  {
    if n == 0 {
      units := [];
    } else {
      var x :| x in s;
      var rest := Pick(s - {x}, n - 1);
      units := rest + [x];
      assert forall y | y in units :: y in ToSet(rest) || y == x;
      assert forall i :: 0 <= i < |rest| ==> rest[i] in ToSet(rest);
    }
  }

  /** A unit is stocked in one pool: its row names one SKU and one location. */
  ghost predicate OneHome(env: Catalogue) {
    forall p, q | p in env && q in env && p != q :: Stock(env, p) !! Stock(env, q)
  }

  /** The units counted over `w` that are in active use during `w` for a hold that is not counted. */
  ghost function StrayUnits(env: Catalogue, s: Tenant, pool: Pool, w: Range): set<nat>
    requires pool in env
  {
    set i: nat, a: nat | i < |s.reqs| && a in ActiveRows(s.reqs[i].rows) && !Counted(s.reqs[i].hold, s.now)
                         && Overlaps(s.reqs[i].rows[a].range, w) && s.reqs[i].rows[a].unit in CountedUnits(env[pool], w)
      :: s.reqs[i].rows[a].unit
  }

  lemma RowHoldsNoMore(env: Catalogue, s: Tenant, i: nat)
    requires Reachable(env, s) && i < |s.reqs|
    ensures |ActiveRows(s.reqs[i].rows)| <= s.reqs[i].quantity
  {
    hide Reachable;
    RowOkAt(env, s, i);
  }

  lemma CountedIsStocked(env: Catalogue, pool: Pool, w: Range, u: nat)
    requires pool in env && u in CountedUnits(env[pool], w)
    ensures u in Stock(env, pool)
  {
  }

  /** Whoever uses a unit that is not a stray one holds it for a counted reservation of this pool. */
  lemma HolderIsCounted(env: Catalogue, s: Tenant, pool: Pool, w: Range, i: nat)
    requires Reachable(env, s) && OneHome(env) && pool in env && i < |s.reqs|
    ensures HoldersCounted(s.reqs[i], pool, CountedUnits(env[pool], w) - StrayUnits(env, s, pool, w), w, s.now)
  {
    hide Reachable, CountedUnits;
    var units := CountedUnits(env[pool], w) - StrayUnits(env, s, pool, w);
    if u :| u in RowUnits(s.reqs[i], w) * units {
      var a :| a in ActiveRows(s.reqs[i].rows) && Overlaps(s.reqs[i].rows[a].range, w) && s.reqs[i].rows[a].unit == u;
      assert Active(s.reqs, i, a);
      ReachableWithin(env, s, i, a);
      ReachableStocked(env, s, i, a);
      assert u in Stock(env, pool) by { CountedIsStocked(env, pool, w, u); }
    }
  }

  lemma StraysAreCountedUnits(env: Catalogue, s: Tenant, pool: Pool, w: Range)
    requires pool in env
    ensures StrayUnits(env, s, pool, w) <= CountedUnits(env[pool], w)
  {
  }

  /**
   In every reachable state a positive check leaves as many counted units free as it
   promises, less the shortage it may sell and the stray units it does not know of.
   */
  lemma CheckedUnitsAreFree(env: Catalogue, s: Tenant, pool: Pool, start: int, end: int, quantity: int, enforce: bool)
    requires Reachable(env, s) && OneHome(env) && pool in env
    requires Check(env, s.reqs, pool, start, end, quantity, s.now, None, enforce).Ok?
    ensures var w := BlockedRange(env[pool], start, end);
            |CountedUnits(env[pool], w) - TakenUnits(s, w)| >= quantity - env[pool].shortage - |StrayUnits(env, s, pool, w)|
  {
    hide Check, Reachable, OneHome, HoldersCounted, ActiveRows, CountedUnits, StrayUnits;
    CheckedCount(env, s.reqs, pool, start, end, quantity, s.now, None, enforce);
    var w := BlockedRange(env[pool], start, end);
    var counted, strays := CountedUnits(env[pool], w), StrayUnits(env, s, pool, w);
    forall i: nat | i < |s.reqs|
      ensures |ActiveRows(s.reqs[i].rows)| <= s.reqs[i].quantity && HoldersCounted(s.reqs[i], pool, counted - strays, w, s.now)
    {
      RowHoldsNoMore(env, s, i);
      HolderIsCounted(env, s, pool, w, i);
    }
    HeldAtMostLoad(s.reqs, pool, counted - strays, w, s.now);
    TakenIsHeld(s, w);
    StraysAreCountedUnits(env, s, pool, w);
    var free, held := counted - TakenUnits(s, w), UnitsHeld(s.reqs, w) * (counted - strays);
    SubsetSize(counted, free + held + strays);
    assert |free + held + strays| <= |free| + |held| + |strays|;
  }

  lemma DistinctLength(units: seq<nat>)
    requires forall i, j :: 0 <= i < j < |units| ==> units[i] != units[j]
    ensures |Distinct(units)| == |units|
  {
    DistinctSize(units);
    DistinctSize(Distinct(units));
  }

  /** A unit that is stocked, unblocked and not held passes every test of an assignment. */
  lemma FreeUnitsAssign(env: Catalogue, s: Tenant, i: nat, units: seq<nat>, eligible: set<nat>)
    requires i < |s.reqs| && HoldLive(s.reqs[i].hold) && s.reqs[i].prep != READY
    requires units != [] && |ActiveRows(s.reqs[i].rows)| + |units| == s.reqs[i].quantity
    requires forall a, b :: 0 <= a < b < |units| ==> units[a] != units[b]
    requires var w := s.reqs[i].hold.blocked;
             s.reqs[i].pool in env && env[s.reqs[i].pool].units <= eligible
             && ToSet(units) <= CountedUnits(env[s.reqs[i].pool], w) - TakenUnits(s, w)
    ensures s.reqs[i].booking < |s.bookings| ==>
              && RowStep(env, s, Assign(i, units, eligible)).Ok?
              && RowStep(env, s, Assign(i, units, eligible)).value.status == ReqStatus.ASSIGNED
  {
    DistinctLength(units);
    var w := s.reqs[i].hold.blocked;
    var barred := BarredUnits(env, s.reqs[i].pool, units, w);
    forall u | u in ToSet(units) ensures u in eligible && u !in barred && u !in TakenUnits(s, w) {
      assert u in CountedUnits(env[s.reqs[i].pool], w);
    }
    assert ToSet(Distinct(units)) * (barred + TakenUnits(s, w)) == {};
  }

  // ------------------------------------------------------------------ Extensions

  lemma SameRowsTakeTheSame(a: seq<Requirement>, b: seq<Requirement>, w: Range)
    requires |a| == |b| && forall i :: 0 <= i < |a| ==> a[i].rows == b[i].rows
    ensures UnitsHeld(a, w) == UnitsHeld(b, w)
  {
    if a != [] { SameRowsTakeTheSame(a[..|a| - 1], b[..|b| - 1], w); }
  }

  /** An extension makes no unit busy on any day: it rewrites reservations, not assignments. */
  lemma ExtensionMovesNoUnit(env: Catalogue, s: Tenant, b: nat, end: int, w: Range)
    requires ExtendBooking(env, s, b, end).Ok?
    ensures TakenUnits(ExtendBooking(env, s, b, end).value, w) == TakenUnits(s, w)
  {
    var t := ExtendBooking(env, s, b, end).value;
    hide Check;
    assert forall i :: 0 <= i < |s.reqs| ==> t.reqs[i].rows == s.reqs[i].rows;
    SameRowsTakeTheSame(s.reqs, t.reqs, w);
    TakenIsHeld(s, w);
    TakenIsHeld(t, w);
  }
}
