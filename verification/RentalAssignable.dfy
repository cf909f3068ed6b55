/** When a reservation can be given all of its units: at once after its admission, and at any later time. */
module RentalAssignable {
  import opened Common
  import opened RentalModel
  import opened RentalMachine
  import opened RentalSafety
  import opened RentalCapacity
  import opened RentalUnits

  /** Assigning `units` to row `i` is accepted and completes it. */
  ghost predicate Completes(env: Catalogue, s: Tenant, i: nat, units: seq<nat>)
    requires i < |s.reqs| && s.reqs[i].booking < |s.bookings| && s.reqs[i].pool in env
  {
    var outcome := RowStep(env, s, Assign(i, units, env[s.reqs[i].pool].units));
    outcome.Ok? && outcome.value.status == ReqStatus.ASSIGNED
  }

  /** The units listed as eligible for row `i`, less the ones it has already: stocked, unblocked and not in use over its range. */
  function FreeUnits(env: Catalogue, s: Tenant, i: nat): set<nat>
    requires i < |s.reqs| && s.reqs[i].pool in env
  {
    CountedUnits(env[s.reqs[i].pool], s.reqs[i].hold.blocked) - TakenUnits(s, s.reqs[i].hold.blocked)
  }

  /** Only free units can be assigned, and a row is complete once they fill it up. */
  lemma CompletedFromFree(env: Catalogue, s: Tenant, i: nat, units: seq<nat>)
    requires i < |s.reqs| && s.reqs[i].booking < |s.bookings| && s.reqs[i].pool in env
    requires Completes(env, s, i, units)
    ensures ToSet(units) <= FreeUnits(env, s, i)
    ensures |ToSet(units)| == s.reqs[i].quantity - |ActiveRows(s.reqs[i].rows)|
  {
    hide TakenUnits, UnitBlocked, ActiveRows;
    var r := s.reqs[i];
    var chosen := Distinct(units);
    DistinctSize(chosen);
    forall u | u in ToSet(units) ensures u in FreeUnits(env, s, i) {
      assert u in ToSet(chosen);
      var barred := BarredUnits(env, r.pool, units, r.hold.blocked);
      assert u !in ToSet(chosen) * (barred + TakenUnits(s, r.hold.blocked));
    }
  }

  /**
   A live reservation that is not complete yet can be completed exactly when as many units
   are free over its whole range as it still lacks. The count that admitted it does not see to that.
   */
  lemma AssignableIff(env: Catalogue, s: Tenant, i: nat)
    requires i < |s.reqs| && s.reqs[i].booking < |s.bookings| && s.reqs[i].pool in env
    requires HoldLive(s.reqs[i].hold) && s.reqs[i].prep != READY && |ActiveRows(s.reqs[i].rows)| < s.reqs[i].quantity
    ensures (exists units: seq<nat> :: Completes(env, s, i, units))
            <==> |FreeUnits(env, s, i)| >= s.reqs[i].quantity - |ActiveRows(s.reqs[i].rows)|
  {
    hide Completes, FreeUnits;
    var r := s.reqs[i];
    if units: seq<nat> :| Completes(env, s, i, units) {
      CompletedFromFree(env, s, i, units);
      SubsetSize(ToSet(units), FreeUnits(env, s, i));
    }
    if |FreeUnits(env, s, i)| >= r.quantity - |ActiveRows(r.rows)| {
      var units := Pick(FreeUnits(env, s, i), r.quantity - |ActiveRows(r.rows)|);
      FillsUp(env, s, i, units);
    }
  }

  lemma FillsUp(env: Catalogue, s: Tenant, i: nat, units: seq<nat>)
    requires i < |s.reqs| && s.reqs[i].booking < |s.bookings| && s.reqs[i].pool in env
    requires HoldLive(s.reqs[i].hold) && s.reqs[i].prep != READY
    requires units != [] && |ActiveRows(s.reqs[i].rows)| + |units| == s.reqs[i].quantity
    requires (forall a, b :: 0 <= a < b < |units| ==> units[a] != units[b]) && ToSet(units) <= FreeUnits(env, s, i)
    ensures Completes(env, s, i, units)
  {
    FreeUnitsAssign(env, s, i, units, env[s.reqs[i].pool].units);
    hide RowStep;
  }

  lemma NewRowTakesNothing(s: Tenant, r: Requirement, w: Range)
    requires r.rows == []
    ensures TakenUnits(s.(reqs := s.reqs + [r]), w) == TakenUnits(s, w)
  {
    var t := s.(reqs := s.reqs + [r]);
    TakenIsHeld(s, w);
    TakenIsHeld(t, w);
    assert t.reqs[..|s.reqs|] == s.reqs;
    assert RowUnits(r, w) == {};
  }

  /** Whatever the check admits can be assigned at once, all of it. */
  lemma AdmittedCanBeAssigned(env: Catalogue, s: Tenant, b: nat, expiresAt: Option<int>, line: Line, eligible: set<nat>) returns (units: seq<nat>)
    requires Reachable(env, s) && OneHome(env) && b < |s.bookings| && line.pool in env
    requires env[line.pool].shortage == 0 && env[line.pool].units <= eligible
    requires StrayUnits(env, s, line.pool, BlockedRange(env[line.pool], line.start, line.end)) == {}
    requires Check(env, s.reqs, line.pool, line.start, line.end, line.quantity, s.now, None, true).Ok?
    ensures var w := Check(env, s.reqs, line.pool, line.start, line.end, line.quantity, s.now, None, true).value;
            var t := s.(reqs := s.reqs + [NewRow(b, expiresAt, line, w)]);
            && |units| == line.quantity
            && RowStep(env, t, Assign(|s.reqs|, units, eligible)).Ok?
            && RowStep(env, t, Assign(|s.reqs|, units, eligible)).value.status == ReqStatus.ASSIGNED
  {
    CheckedUnitsAreFree(env, s, line.pool, line.start, line.end, line.quantity, true);
    CheckedCount(env, s.reqs, line.pool, line.start, line.end, line.quantity, s.now, None, true);
    var w := BlockedRange(env[line.pool], line.start, line.end);
    units := Pick(CountedUnits(env[line.pool], w) - TakenUnits(s, w), line.quantity);
    hide Check, Reachable, RowStep, StrayUnits;
    var r := NewRow(b, expiresAt, line, w);
    var t := s.(reqs := s.reqs + [r]);
    assert t.reqs[|s.reqs|] == r;
    NewRowTakesNothing(s, r, w);
    assert ActiveRows(r.rows) == {};
    FreeUnitsAssign(env, t, |s.reqs|, units, eligible);
  }
}
