/** What each scan and each item of a count says, read off the units recorded and the identities scanned. */
module StockCountItems {
  import opened Common
  import opened StockCount

  /** A unit that is where it is recorded to be: on hand or in quarantine, neither out for a rental nor being moved. */
  predicate OnHand(u: Unit, location: nat) {
    && u.location == Some(location) && u.state != OUT_FOR_RENTAL && u.state != IN_TRANSFER
    && u.disposition != Disposition.LOST && u.disposition != RETIRED
  }

  /** The scans that name a unit. */
  ghost function ScansNaming(obs: seq<Observation>, id: nat): set<nat> {
    set k: nat | k < |obs| && obs[k].unit == Some(id)
  }

  lemma {:induction false} ScansAreCounted(obs: seq<Observation>, id: nat)
    ensures ScansOf(obs, id) == |ScansNaming(obs, id)|
  {
    if obs != [] {
      var n := |obs| - 1;
      ScansAreCounted(obs[..n], id);
      assert ScansNaming(obs, id) == ScansNaming(obs[..n], id) + if obs[n].unit == Some(id) then {n} else {};
      assert n !in ScansNaming(obs[..n], id);
    }
  }

  /** What an item says of its unit. */
  ghost predicate Tells(i: Item, location: nat, obs: seq<Observation>) {
    var u, scans := i.unit, ScansNaming(obs, i.unit.id);
    && (i.expected <==> OnHand(u, location)) && (i.observed <==> scans != {}) && i.scanCount == |scans|
    && (i.missing <==> OnHand(u, location) && scans == {}) && (i.unexpected <==> !OnHand(u, location) && scans != {})
    && (i.wrongLocation <==> scans != {} && u.location != Some(location))
    && (i.review <==> scans != {} && (u.disposition == Disposition.LOST || u.disposition == RETIRED
                                      || u.state == OUT_FOR_RENTAL || u.state == IN_TRANSFER))
  }

  /** Every item of a count says how its unit's record and the scans agree; every unit on hand, and every unit scanned, has one. */
  lemma ItemsTell(units: seq<Unit>, location: nat, w: Walk, items: seq<Item>)
    requires DistinctIds(units) && ItemsCover(items, units, location, w) && CountsOk(w)
    ensures forall i | i in items :: i.unit in units && Tells(i, location, w.observations)
    ensures forall u | u in units && OnHand(u, location) :: exists i | i in items :: i.unit == u
    ensures forall k | 0 <= k < |w.observations| && w.observations[k].unit.Some? :: exists i | i in items :: Some(i.unit.id) == w.observations[k].unit
  {
    forall i | i in items ensures Tells(i, location, w.observations) {
      ScansAreCounted(w.observations, i.unit.id);
      ExpectedIff(units, location, i.unit);
      hide ScansNaming;
      assert ScansOf(w.observations, i.unit.id) == if i.unit.id in w.scanCounts then w.scanCounts[i.unit.id] else 0;
    }
    forall u | u in units && OnHand(u, location) ensures exists i | i in items :: i.unit == u {
      ExpectedIff(units, location, u);
      assert u.id in Chosen(items, (i: Item) => i.expected);
      var i :| i in items && i.unit.id == u.id;
      assert i.unit in units;
    }
    forall k | 0 <= k < |w.observations| && w.observations[k].unit.Some?
      ensures exists i | i in items :: Some(i.unit.id) == w.observations[k].unit
    {
      var id := w.observations[k].unit.value;
      ScansAreCounted(w.observations, id);
      assert k in ScansNaming(w.observations, id);
      assert id in Chosen(items, (i: Item) => i.observed);
    }
  }

  lemma ExpectedIff(units: seq<Unit>, location: nat, u: Unit)
    requires DistinctIds(units) && u in units
    ensures u.id in ExpectedIds(units, location) <==> OnHand(u, location)
  {
    if u.id in ExpectedIds(units, location) {
      var v :| v in units && ExpectedAt(v, location) && v.id == u.id;
      assert v == u;
    }
  }

  // ------------------------------------------------------------------ Scans

  ghost predicate HasCode(units: seq<Unit>, code: nat) {
    exists u | u in units :: u.code == code
  }

  ghost predicate HasBarcode(units: seq<Unit>, barcode: nat) {
    exists u | u in units :: u.barcode == Some(barcode)
  }

  lemma {:induction false} TablesHold(units: seq<Unit>)
    ensures forall c: nat :: c in ByCode(units) <==> HasCode(units, c)
    ensures forall c: nat :: c in ByBarcode(units) <==> HasBarcode(units, c)
    ensures forall c: nat | c in ByCode(units) :: ByCode(units)[c] in units && ByCode(units)[c].code == c
    ensures forall c: nat | c in ByBarcode(units) :: ByBarcode(units)[c] in units && ByBarcode(units)[c].barcode == Some(c)
  {
    if units != [] {
      var n := |units| - 1;
      TablesHold(units[..n]);
      assert units == units[..n] + [units[n]];
    }
  }

  /** Observation `k` names a recorded unit with the scanned asset code, whatever its case, else one with the scanned barcode, else none. */
  ghost predicate Names(o: Observation, identity: nat, code: nat, units: seq<Unit>) {
    && o.identity == identity
    && if HasCode(units, code) then o.kind == ASSET_CODE && exists u | u in units :: u.code == code && o.unit == Some(u.id)
       else if HasBarcode(units, identity) then o.kind == BARCODE && exists u | u in units :: u.barcode == Some(identity) && o.unit == Some(u.id)
       else o.kind == UNKNOWN && o.unit == None
  }

  /** An earlier scan named the same unit, or neither named one and the identities differ at most in case. */
  ghost predicate Repeats(obs: seq<Observation>, identities: seq<nat>, upper: nat -> nat, k: nat)
    requires k < |obs| <= |identities|
  {
    exists j :: 0 <= j < k && obs[j].unit == obs[k].unit && (obs[k].unit == None ==> upper(identities[j]) == upper(identities[k]))
  }

  lemma MatchedHold(units: seq<Unit>, identities: seq<nat>, upper: nat -> nat, k: nat)
    requires k < |identities|
    ensures var matched := MatchedUnits(units, identities, upper);
            && (HasCode(matched, upper(identities[k])) <==> HasCode(units, upper(identities[k])))
            && (HasBarcode(matched, identities[k]) <==> HasBarcode(units, identities[k]))
            && forall u | u in matched :: u in units
  {
    Filtered(units, (u: Unit) => (exists x | x in identities :: upper(x) == u.code) || (u.barcode.Some? && u.barcode.value in identities));
    assert identities[k] in identities;
  }

  /** Each scan of a count names what the recorded units say, and is a duplicate exactly when it repeats an earlier one. */
  lemma ScansTell(units: seq<Unit>, identities: seq<nat>, upper: nat -> nat, w: Walk, k: nat)
    requires |w.observations| == |identities| && k < |identities|
    requires forall j :: 0 <= j < |identities| ==> Faithful(w.observations, identities, upper, MatchedUnits(units, identities, upper), j)
    ensures Names(w.observations[k], identities[k], upper(identities[k]), units)
    ensures w.observations[k].duplicate <==> Repeats(w.observations, identities, upper, k)
  {
    var obs, matched := w.observations, MatchedUnits(units, identities, upper);
    MatchedHold(units, identities, upper, k);
    TablesHold(matched);
    assert Faithful(obs, identities, upper, matched, k);
    hide MatchedUnits, ByCode, ByBarcode;
    if obs[k].unit.Some? {
      ScansAreCounted(obs[..k], obs[k].unit.value);
      RepeatsUnit(obs, identities, upper, k);
    } else {
      forall j | 0 <= j < k ensures obs[j].kind == UNKNOWN <==> obs[j].unit == None {
        assert Faithful(obs, identities, upper, matched, j);
      }
    }
  }

  lemma RepeatsUnit(obs: seq<Observation>, identities: seq<nat>, upper: nat -> nat, k: nat)
    requires k < |obs| <= |identities| && obs[k].unit.Some?
    ensures Repeats(obs, identities, upper, k) <==> |ScansNaming(obs[..k], obs[k].unit.value)| > 0
  {
    var scans := ScansNaming(obs[..k], obs[k].unit.value);
    assert scans != {} <==> exists j :: j in scans;
    assert forall j: nat :: j in scans <==> j < k && obs[j].unit == obs[k].unit;
  }
}
