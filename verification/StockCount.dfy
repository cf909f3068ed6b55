/**
 Reconciling a stock count: a list of scanned identities against the units recorded at a
 location. Identities are tokens; `upper` gives the token that ignores letter case.
 */
module StockCount {
  import opened Common

  datatype Disposition = ACTIVE | QUARANTINED | LOST | RETIRED

  datatype State = OUT_FOR_RENTAL | IN_TRANSFER | ELSEWHERE

  datatype Unit = Unit(id: nat, code: nat, barcode: Option<nat>, location: Option<nat>, disposition: Disposition, state: State)

  datatype Match = ASSET_CODE | BARCODE | UNKNOWN

  datatype Observation = Observation(identity: nat, kind: Match, unit: Option<nat>, duplicate: bool)

  datatype Item = Item(unit: Unit, expected: bool, observed: bool, scanCount: nat, missing: bool, unexpected: bool,
                       wrongLocation: bool, review: bool)

  datatype Totals = Totals(expected: nat, observed: nat, missing: nat, unexpected: nat, duplicates: nat, unknown: nat,
                           wrongLocation: nat, review: nat)

  datatype Session = Session(totals: Totals, observations: seq<Observation>, items: seq<Item>, discrepancies: seq<Item>)

  datatype Reason = NothingScanned | Ambiguous

  predicate Away(u: Unit) {
    u.state == OUT_FOR_RENTAL || u.state == IN_TRANSFER
  }

  /** The units that should be found at a location. */
  predicate ExpectedAt(u: Unit, location: nat) {
    u.location == Some(location) && (u.disposition == ACTIVE || u.disposition == QUARANTINED) && !Away(u)
  }

  predicate DistinctIds(units: seq<Unit>) {
    forall i, j :: 0 <= i < j < |units| ==> units[i].id != units[j].id
  }

  /** Units by case-insensitive asset code; the last of two with one code. */
  function ByCode(units: seq<Unit>): map<nat, Unit> {
    if units == [] then map[] else ByCode(units[..|units| - 1])[units[|units| - 1].code := units[|units| - 1]]
  }

  function ByBarcode(units: seq<Unit>): map<nat, Unit> {
    if units == [] then map[]
    else
      var u := units[|units| - 1];
      var before := ByBarcode(units[..|units| - 1]);
      if u.barcode.Some? then before[u.barcode.value := u] else before
  }

  lemma {:induction false} MapsHoldUnits(units: seq<Unit>)
    ensures forall c | c in ByCode(units) :: ByCode(units)[c] in units
    ensures forall c | c in ByBarcode(units) :: ByBarcode(units)[c] in units
  {
    if units != [] {
      var n := |units| - 1;
      MapsHoldUnits(units[..n]);
      assert units == units[..n] + [units[n]];
    }
  }

  // ------------------------------------------------------------------ Counting observations

  function ScansOf(obs: seq<Observation>, id: nat): nat {
    if obs == [] then 0
    else ScansOf(obs[..|obs| - 1], id) + if obs[|obs| - 1].unit == Some(id) then 1 else 0
  }

  function Duplicates(obs: seq<Observation>): nat {
    if obs == [] then 0 else Duplicates(obs[..|obs| - 1]) + if obs[|obs| - 1].duplicate then 1 else 0
  }

  function Unknowns(obs: seq<Observation>): nat {
    if obs == [] then 0 else Unknowns(obs[..|obs| - 1]) + if obs[|obs| - 1].kind == UNKNOWN then 1 else 0
  }

  /** The scan counts of some units, added up. */
  function ScansOfAll(obs: seq<Observation>, ids: seq<nat>): nat {
    if ids == [] then 0 else ScansOfAll(obs, ids[..|ids| - 1]) + ScansOf(obs, ids[|ids| - 1])
  }

  lemma OneMore(obs: seq<Observation>, o: Observation)
    ensures Duplicates(obs + [o]) == Duplicates(obs) + if o.duplicate then 1 else 0
    ensures Unknowns(obs + [o]) == Unknowns(obs) + if o.kind == UNKNOWN then 1 else 0
    ensures forall id: nat :: ScansOf(obs + [o], id) == ScansOf(obs, id) + if o.unit == Some(id) then 1 else 0
  {
    assert (obs + [o])[..|obs|] == obs;
  }

  /** One more scan counts once, if its unit is among those added up. */
  lemma {:induction false} OneMoreForAll(obs: seq<Observation>, o: Observation, ids: seq<nat>)
    requires forall i, j :: 0 <= i < j < |ids| ==> ids[i] != ids[j]
    ensures ScansOfAll(obs + [o], ids) == ScansOfAll(obs, ids) + if o.unit.Some? && o.unit.value in ids then 1 else 0
  {
    if ids != [] {
      OneMoreForAll(obs, o, ids[..|ids| - 1]);
      OneMore(obs, o);
      assert ids == ids[..|ids| - 1] + [ids[|ids| - 1]];
    }
  }

  lemma {:induction false} NoScans(ids: seq<nat>)
    ensures ScansOfAll([], ids) == 0
  {
    if ids != [] { NoScans(ids[..|ids| - 1]); }
  }

  /** An observation names a unit exactly when its identity is known. */
  ghost predicate Proper(o: Observation) {
    o.unit == None <==> o.kind == UNKNOWN
  }

  /** Every scan of a listed unit, and every unknown scan, is counted exactly once. */
  lemma {:induction false} ScansAddUp(obs: seq<Observation>, ids: seq<nat>)
    requires forall i, j :: 0 <= i < j < |ids| ==> ids[i] != ids[j]
    requires forall k :: 0 <= k < |obs| ==> Proper(obs[k]) && (obs[k].unit.Some? ==> obs[k].unit.value in ids)
    ensures ScansOfAll(obs, ids) + Unknowns(obs) == |obs|
  {
    if obs == [] {
      NoScans(ids);
    } else {
      var n := |obs| - 1;
      ScansAddUp(obs[..n], ids);
      assert obs == obs[..n] + [obs[n]];
      OneMoreForAll(obs[..n], obs[n], ids);
      OneMore(obs[..n], obs[n]);
    }
  }

  // ------------------------------------------------------------------ Walking the scans

  /** What the walk over the scans has seen: units, unknown identities and how often each unit was scanned. */
  datatype Walk = Walk(seenUnits: set<nat>, seenUnknown: set<nat>, scanCounts: map<nat, nat>, observations: seq<Observation>)

  /** Every scan is the first of a unit, the first of an unknown identity, or a duplicate. */
  ghost predicate Tallied(w: Walk) {
    |w.observations| == |w.seenUnits| + |w.seenUnknown| + Duplicates(w.observations)
  }

  /** The scan counts are those of the observations. */
  ghost predicate CountsOk(w: Walk) {
    && w.scanCounts.Keys == w.seenUnits
    && (forall id: nat :: ScansOf(w.observations, id) == if id in w.scanCounts then w.scanCounts[id] else 0)
    && (forall id | id in w.scanCounts :: w.scanCounts[id] >= 1)
  }

  ghost predicate SeenOk(w: Walk, matched: seq<Unit>) {
    && (forall k :: 0 <= k < |w.observations| ==>
          Proper(w.observations[k]) && (w.observations[k].unit.Some? ==> w.observations[k].unit.value in w.seenUnits))
    && (forall id | id in w.seenUnits :: IsMatched(matched, id))
  }

  ghost predicate IsMatched(matched: seq<Unit>, id: nat) {
    exists u | u in matched :: u.id == id
  }

  ghost predicate WalkOk(w: Walk, matched: seq<Unit>) {
    Tallied(w) && CountsOk(w) && SeenOk(w, matched)
  }

  /** A scan of unit `id`. */
  function SeeUnit(w: Walk, identity: nat, kind: Match, id: nat): Walk {
    Walk(w.seenUnits + {id}, w.seenUnknown,
         w.scanCounts[id := (if id in w.scanCounts then w.scanCounts[id] else 0) + 1],
         w.observations + [Observation(identity, kind, Some(id), id in w.seenUnits)])
  }

  /** A scan that matches no unit. */
  function SeeUnknown(w: Walk, identity: nat, key: nat): Walk {
    Walk(w.seenUnits, w.seenUnknown + {key}, w.scanCounts,
         w.observations + [Observation(identity, UNKNOWN, None, key in w.seenUnknown)])
  }

  lemma Grown(s: set<nat>, x: nat)
    ensures |s + {x}| == |s| + if x in s then 0 else 1
  {
    if x in s { assert s + {x} == s; }
  }

  lemma SeeUnitOk(w: Walk, matched: seq<Unit>, identity: nat, kind: Match, id: nat)
    requires WalkOk(w, matched) && kind != UNKNOWN && IsMatched(matched, id)
    ensures WalkOk(SeeUnit(w, identity, kind, id), matched)
  {
    hide Tallied, CountsOk, SeenOk, IsMatched;
    var next := SeeUnit(w, identity, kind, id);
    var o := next.observations[|w.observations|];
    OneMore(w.observations, o);
    Grown(w.seenUnits, id);
    CountsKeys(w);
    SeenGrows(w, next, o, matched);
    TallyGrows(w, next, o);
    CountsGrow(w, next, id);
  }

  lemma SeeUnknownOk(w: Walk, matched: seq<Unit>, identity: nat, key: nat)
    requires WalkOk(w, matched)
    ensures WalkOk(SeeUnknown(w, identity, key), matched)
  {
    hide Tallied, CountsOk, SeenOk, IsMatched;
    var next := SeeUnknown(w, identity, key);
    var o := next.observations[|w.observations|];
    OneMore(w.observations, o);
    Grown(w.seenUnknown, key);
    SeenGrows(w, next, o, matched);
    TallyGrows(w, next, o);
    CountsStay(w, next);
  }

  lemma CountsKeys(w: Walk)
    requires CountsOk(w)
    ensures w.scanCounts.Keys == w.seenUnits
  {
  }

  lemma SeenGrows(w: Walk, next: Walk, o: Observation, matched: seq<Unit>)
    requires SeenOk(w, matched) && next.observations == w.observations + [o] && Proper(o)
    requires if o.unit.Some? then next.seenUnits == w.seenUnits + {o.unit.value} && IsMatched(matched, o.unit.value)
             else next.seenUnits == w.seenUnits
    ensures SeenOk(next, matched)
  {
    hide IsMatched;
  }

  lemma TallyGrows(w: Walk, next: Walk, o: Observation)
    requires Tallied(w) && next.observations == w.observations + [o]
    requires Duplicates(next.observations) == Duplicates(w.observations) + if o.duplicate then 1 else 0
    requires |next.seenUnits| + |next.seenUnknown| == |w.seenUnits| + |w.seenUnknown| + if o.duplicate then 0 else 1
    ensures Tallied(next)
  {
  }

  lemma CountsStay(w: Walk, next: Walk)
    requires CountsOk(w) && next.seenUnits == w.seenUnits && next.scanCounts == w.scanCounts
    requires forall x: nat :: ScansOf(next.observations, x) == ScansOf(w.observations, x)
    ensures CountsOk(next)
  {
  }

  lemma CountsGrow(w: Walk, next: Walk, id: nat)
    requires CountsOk(w) && next.seenUnits == w.seenUnits + {id}
    requires next.scanCounts == w.scanCounts[id := (if id in w.scanCounts then w.scanCounts[id] else 0) + 1]
    requires forall x: nat :: ScansOf(next.observations, x) == ScansOf(w.observations, x) + if x == id then 1 else 0
    ensures CountsOk(next)
  {
  }

  /** The unit an identity names, by asset code first. */
  function Matches(identity: nat, upper: nat -> nat, matched: seq<Unit>): (Option<Unit>, Option<Unit>) {
    var byCode, byBarcode := ByCode(matched), ByBarcode(matched);
    (if upper(identity) in byCode then Some(byCode[upper(identity)]) else None,
     if identity in byBarcode then Some(byBarcode[identity]) else None)
  }

  lemma MatchesAreMatched(identity: nat, upper: nat -> nat, matched: seq<Unit>)
    ensures var (asset, barcode) := Matches(identity, upper, matched);
            && (asset.Some? ==> IsMatched(matched, asset.value.id)) && (barcode.Some? ==> IsMatched(matched, barcode.value.id))
  {
    MapsHoldUnits(matched);
  }

  /** A scan that names two different units. */
  predicate Ambiguity(identity: nat, upper: nat -> nat, matched: seq<Unit>) {
    var (asset, barcode) := Matches(identity, upper, matched);
    asset.Some? && barcode.Some? && asset.value.id != barcode.value.id
  }

  /** Observation `j` is the unit its identity names, by asset code first, and a duplicate when it was seen before. */
  ghost predicate Faithful(obs: seq<Observation>, identities: seq<nat>, upper: nat -> nat, matched: seq<Unit>, j: nat)
    requires j < |obs| <= |identities|
  {
    var o := obs[j];
    var (asset, barcode) := Matches(identities[j], upper, matched);
    && o.identity == identities[j]
    && (if asset.Some? then o.kind == ASSET_CODE && o.unit == Some(asset.value.id)
        else if barcode.Some? then o.kind == BARCODE && o.unit == Some(barcode.value.id)
        else o.kind == UNKNOWN && o.unit == None)
    && (o.duplicate <==> if o.unit.Some? then ScansOf(obs[..j], o.unit.value) > 0 else upper(identities[j]) in UnknownKeys(obs, identities, upper, j))
  }

  /** The unknown identities among the first `n` scans, ignoring case. */
  function UnknownKeys(obs: seq<Observation>, identities: seq<nat>, upper: nat -> nat, n: nat): set<nat>
    requires n <= |obs| <= |identities|
  {
    set j | 0 <= j < n && obs[j].kind == UNKNOWN :: upper(identities[j])
  }

  lemma FaithfulStays(obs: seq<Observation>, o: Observation, identities: seq<nat>, upper: nat -> nat, matched: seq<Unit>, j: nat)
    requires j < |obs| < |identities| && Faithful(obs, identities, upper, matched, j)
    ensures Faithful(obs + [o], identities, upper, matched, j)
  {
    hide Matches;
    assert (obs + [o])[..j] == obs[..j];
    assert UnknownKeys(obs + [o], identities, upper, j) == UnknownKeys(obs, identities, upper, j);
  }

  /** The observation just made is faithful, given what was seen before it. */
  lemma FaithfulNow(w: Walk, o: Observation, identities: seq<nat>, upper: nat -> nat, matched: seq<Unit>)
    requires CountsOk(w) && |w.observations| < |identities|
    requires w.seenUnknown == UnknownKeys(w.observations, identities, upper, |w.observations|)
    requires var (asset, barcode) := Matches(identities[|w.observations|], upper, matched);
             && o.identity == identities[|w.observations|]
             && (if asset.Some? then o.kind == ASSET_CODE && o.unit == Some(asset.value.id)
                 else if barcode.Some? then o.kind == BARCODE && o.unit == Some(barcode.value.id)
                 else o.kind == UNKNOWN && o.unit == None)
             && o.duplicate == if o.unit.Some? then o.unit.value in w.seenUnits else upper(identities[|w.observations|]) in w.seenUnknown
    ensures Faithful(w.observations + [o], identities, upper, matched, |w.observations|)
    ensures var n := |w.observations|;
            UnknownKeys(w.observations + [o], identities, upper, n + 1)
            == if o.kind == UNKNOWN then w.seenUnknown + {upper(identities[n])} else w.seenUnknown
  {
    hide Matches;
    var n, next := |w.observations|, w.observations + [o];
    assert next[..n] == w.observations;
    assert forall j :: 0 <= j < n ==> next[j] == w.observations[j];
    assert UnknownKeys(next, identities, upper, n) == w.seenUnknown;
    assert UnknownKeys(next, identities, upper, n + 1)
           == UnknownKeys(next, identities, upper, n) + if o.kind == UNKNOWN then {upper(identities[n])} else {};
  }

  /** Walks the scans in order; an ambiguous one refuses the whole count. */
  method WalkScans(identities: seq<nat>, upper: nat -> nat, matched: seq<Unit>) returns (outcome: Result<Walk, Reason>)
    ensures outcome.Ok? ==> WalkOk(outcome.value, matched) && |outcome.value.observations| == |identities|
    ensures outcome.Ok? ==> forall k :: 0 <= k < |identities| ==> Faithful(outcome.value.observations, identities, upper, matched, k)
    ensures outcome.Ok? ==> outcome.value.seenUnknown == UnknownKeys(outcome.value.observations, identities, upper, |identities|)
    ensures outcome.Refused? <==> exists k :: 0 <= k < |identities| && Ambiguity(identities[k], upper, matched)
  {
    hide Matches, WalkOk, Faithful, UnknownKeys;
    var w := Walk({}, {}, map[], []);
    NothingSeen(matched);
    assert UnknownKeys(w.observations, identities, upper, 0) == {} by { NoUnknownKeys(identities, upper); }
    for k := 0 to |identities|
      invariant WalkOk(w, matched) && |w.observations| == k
      invariant w.seenUnknown == UnknownKeys(w.observations, identities, upper, k)
      invariant forall j :: 0 <= j < k ==> Faithful(w.observations, identities, upper, matched, j) && !Ambiguity(identities[j], upper, matched)
    {
      var identity := identities[k];
      var (asset, barcode) := Matches(identity, upper, matched);
      if asset.Some? && barcode.Some? && asset.value.id != barcode.value.id {
        assert Ambiguity(identity, upper, matched);
        return Refused(Ambiguous);
      }
      MatchesAreMatched(identity, upper, matched);
      ghost var before := w;
      if asset.Some? {
        SeeUnitOk(w, matched, identity, ASSET_CODE, asset.value.id);
        w := SeeUnit(w, identity, ASSET_CODE, asset.value.id);
      } else if barcode.Some? {
        SeeUnitOk(w, matched, identity, BARCODE, barcode.value.id);
        w := SeeUnit(w, identity, BARCODE, barcode.value.id);
      } else {
        SeeUnknownOk(w, matched, identity, upper(identity));
        w := SeeUnknown(w, identity, upper(identity));
      }
      ghost var o := w.observations[k];
      CountsOf(before, matched);
      FaithfulNow(before, o, identities, upper, matched);
      forall j | 0 <= j < k ensures Faithful(w.observations, identities, upper, matched, j) {
        FaithfulStays(before.observations, o, identities, upper, matched, j);
      }
    }
    outcome := Ok(w);
  }

  lemma NoUnknownKeys(identities: seq<nat>, upper: nat -> nat)
    ensures UnknownKeys([], identities, upper, 0) == {}
  {
  }

  lemma CountsOf(w: Walk, matched: seq<Unit>)
    requires WalkOk(w, matched)
    ensures CountsOk(w)
  {
  }

  lemma NothingSeen(matched: seq<Unit>)
    ensures WalkOk(Walk({}, {}, map[], []), matched)
  {
  }

  // ------------------------------------------------------------------ The session

  function Filter(units: seq<Unit>, keep: Unit -> bool): seq<Unit> {
    if units == [] then []
    else Filter(units[..|units| - 1], keep) + if keep(units[|units| - 1]) then [units[|units| - 1]] else []
  }

  lemma {:induction false} Filtered(units: seq<Unit>, keep: Unit -> bool)
    ensures forall u :: u in Filter(units, keep) <==> u in units && keep(u)
    ensures DistinctIds(units) ==> DistinctIds(Filter(units, keep))
  {
    if units != [] {
      var n := |units| - 1;
      Filtered(units[..n], keep);
      assert units == units[..n] + [units[n]];
      if DistinctIds(units) {
        assert forall u | u in Filter(units[..n], keep) :: u in units[..n];
        assert forall u | u in units[..n] :: u.id != units[n].id;
      }
    }
  }

  function Ids(units: seq<Unit>): seq<nat> {
    seq(|units|, i requires 0 <= i < |units| => units[i].id)
  }

  function CountIf(items: seq<Item>, p: Item -> bool): nat {
    if items == [] then 0 else CountIf(items[..|items| - 1], p) + if p(items[|items| - 1]) then 1 else 0
  }

  function Select(items: seq<Item>, p: Item -> bool): seq<Item> {
    if items == [] then []
    else Select(items[..|items| - 1], p) + if p(items[|items| - 1]) then [items[|items| - 1]] else []
  }

  function ItemOf(u: Unit, expected: set<nat>, w: Walk, location: nat): Item {
    var observed := u.id in w.seenUnits;
    Item(u, u.id in expected, observed, if u.id in w.scanCounts then w.scanCounts[u.id] else 0,
         u.id in expected && !observed, observed && u.id !in expected,
         observed && u.location != Some(location),
         observed && (u.disposition == LOST || u.disposition == RETIRED || Away(u)))
  }

  predicate Discrepant(i: Item) {
    i.missing || i.unexpected || i.wrongLocation || i.review
  }

  /** The units the scans can name. */
  function MatchedUnits(units: seq<Unit>, identities: seq<nat>, upper: nat -> nat): seq<Unit> {
    Filter(units, (u: Unit) => (exists x | x in identities :: upper(x) == u.code) || (u.barcode.Some? && u.barcode.value in identities))
  }

  function ExpectedUnits(units: seq<Unit>, location: nat): seq<Unit> {
    Filter(units, (u: Unit) => ExpectedAt(u, location))
  }

  /** The expected units, then the observed ones that were not expected. */
  method UnionOf(expected: seq<Unit>, matched: seq<Unit>, seen: set<nat>) returns (union: seq<Unit>)
    requires DistinctIds(expected) && DistinctIds(matched)
    requires forall a, b | a in expected && b in matched && a.id == b.id :: a == b
    ensures DistinctIds(union)
    ensures forall u :: u in union <==> u in expected || (u in matched && u.id in seen)
  {
    union := expected;
    for k := 0 to |matched|
      invariant DistinctIds(union)
      invariant forall u :: u in union <==> u in expected || (u in matched[..k] && u.id in seen)
    {
      var u := matched[k];
      assert matched[..k + 1] == matched[..k] + [u];
      assert forall v | v in matched[..k] :: v.id != u.id;
      if u.id in seen && u.id !in Ids(expected) {
        NotAmong(expected, u.id);
        union := union + [u];
      } else if u.id in seen {
        AmongExpected(expected, u.id);
      }
    }
    assert matched[..|matched|] == matched;
  }

  lemma NotAmong(units: seq<Unit>, id: nat)
    requires id !in Ids(units)
    ensures forall u | u in units :: u.id != id
  {
    forall u | u in units ensures u.id != id {
      var i :| 0 <= i < |units| && units[i] == u;
      assert Ids(units)[i] == u.id;
    }
  }

  lemma AmongExpected(units: seq<Unit>, id: nat)
    requires id in Ids(units)
    ensures exists u | u in units :: u.id == id
  {
    var i :| 0 <= i < |Ids(units)| && Ids(units)[i] == id;
    assert units[i] in units;
  }

  function Items(union: seq<Unit>, expected: set<nat>, w: Walk, location: nat): seq<Item> {
    seq(|union|, i requires 0 <= i < |union| => ItemOf(union[i], expected, w, location))
  }

  function ItemScans(items: seq<Item>): nat {
    if items == [] then 0 else ItemScans(items[..|items| - 1]) + items[|items| - 1].scanCount
  }

  /** The ids of the items for which `p` holds. */
  function Chosen(items: seq<Item>, p: Item -> bool): set<nat> {
    set i | i in items && p(i) :: i.unit.id
  }

  predicate DistinctItems(items: seq<Item>) {
    forall i, j :: 0 <= i < j < |items| ==> items[i].unit.id != items[j].unit.id
  }

  lemma {:induction false} CountIsSize(items: seq<Item>, p: Item -> bool)
    requires DistinctItems(items)
    ensures CountIf(items, p) == |Chosen(items, p)|
  {
    if items != [] {
      var n := |items| - 1;
      var last := items[n];
      CountIsSize(items[..n], p);
      assert items == items[..n] + [last];
      assert last.unit.id !in Chosen(items[..n], p);
      assert Chosen(items, p) == Chosen(items[..n], p) + if p(last) then {last.unit.id} else {};
    }
  }

  lemma {:induction false} CountSplits(items: seq<Item>, p: Item -> bool, q: Item -> bool, r: Item -> bool)
    requires forall i | i in items :: (p(i) <==> q(i) || r(i)) && !(q(i) && r(i))
    ensures CountIf(items, p) == CountIf(items, q) + CountIf(items, r)
  {
    if items != [] {
      CountSplits(items[..|items| - 1], p, q, r);
      assert items[|items| - 1] in items;
    }
  }

  lemma {:induction false} ItemScansAre(items: seq<Item>, obs: seq<Observation>, ids: seq<nat>)
    requires |ids| == |items| && forall i :: 0 <= i < |items| ==> items[i].scanCount == ScansOf(obs, ids[i])
    ensures ItemScans(items) == ScansOfAll(obs, ids)
  {
    if items != [] { ItemScansAre(items[..|items| - 1], obs, ids[..|ids| - 1]); }
  }

  /** The two sides of a count. */
  function ExpectedIds(units: seq<Unit>, location: nat): set<nat> {
    set u | u in units && ExpectedAt(u, location) :: u.id
  }

  /** What the items are: one for each unit that is expected or was seen, with both facts on it. */
  ghost predicate ItemsCover(items: seq<Item>, units: seq<Unit>, location: nat, w: Walk) {
    && DistinctItems(items)
    && Chosen(items, (i: Item) => i.expected) == ExpectedIds(units, location)
    && Chosen(items, (i: Item) => i.observed) == w.seenUnits
    && forall i | i in items :: i.unit in units && i == ItemOf(i.unit, ExpectedIds(units, location), w, location)
                                && (i.expected || i.observed)
  }

  lemma UnionCovers(units: seq<Unit>, location: nat, expected: seq<Unit>, matched: seq<Unit>, union: seq<Unit>, w: Walk)
    requires DistinctIds(units) && DistinctIds(union) && SeenOk(w, matched)
    requires forall u :: u in expected <==> u in units && ExpectedAt(u, location)
    requires forall u | u in matched :: u in units
    requires forall u :: u in union <==> u in expected || (u in matched && u.id in w.seenUnits)
    ensures ItemsCover(Items(union, ExpectedIds(units, location), w, location), units, location, w)
  {
    var ids := ExpectedIds(units, location);
    var items := Items(union, ids, w, location);
    assert forall u | u in union :: u in units;
    forall i: Item | i in items ensures i.unit in union && i == ItemOf(i.unit, ids, w, location) {
      var k :| 0 <= k < |items| && items[k] == i;
      assert union[k] in union;
    }
    forall u | u in union ensures ItemOf(u, ids, w, location) in items {
      var k :| 0 <= k < |union| && union[k] == u;
      assert items[k] == ItemOf(u, ids, w, location);
    }
    ExpectedItems(units, location, union, items, w);
    SeenItems(matched, union, items, ids, w, location);
    forall i | i in items ensures i.expected || i.observed {
      assert i.unit in union;
    }
  }

  lemma ExpectedItems(units: seq<Unit>, location: nat, union: seq<Unit>, items: seq<Item>, w: Walk)
    requires forall i: Item | i in items :: i.unit in union && i == ItemOf(i.unit, ExpectedIds(units, location), w, location)
    requires forall u | u in union :: ItemOf(u, ExpectedIds(units, location), w, location) in items
    requires forall u | u in units && ExpectedAt(u, location) :: u in union
    ensures Chosen(items, (i: Item) => i.expected) == ExpectedIds(units, location)
  {
    forall id | id in ExpectedIds(units, location) ensures id in Chosen(items, (i: Item) => i.expected) {
      var u :| u in units && ExpectedAt(u, location) && u.id == id;
      assert ItemOf(u, ExpectedIds(units, location), w, location) in items;
    }
  }

  lemma SeenItems(matched: seq<Unit>, union: seq<Unit>, items: seq<Item>, ids: set<nat>, w: Walk, location: nat)
    requires SeenOk(w, matched)
    requires forall i: Item | i in items :: i.unit in union && i == ItemOf(i.unit, ids, w, location)
    requires forall u | u in union :: ItemOf(u, ids, w, location) in items
    requires forall u | u in matched && u.id in w.seenUnits :: u in union
    ensures Chosen(items, (i: Item) => i.observed) == w.seenUnits
  {
    forall id | id in w.seenUnits ensures id in Chosen(items, (i: Item) => i.observed) {
      assert IsMatched(matched, id);
      var u :| u in matched && u.id == id;
      assert ItemOf(u, ids, w, location) in items;
    }
  }

  // ------------------------------------------------------------------ Conservation

  /** A unit found in the wrong place, or in need of review, is one nobody expected here. */
  lemma OddItemsAreUnexpected(units: seq<Unit>, location: nat, w: Walk, items: seq<Item>, i: Item)
    requires DistinctIds(units) && ItemsCover(items, units, location, w) && i in items
    ensures i.wrongLocation || i.review ==> i.unexpected
  {
    if i.unit.id in ExpectedIds(units, location) {
      var u :| u in units && ExpectedAt(u, location) && u.id == i.unit.id;
      assert u == i.unit;
    }
  }

  /** The discrepancies are the units on exactly one side of the count. */
  lemma DiscrepanciesAreTheDifference(units: seq<Unit>, location: nat, w: Walk, items: seq<Item>)
    requires DistinctIds(units) && ItemsCover(items, units, location, w)
    ensures Chosen(items, Discrepant) == (ExpectedIds(units, location) - w.seenUnits) + (w.seenUnits - ExpectedIds(units, location))
  {
    var expected := ExpectedIds(units, location);
    forall i | i in items ensures Discrepant(i) <==> (i.unit.id in expected) != (i.unit.id in w.seenUnits) {
      OddItemsAreUnexpected(units, location, w, items, i);
    }
    forall id | id in expected + w.seenUnits && (id in expected) != (id in w.seenUnits) ensures id in Chosen(items, Discrepant) {
      if id in expected {
        assert id in Chosen(items, (i: Item) => i.expected);
        var i :| i in items && i.expected && i.unit.id == id;
      } else {
        assert id in Chosen(items, (i: Item) => i.observed);
        var i :| i in items && i.observed && i.unit.id == id;
      }
    }
  }

  /** Both sides of the count split into what they share and what they do not. */
  lemma SidesSplit(units: seq<Unit>, location: nat, w: Walk, items: seq<Item>)
    requires ItemsCover(items, units, location, w)
    ensures |ExpectedIds(units, location)|
            == CountIf(items, (i: Item) => i.missing) + CountIf(items, (i: Item) => i.expected && i.observed)
    ensures |w.seenUnits| == CountIf(items, (i: Item) => i.unexpected) + CountIf(items, (i: Item) => i.expected && i.observed)
  {
    CountIsSize(items, (i: Item) => i.expected);
    CountIsSize(items, (i: Item) => i.observed);
    CountSplits(items, (i: Item) => i.expected, (i: Item) => i.missing, (i: Item) => i.expected && i.observed);
    CountSplits(items, (i: Item) => i.observed, (i: Item) => i.unexpected, (i: Item) => i.expected && i.observed);
  }

  /** Every scan is on exactly one item, or unknown. */
  lemma ScansAreOnItems(w: Walk, matched: seq<Unit>, union: seq<Unit>, expected: set<nat>, location: nat)
    requires WalkOk(w, matched) && DistinctIds(union)
    requires forall u | u in matched && u.id in w.seenUnits :: u in union
    ensures ItemScans(Items(union, expected, w, location)) + Unknowns(w.observations) == |w.observations|
  {
    var ids := Ids(union);
    forall id | id in w.seenUnits ensures id in ids {
      assert IsMatched(matched, id);
      var u :| u in matched && u.id == id;
      var k :| 0 <= k < |union| && union[k] == u;
      assert ids[k] == id;
    }
    hide IsMatched, Tallied;
    ScansAddUp(w.observations, ids);
    ItemScansAre(Items(union, expected, w, location), w.observations, ids);
  }

  lemma {:induction false} SelectedAre(items: seq<Item>, p: Item -> bool)
    ensures forall i :: i in Select(items, p) <==> i in items && p(i)
  {
    if items != [] {
      SelectedAre(items[..|items| - 1], p);
      assert items == items[..|items| - 1] + [items[|items| - 1]];
    }
  }

  lemma IdsOfFiltered(units: seq<Unit>, location: nat, expected: seq<Unit>)
    requires DistinctIds(expected) && forall u :: u in expected <==> u in units && ExpectedAt(u, location)
    ensures |expected| == |ExpectedIds(units, location)|
  {
    DistinctSize(Ids(expected));
    assert forall i, j :: 0 <= i < j < |expected| ==> Ids(expected)[i] == expected[i].id && Ids(expected)[j] == expected[j].id;
    forall id: nat ensures id in ToSet(Ids(expected)) <==> id in ExpectedIds(units, location) {
      if id in ToSet(Ids(expected)) {
        var k :| 0 <= k < |expected| && Ids(expected)[k] == id;
        assert expected[k] in expected;
      }
      if id in ExpectedIds(units, location) {
        var u :| u in units && ExpectedAt(u, location) && u.id == id;
        var k :| 0 <= k < |expected| && expected[k] == u;
        assert Ids(expected)[k] == id;
      }
    }
    assert ToSet(Ids(expected)) == ExpectedIds(units, location);
  }

  /** What a count session says, as a whole. */
  ghost predicate Conserves(s: Session, units: seq<Unit>, location: nat, identities: seq<nat>, w: Walk) {
    var expected := ExpectedIds(units, location);
    var both := CountIf(s.items, (i: Item) => i.expected && i.observed);
    && |identities| == s.totals.observed + |w.seenUnknown| + s.totals.duplicates
    && |identities| == ItemScans(s.items) + s.totals.unknown
    && s.totals.expected == |expected| == s.totals.missing + both
    && s.totals.observed == |w.seenUnits| == s.totals.unexpected + both
    && s.totals.wrongLocation == CountIf(s.items, (i: Item) => i.wrongLocation)
    && s.totals.review == CountIf(s.items, (i: Item) => i.review)
    && (forall i | i in s.items :: i.wrongLocation || i.review ==> i.unexpected)
    && (forall i :: i in s.discrepancies <==> i in s.items && Discrepant(i))
    && Chosen(s.discrepancies, (i: Item) => true) == (expected - w.seenUnits) + (w.seenUnits - expected)
  }

  lemma SessionConserves(s: Session, units: seq<Unit>, location: nat, identities: seq<nat>, w: Walk)
    requires DistinctIds(units) && ItemsCover(s.items, units, location, w) && Tallied(w) && |w.observations| == |identities|
    requires s.discrepancies == Select(s.items, Discrepant)
    requires s.totals.expected == |ExpectedIds(units, location)| && s.totals.observed == |w.seenUnits|
    requires s.totals.missing == CountIf(s.items, (i: Item) => i.missing)
    requires s.totals.unexpected == CountIf(s.items, (i: Item) => i.unexpected)
    requires s.totals.duplicates == Duplicates(w.observations)
    requires s.totals.wrongLocation == CountIf(s.items, (i: Item) => i.wrongLocation)
    requires s.totals.review == CountIf(s.items, (i: Item) => i.review)
    requires |identities| == ItemScans(s.items) + s.totals.unknown
    ensures Conserves(s, units, location, identities, w)
  {
    hide ItemsCover, ExpectedIds;
    SidesSplit(units, location, w, s.items);
    DiscrepanciesAreTheDifference(units, location, w, s.items);
    SelectedAre(s.items, Discrepant);
    hide Discrepant;
    forall i | i in s.items ensures i.wrongLocation || i.review ==> i.unexpected {
      OddItemsAreUnexpected(units, location, w, s.items, i);
    }
    assert Chosen(s.discrepancies, (i: Item) => true) == Chosen(s.items, Discrepant);
  }

  /** Reconciles a list of scans with the units recorded at a location. */
  method Reconcile(units: seq<Unit>, location: nat, identities: seq<nat>, upper: nat -> nat)
    returns (outcome: Result<Session, Reason>, w: Walk)
    requires DistinctIds(units)
    ensures identities == [] <==> outcome == Refused(NothingScanned)
    ensures outcome == Refused(Ambiguous) <==>
      exists k :: 0 <= k < |identities| && Ambiguity(identities[k], upper, MatchedUnits(units, identities, upper))
    ensures outcome.Ok? ==> ItemsCover(outcome.value.items, units, location, w)
                            && Conserves(outcome.value, units, location, identities, w)
                            && outcome.value.observations == w.observations && |w.observations| == |identities| && CountsOk(w)
                            && forall k :: 0 <= k < |identities| ==>
                                 Faithful(w.observations, identities, upper, MatchedUnits(units, identities, upper), k)
  {
    w := Walk({}, {}, map[], []);
    if identities == [] { return Refused(NothingScanned), w; }
    var matched := MatchedUnits(units, identities, upper);
    var expected := ExpectedUnits(units, location);
    Filtered(units, (u: Unit) => (exists x | x in identities :: upper(x) == u.code) || (u.barcode.Some? && u.barcode.value in identities));
    Filtered(units, (u: Unit) => ExpectedAt(u, location));
    hide MatchedUnits, ExpectedUnits, Ambiguity, Faithful;
    var walked := WalkScans(identities, upper, matched);
    if walked.Refused? { return Refused(Ambiguous), w; }
    w := walked.value;
    var union := UnionOf(expected, matched, w.seenUnits);
    var expectedIds := set u | u in expected :: u.id;
    assert expectedIds == ExpectedIds(units, location);
    var items := Items(union, expectedIds, w, location);
    UnionCovers(units, location, expected, matched, union, w);
    ScansAreOnItems(w, matched, union, expectedIds, location);
    IdsOfFiltered(units, location, expected);
    hide ItemsCover, WalkOk, Items, ExpectedIds;
    var totals := Totals(|expected|, |w.seenUnits|, CountIf(items, (i: Item) => i.missing), CountIf(items, (i: Item) => i.unexpected),
                         Duplicates(w.observations), Unknowns(w.observations),
                         CountIf(items, (i: Item) => i.wrongLocation), CountIf(items, (i: Item) => i.review));
    var session := Session(totals, w.observations, items, Select(items, Discrepant));
    SessionConserves(session, units, location, identities, w);
    CountsOf(w, matched);
    outcome := Ok(session);
  }
}
