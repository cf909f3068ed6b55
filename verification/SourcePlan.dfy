/**
 Choosing where the requirements of one booking item come from: one location for all of
 them when some location can serve them all, otherwise one location per SKU if the policy
 of the main product allows it.
 */
module SourcePlan {
  import opened Common
  import opened RentalModel
  import opened Availability

  /** One requirement to be supplied. */
  datatype Demand = Demand(key: nat, sku: nat, quantity: int)

  /** All the requirements for one SKU. */
  datatype Group = Group(sku: nat, quantity: int, keys: seq<nat>)

  datatype Query = Query(env: Catalogue, reqs: seq<Requirement>, locations: seq<nat>, start: int, end: int, now: int)

  datatype PlanReason = LocationChanged | BundleConflict | ComponentUnavailable

  type Plan = map<nat, LocationResult>

  function At(q: Query, sku: nat, location: nat, quantity: int): LocationResult
    requires Pool(sku, location) in q.env
  {
    CheckAt(q.env, q.reqs, sku, location, q.start, q.end, quantity, q.now, None, false)
  }

  function Total(ds: seq<Demand>, sku: nat): int {
    if ds == [] then 0
    else Total(ds[..|ds| - 1], sku) + if ds[|ds| - 1].sku == sku then ds[|ds| - 1].quantity else 0
  }

  function Keys(ds: seq<Demand>, sku: nat): seq<nat> {
    if ds == [] then []
    else Keys(ds[..|ds| - 1], sku) + if ds[|ds| - 1].sku == sku then [ds[|ds| - 1].key] else []
  }

  // ------------------------------------------------------------------ Grouping

  /** Group `i` is what the demands for its SKU come to. */
  predicate GoodGroup(ds: seq<Demand>, g: Group) {
    g.quantity == Total(ds, g.sku) && g.keys == Keys(ds, g.sku)
  }

  ghost predicate HasGroup(groups: seq<Group>, sku: nat) {
    exists i :: 0 <= i < |groups| && groups[i].sku == sku
  }

  predicate DistinctSkus(groups: seq<Group>) {
    forall i, j :: 0 <= i < j < |groups| ==> groups[i].sku != groups[j].sku
  }

  /** One group for each demanded SKU. */
  ghost predicate Grouped(ds: seq<Demand>, groups: seq<Group>) {
    && DistinctSkus(groups)
    && (forall i :: 0 <= i < |groups| ==> GoodGroup(ds, groups[i]))
    && (forall k :: 0 <= k < |ds| ==> HasGroup(groups, ds[k].sku))
  }

  predicate AllDemanded(groups: seq<Group>) {
    forall i :: 0 <= i < |groups| ==> groups[i].keys != []
  }

  lemma {:induction false} NothingElse(ds: seq<Demand>, sku: nat)
    requires forall k :: 0 <= k < |ds| ==> ds[k].sku != sku
    ensures Total(ds, sku) == 0 && Keys(ds, sku) == []
  {
    if ds != [] { NothingElse(ds[..|ds| - 1], sku); }
  }

  method FindGroup(groups: seq<Group>, sku: nat) returns (at: Option<nat>)
    ensures at.Some? ==> at.value < |groups| && groups[at.value].sku == sku
    ensures at == None ==> !HasGroup(groups, sku)
  {
    for i := 0 to |groups|
      invariant forall j :: 0 <= j < i ==> groups[j].sku != sku
    {
      if groups[i].sku == sku { return Some(i); }
    }
    return None;
  }

  function AddTo(groups: seq<Group>, d: Demand, at: Option<nat>): seq<Group>
    requires at.Some? ==> at.value < |groups|
  {
    if at.Some? then groups[at.value := Group(d.sku, groups[at.value].quantity + d.quantity, groups[at.value].keys + [d.key])]
    else groups + [Group(d.sku, d.quantity, [d.key])]
  }

  lemma OneMore(ds: seq<Demand>, d: Demand, sku: nat)
    ensures Total(ds + [d], sku) == Total(ds, sku) + if sku == d.sku then d.quantity else 0
    ensures Keys(ds + [d], sku) == Keys(ds, sku) + if sku == d.sku then [d.key] else []
  {
    assert (ds + [d])[..|ds|] == ds;
  }

  lemma HasGroupStays(groups: seq<Group>, d: Demand, at: Option<nat>, sku: nat)
    requires at.Some? ==> at.value < |groups| && groups[at.value].sku == d.sku
    requires HasGroup(groups, sku) || sku == d.sku
    ensures HasGroup(AddTo(groups, d, at), sku)
  {
    var next := AddTo(groups, d, at);
    if sku == d.sku {
      assert next[if at.Some? then at.value else |groups|].sku == d.sku;
    } else {
      var i :| 0 <= i < |groups| && groups[i].sku == sku;
      assert next[i].sku == sku;
    }
  }

  lemma GoodGroupOneMore(ds: seq<Demand>, groups: seq<Group>, d: Demand, at: Option<nat>, i: nat)
    requires DistinctSkus(groups) && (i < |groups| ==> GoodGroup(ds, groups[i]))
    requires if at.Some? then at.value < |groups| && groups[at.value].sku == d.sku
             else !HasGroup(groups, d.sku) && Total(ds, d.sku) == 0 && Keys(ds, d.sku) == []
    requires i < |AddTo(groups, d, at)|
    ensures GoodGroup(ds + [d], AddTo(groups, d, at)[i])
  {
    OneMore(ds, d, AddTo(groups, d, at)[i].sku);
  }

  lemma GroupedOneMore(ds: seq<Demand>, groups: seq<Group>, d: Demand, at: Option<nat>)
    requires Grouped(ds, groups)
    requires at.Some? ==> at.value < |groups| && groups[at.value].sku == d.sku
    requires at == None ==> !HasGroup(groups, d.sku)
    ensures Grouped(ds + [d], AddTo(groups, d, at))
  {
    if at == None {
      forall k | 0 <= k < |ds| ensures ds[k].sku != d.sku { assert HasGroup(groups, ds[k].sku); }
      NothingElse(ds, d.sku);
    }
    var next := AddTo(groups, d, at);
    assert DistinctSkus(next);
    hide GoodGroup, DistinctSkus, HasGroup;
    forall i: nat | i < |next| ensures GoodGroup(ds + [d], next[i]) {
      GoodGroupOneMore(ds, groups, d, at, i);
    }
    forall k | 0 <= k < |ds| + 1 ensures HasGroup(next, (ds + [d])[k].sku) {
      HasGroupStays(groups, d, at, (ds + [d])[k].sku);
    }
  }

  lemma DemandedOneMore(groups: seq<Group>, d: Demand, at: Option<nat>)
    requires AllDemanded(groups)
    requires at.Some? ==> at.value < |groups| && groups[at.value].sku == d.sku
    ensures AllDemanded(AddTo(groups, d, at))
    ensures AddTo(groups, d, at) != [] && AddTo(groups, d, at)[0].sku == if groups == [] then d.sku else groups[0].sku
  {
  }

  /** The demand list, grouped in the order in which SKUs first appear. */
  method GroupDemands(ds: seq<Demand>) returns (groups: seq<Group>)
    ensures Grouped(ds, groups) && AllDemanded(groups)
    ensures ds != [] ==> groups != [] && groups[0].sku == ds[0].sku
  {
    groups := [];
    for k := 0 to |ds|
      invariant Grouped(ds[..k], groups) && AllDemanded(groups)
      invariant if k == 0 then groups == [] else groups != [] && groups[0].sku == ds[0].sku
    {
      var d := ds[k];
      var at := FindGroup(groups, d.sku);
      assert ds[..k + 1] == ds[..k] + [d];
      GroupedOneMore(ds[..k], groups, d, at);
      hide Grouped, HasGroup;
      ghost var before := groups;
      if at.Some? {
        var g := groups[at.value];
        groups := groups[at.value := Group(d.sku, g.quantity + d.quantity, g.keys + [d.key])];
      } else {
        groups := groups + [Group(d.sku, d.quantity, [d.key])];
      }
      assert groups == AddTo(before, d, at);
      DemandedOneMore(before, d, at);
      hide AllDemanded, AddTo;
    }
    assert ds[..|ds|] == ds;
  }

  // ------------------------------------------------------------------ One location for all

  ghost predicate KnownGroups(q: Query, groups: seq<Group>) {
    forall g, l | g in groups && l in q.locations :: Pool(g.sku, l) in q.env
  }

  ghost predicate Serves(q: Query, groups: seq<Group>, location: nat)
    requires KnownGroups(q, groups) && location in q.locations
  {
    forall g | g in groups :: At(q, g.sku, location, g.quantity).available
  }

  /** How much a location would have left over, summed over the groups. */
  ghost function Score(q: Query, groups: seq<Group>, location: nat): int
    requires KnownGroups(q, groups) && location in q.locations
  {
    if groups == [] then 0
    else
      var g := groups[|groups| - 1];
      Score(q, groups[..|groups| - 1], location) + At(q, g.sku, location, g.quantity).remaining - g.quantity
  }

  method CheckCommon(q: Query, groups: seq<Group>, location: nat) returns (score: int, results: Option<seq<LocationResult>>)
    requires KnownGroups(q, groups) && location in q.locations
    ensures results.Some? <==> Serves(q, groups, location)
    ensures results.Some? ==>
      && score == Score(q, groups, location) && |results.value| == |groups|
      && forall k :: 0 <= k < |groups| ==> results.value[k] == At(q, groups[k].sku, location, groups[k].quantity)
  {
    hide CheckAt;
    score := 0;
    var found := [];
    for k := 0 to |groups|
      invariant |found| == k && score == Score(q, groups[..k], location)
      invariant forall j :: 0 <= j < k ==> found[j] == At(q, groups[j].sku, location, groups[j].quantity) && found[j].available
    {
      var g := groups[k];
      var result := At(q, g.sku, location, g.quantity);
      assert groups[..k + 1][..k] == groups[..k];
      if !result.available {
        assert g in groups;
        return score, None;
      }
      found := found + [result];
      score := score + result.remaining - g.quantity;
    }
    assert groups[..|groups|] == groups;
    results := Some(found);
  }

  /** The best of the first `n` locations that can serve everything: the earliest with the largest score. */
  ghost predicate BestCommon(q: Query, groups: seq<Group>, at: nat, n: nat)
    requires KnownGroups(q, groups) && at < n <= |q.locations|
  {
    && Serves(q, groups, q.locations[at])
    && (forall k :: 0 <= k < n && Serves(q, groups, q.locations[k]) ==> Score(q, groups, q.locations[k]) <= Score(q, groups, q.locations[at]))
    && (forall k :: 0 <= k < at && Serves(q, groups, q.locations[k]) ==> Score(q, groups, q.locations[k]) < Score(q, groups, q.locations[at]))
  }

  method FindCommon(q: Query, groups: seq<Group>) returns (best: Option<(nat, seq<LocationResult>)>)
    requires KnownGroups(q, groups)
    ensures best == None ==> forall l | l in q.locations :: !Serves(q, groups, l)
    ensures best.Some? ==>
      && best.value.0 < |q.locations| && BestCommon(q, groups, best.value.0, |q.locations|) && |best.value.1| == |groups|
      && forall k :: 0 <= k < |groups| ==> best.value.1[k] == At(q, groups[k].sku, q.locations[best.value.0], groups[k].quantity)
  {
    hide At, Serves, Score;
    best := None;
    var bestScore := 0;
    for n := 0 to |q.locations|
      invariant best == None ==> forall k :: 0 <= k < n ==> !Serves(q, groups, q.locations[k])
      invariant best.Some? ==>
        && best.value.0 < n && BestCommon(q, groups, best.value.0, n) && |best.value.1| == |groups|
        && bestScore == Score(q, groups, q.locations[best.value.0])
        && forall k :: 0 <= k < |groups| ==> best.value.1[k] == At(q, groups[k].sku, q.locations[best.value.0], groups[k].quantity)
    {
      var score, results := CheckCommon(q, groups, q.locations[n]);
      if results.Some? && (best == None || score > bestScore) {
        best, bestScore := Some((n, results.value)), score;
      }
    }
  }

  // ------------------------------------------------------------------ The plan

  /** The result of each demand is that of its whole group, and it is available. */
  ghost predicate Supplies(q: Query, ds: seq<Demand>, plan: Plan) {
    forall k :: 0 <= k < |ds| ==> Supplied(q, ds, plan, ds[k])
  }

  ghost predicate Supplied(q: Query, ds: seq<Demand>, plan: Plan, d: Demand) {
    && d.key in plan && plan[d.key].available && plan[d.key].location in q.locations
    && Pool(d.sku, plan[d.key].location) in q.env
    && plan[d.key] == At(q, d.sku, plan[d.key].location, Total(ds, d.sku))
  }

  ghost predicate DistinctKeys(ds: seq<Demand>) {
    forall i, j :: 0 <= i < j < |ds| ==> ds[i].key != ds[j].key
  }

  lemma {:induction false} KeyInGroup(ds: seq<Demand>, n: nat, k: nat)
    requires k < n <= |ds|
    ensures ds[k].key in Keys(ds[..n], ds[k].sku)
  {
    assert ds[..n][..n - 1] == ds[..n - 1];
    if k < n - 1 { KeyInGroup(ds, n - 1, k); }
  }

  lemma {:induction false} KeyOfGroup(ds: seq<Demand>, n: nat, key: nat, sku: nat) returns (k: nat)
    requires n <= |ds| && key in Keys(ds[..n], sku)
    ensures k < n && ds[k].key == key && ds[k].sku == sku
  {
    assert n > 0 && ds[..n][..n - 1] == ds[..n - 1];
    if ds[n - 1].sku == sku && ds[n - 1].key == key { k := n - 1; } else { k := KeyOfGroup(ds, n - 1, key, sku); }
  }

  /** Writes each group's result under every key of the group. */
  method ExpandGroups(ds: seq<Demand>, groups: seq<Group>, results: seq<LocationResult>) returns (plan: Plan)
    requires Grouped(ds, groups) && DistinctKeys(ds) && |results| == |groups|
    ensures forall k, i :: 0 <= k < |ds| && 0 <= i < |groups| && groups[i].sku == ds[k].sku
                           ==> ds[k].key in plan && plan[ds[k].key] == results[i]
  {
    hide Grouped, DistinctKeys;
    plan := map[];
    for i := 0 to |groups|
      invariant forall j, key :: 0 <= j < i && key in groups[j].keys ==> key in plan && plan[key] == results[j]
    {
      var keys := groups[i].keys;
      GroupsDisjoint(ds, groups, i);
      for k := 0 to |keys|
        invariant forall j, key :: 0 <= j < i && key in groups[j].keys ==> key in plan && plan[key] == results[j]
        invariant forall x :: 0 <= x < k ==> keys[x] in plan && plan[keys[x]] == results[i]
      {
        assert keys[k] in groups[i].keys;
        plan := plan[keys[k] := results[i]];
      }
      forall key | key in keys ensures key in plan && plan[key] == results[i] {
        var x :| 0 <= x < |keys| && keys[x] == key;
      }
    }
    forall k, i | 0 <= k < |ds| && 0 <= i < |groups| && groups[i].sku == ds[k].sku ensures ds[k].key in groups[i].keys {
      GroupHasKey(ds, groups, k, i);
    }
  }

  lemma GroupHasKey(ds: seq<Demand>, groups: seq<Group>, k: nat, i: nat)
    requires Grouped(ds, groups) && k < |ds| && i < |groups| && groups[i].sku == ds[k].sku
    ensures ds[k].key in groups[i].keys
  {
    KeyInGroup(ds, |ds|, k);
    assert ds[..|ds|] == ds && GoodGroup(ds, groups[i]);
  }

  lemma GroupsDisjoint(ds: seq<Demand>, groups: seq<Group>, i: nat)
    requires Grouped(ds, groups) && DistinctKeys(ds) && i < |groups|
    ensures forall j, key :: 0 <= j < i && key in groups[j].keys ==> key !in groups[i].keys
  {
    assert ds[..|ds|] == ds;
    forall j, key | 0 <= j < i && key in groups[j].keys ensures key !in groups[i].keys {
      assert GoodGroup(ds, groups[j]) && GoodGroup(ds, groups[i]);
      var a := KeyOfGroup(ds, |ds|, key, groups[j].sku);
      if key in groups[i].keys {
        var b := KeyOfGroup(ds, |ds|, key, groups[i].sku);
        assert false;
      }
    }
  }

  lemma SuppliesAll(q: Query, ds: seq<Demand>, groups: seq<Group>, results: seq<LocationResult>, plan: Plan)
    requires Grouped(ds, groups) && |results| == |groups| && KnownGroups(q, groups)
    requires forall i :: 0 <= i < |groups| ==>
               && results[i].available && results[i].location in q.locations
               && results[i] == At(q, groups[i].sku, results[i].location, groups[i].quantity)
    requires forall k, i :: 0 <= k < |ds| && 0 <= i < |groups| && groups[i].sku == ds[k].sku
                            ==> ds[k].key in plan && plan[ds[k].key] == results[i]
    ensures Supplies(q, ds, plan)
  {
    hide At;
    forall k | 0 <= k < |ds| ensures Supplied(q, ds, plan, ds[k]) {
      assert HasGroup(groups, ds[k].sku);
      var i :| 0 <= i < |groups| && groups[i].sku == ds[k].sku;
      assert GoodGroup(ds, groups[i]) && groups[i] in groups;
    }
  }

  lemma SuppliesBest(q: Query, ds: seq<Demand>, groups: seq<Group>, results: seq<LocationResult>, plan: Plan)
    requires Grouped(ds, groups) && |results| == |groups|
    requires forall i :: 0 <= i < |groups| ==> BestFor(q, groups[i].sku, groups[i].quantity, results[i])
    requires forall k, i :: 0 <= k < |ds| && 0 <= i < |groups| && groups[i].sku == ds[k].sku
                            ==> ds[k].key in plan && plan[ds[k].key] == results[i]
    ensures EachFromBest(q, ds, plan)
  {
    hide BestFor;
    forall k | 0 <= k < |ds| ensures ds[k].key in plan && BestFor(q, ds[k].sku, Total(ds, ds[k].sku), plan[ds[k].key]) {
      assert HasGroup(groups, ds[k].sku);
      var i :| 0 <= i < |groups| && groups[i].sku == ds[k].sku;
      assert GoodGroup(ds, groups[i]);
    }
  }

  /** Some location has the whole group. */
  ghost predicate Somewhere(q: Query, g: Group) {
    exists l :: l in q.locations && Pool(g.sku, l) in q.env && At(q, g.sku, l, g.quantity).available
  }

  ghost predicate AnyServes(q: Query, groups: seq<Group>)
    requires KnownGroups(q, groups)
  {
    exists l :: l in q.locations && Serves(q, groups, l)
  }

  /** Every demand is supplied from the one location with the largest spare quantity, the earliest on a tie. */
  ghost predicate FromBest(q: Query, ds: seq<Demand>, groups: seq<Group>, plan: Plan)
    requires KnownGroups(q, groups)
  {
    exists at: nat :: at < |q.locations| && BestCommon(q, groups, at, |q.locations|)
      && forall k :: 0 <= k < |ds| ==> ds[k].key in plan && plan[ds[k].key].location == q.locations[at]
  }

  /** `r` comes from a location that has the pieces, and no location that has them has more left, nor an earlier one as many. */
  ghost predicate BestFor(q: Query, sku: nat, quantity: int, r: LocationResult) {
    && r.available && (forall l | l in q.locations :: Pool(sku, l) in q.env)
    && ReportsMost(q.env, q.reqs, sku, q.locations, q.start, q.end, quantity, q.now, None, false, r)
  }

  /** Every demand is supplied from the location that is best for its SKU alone. */
  ghost predicate EachFromBest(q: Query, ds: seq<Demand>, plan: Plan) {
    forall k :: 0 <= k < |ds| ==> ds[k].key in plan && BestFor(q, ds[k].sku, Total(ds, ds[k].sku), plan[ds[k].key])
  }

  method CheckGroup(q: Query, g: Group) returns (best: Option<LocationResult>)
    requires g.quantity >= 1 && q.start <= q.end && forall l | l in q.locations :: Pool(g.sku, l) in q.env
    ensures best.Some? <==> Somewhere(q, g)
    ensures best.Some? ==>
      && best.value.available && best.value.location in q.locations && BestFor(q, g.sku, g.quantity, best.value)
      && best.value == At(q, g.sku, best.value.location, g.quantity)
  {
    best := CheckLocations(q.env, q.reqs, g.sku, q.locations, q.start, q.end, g.quantity, q.now, None, false);
    hide Check, ReportsMost;
    if best.Some? && !best.value.available {
      forall l | l in q.locations ensures !At(q, g.sku, l, g.quantity).available {
        AvailableIsChecked(q, g.sku, l, g.quantity);
      }
      best := None;
    }
  }

  lemma AvailableIsChecked(q: Query, sku: nat, l: nat, quantity: int)
    requires Pool(sku, l) in q.env
    ensures At(q, sku, l, quantity).available <==> Check(q.env, q.reqs, Pool(sku, l), q.start, q.end, quantity, q.now, None, false).Ok?
    ensures At(q, sku, l, quantity).available ==> At(q, sku, l, quantity).remaining >= quantity && At(q, sku, l, quantity).location == l
  {
  }

  lemma {:induction false} TotalPositive(ds: seq<Demand>, sku: nat, k: nat)
    requires k < |ds| && ds[k].sku == sku && forall d | d in ds :: d.quantity >= 1
    ensures Total(ds, sku) >= 1
  {
    var n := |ds| - 1;
    if k < n { TotalPositive(ds[..n], sku, k); } else { TotalNonNegative(ds[..n], sku); }
    assert ds[n] in ds;
  }

  lemma {:induction false} TotalNonNegative(ds: seq<Demand>, sku: nat)
    requires forall d | d in ds :: d.quantity >= 1
    ensures Total(ds, sku) >= 0
  {
    if ds != [] {
      TotalNonNegative(ds[..|ds| - 1], sku);
      assert ds[|ds| - 1] in ds;
    }
  }

  /** A group has at least one demand, so at least one piece and a known pool at each location. */
  lemma GroupsAreDemanded(q: Query, ds: seq<Demand>, groups: seq<Group>)
    requires Grouped(ds, groups) && AllDemanded(groups)
    requires (forall d | d in ds :: d.quantity >= 1) && forall d, l | d in ds && l in q.locations :: Pool(d.sku, l) in q.env
    ensures KnownGroups(q, groups) && forall g | g in groups :: g.quantity >= 1
  {
    forall g | g in groups ensures g.quantity >= 1 && forall l | l in q.locations :: Pool(g.sku, l) in q.env {
      var i :| 0 <= i < |groups| && groups[i] == g;
      assert GoodGroup(ds, groups[i]) && groups[i].keys != [];
      assert ds[..|ds|] == ds;
      var k := KeyOfGroup(ds, |ds|, g.keys[0], g.sku);
      TotalPositive(ds, g.sku, k);
      assert ds[k] in ds;
    }
  }

  method SplitGroups(q: Query, groups: seq<Group>) returns (results: Option<seq<LocationResult>>)
    requires KnownGroups(q, groups) && q.start <= q.end && forall g | g in groups :: g.quantity >= 1
    ensures results.Some? <==> forall g | g in groups :: Somewhere(q, g)
    ensures results.Some? ==> |results.value| == |groups| && forall i :: 0 <= i < |groups| ==>
      && results.value[i].available && results.value[i].location in q.locations && BestFor(q, groups[i].sku, groups[i].quantity, results.value[i])
      && results.value[i] == At(q, groups[i].sku, results.value[i].location, groups[i].quantity)
  {
    hide At, Somewhere, BestFor;
    var found: seq<LocationResult> := [];
    for i := 0 to |groups|
      invariant |found| == i && forall j :: 0 <= j < i ==>
        && found[j].available && found[j].location in q.locations && Somewhere(q, groups[j]) && BestFor(q, groups[j].sku, groups[j].quantity, found[j])
        && found[j] == At(q, groups[j].sku, found[j].location, groups[j].quantity)
    {
      assert groups[i] in groups;
      var best := CheckGroup(q, groups[i]);
      if best == None { return None; }
      found := found + [best.value];
    }
    results := Some(found);
  }

  /** One location per SKU, when the main product is available and may be split from the rest. */
  method SplitPlan(q: Query, ds: seq<Demand>, groups: seq<Group>, singleOnly: bool) returns (outcome: Result<Plan, PlanReason>)
    requires Grouped(ds, groups) && DistinctKeys(ds) && KnownGroups(q, groups) && groups != []
    requires q.start <= q.end && forall g | g in groups :: g.quantity >= 1
    ensures outcome.Ok? ==> Supplies(q, ds, outcome.value) && EachFromBest(q, ds, outcome.value)
    ensures if singleOnly || !Somewhere(q, groups[0]) then outcome == Refused(BundleConflict)
            else if exists g | g in groups :: !Somewhere(q, g) then outcome == Refused(ComponentUnavailable)
            else outcome.Ok?
  {
    hide Grouped, DistinctKeys, At, Somewhere, Supplies, BestFor, EachFromBest;
    var main := CheckGroup(q, groups[0]);
    if singleOnly || main == None { return Refused(BundleConflict); }
    var results := SplitGroups(q, groups);
    if results == None { return Refused(ComponentUnavailable); }
    var plan := ExpandGroups(ds, groups, results.value);
    SuppliesAll(q, ds, groups, results.value, plan);
    SuppliesBest(q, ds, groups, results.value, plan);
    outcome := Ok(plan);
  }

  /** Everything from the location that serves best, when there is one. */
  method CommonPlan(q: Query, ds: seq<Demand>, groups: seq<Group>) returns (plan: Option<Plan>)
    requires Grouped(ds, groups) && DistinctKeys(ds) && KnownGroups(q, groups)
    ensures plan.Some? <==> AnyServes(q, groups)
    ensures plan.Some? ==> Supplies(q, ds, plan.value) && FromBest(q, ds, groups, plan.value)
  {
    var common := FindCommon(q, groups);
    hide Grouped, DistinctKeys, Supplies, Score, At;
    if common == None { return None; }
    var at, results := common.value.0, common.value.1;
    assert AnyServes(q, groups) by { assert Serves(q, groups, q.locations[at]); }
    var expanded := ExpandGroups(ds, groups, results);
    forall i | 0 <= i < |groups|
      ensures results[i].available && results[i].location == q.locations[at]
    {
      assert groups[i] in groups;
      AvailableIsChecked(q, groups[i].sku, q.locations[at], groups[i].quantity);
    }
    hide Serves, BestCommon;
    SuppliesAll(q, ds, groups, results, expanded);
    forall k | 0 <= k < |ds| ensures ds[k].key in expanded && expanded[ds[k].key].location == q.locations[at] {
      GroupOf(ds, groups, k);
    }
    plan := Some(expanded);
  }

  lemma GroupOf(ds: seq<Demand>, groups: seq<Group>, k: nat)
    requires Grouped(ds, groups) && k < |ds|
    ensures exists i :: 0 <= i < |groups| && groups[i].sku == ds[k].sku
  {
    assert HasGroup(groups, ds[k].sku);
  }

  /**
   Plans the sources of the demands, the main product's first. `pinned` says that the
   locations were narrowed to the one a customer accepted; `singleOnly` is the
   single-location rule of the main product's policy.
   */
  method PlanSources(q: Query, ds: seq<Demand>, pinned: bool, singleOnly: bool)
    returns (outcome: Result<Plan, PlanReason>, groups: seq<Group>)
    requires ds != [] && DistinctKeys(ds) && forall d | d in ds :: d.quantity >= 1
    requires q.start <= q.end && forall d, l | d in ds && l in q.locations :: Pool(d.sku, l) in q.env
    ensures Grouped(ds, groups) && KnownGroups(q, groups) && groups != [] && groups[0].sku == ds[0].sku
    ensures outcome.Ok? ==> Supplies(q, ds, outcome.value)
    ensures AnyServes(q, groups) ==> outcome.Ok? && FromBest(q, ds, groups, outcome.value)
    ensures !AnyServes(q, groups) && outcome.Ok? ==> EachFromBest(q, ds, outcome.value)
    ensures !AnyServes(q, groups) ==>
      if pinned then outcome == Refused(LocationChanged)
      else if singleOnly || !Somewhere(q, groups[0]) then outcome == Refused(BundleConflict)
      else if exists g | g in groups :: !Somewhere(q, g) then outcome == Refused(ComponentUnavailable)
      else outcome.Ok?
  {
    groups := GroupDemands(ds);
    GroupsAreDemanded(q, ds, groups);
    hide Grouped, DistinctKeys, AllDemanded, AnyServes, FromBest, Somewhere, Supplies, EachFromBest;
    var common := CommonPlan(q, ds, groups);
    if common.Some? {
      outcome := Ok(common.value);
    } else if pinned {
      outcome := Refused(LocationChanged);
    } else {
      outcome := SplitPlan(q, ds, groups, singleOnly);
    }
  }

  // ------------------------------------------------------------------ What a plan compares

  /** A location serves the groups exactly when its check passes for each of them; staff may use unpublished products. */
  lemma ServesIff(q: Query, groups: seq<Group>, location: nat)
    requires KnownGroups(q, groups) && location in q.locations
    ensures Serves(q, groups, location)
            <==> forall g | g in groups :: Check(q.env, q.reqs, Pool(g.sku, location), q.start, q.end, g.quantity, q.now, None, false).Ok?
  {
    forall g | g in groups { AvailableIsChecked(q, g.sku, location, g.quantity); }
    hide At, Check;
  }

  /** One more group adds to a location's score what it reports beyond that group's quantity. */
  lemma ScoreCounts(q: Query, groups: seq<Group>, g: Group, location: nat)
    requires KnownGroups(q, groups + [g]) && location in q.locations && g.quantity >= 1 && q.start <= q.end
    ensures KnownGroups(q, groups) && Score(q, [], location) == 0 && g in groups + [g]
    ensures Score(q, groups + [g], location)
            == Score(q, groups, location) + Reported(q.env, q.reqs, g.sku, location, q.start, q.end, q.now, None, false) - g.quantity
  {
    assert (groups + [g])[..|groups|] == groups;
    assert g in groups + [g];
    ResultReports(q.env, q.reqs, g.sku, location, q.start, q.end, g.quantity, q.now, None, false);
    hide CheckAt, Reported;
  }

  // ------------------------------------------------------------------ No pool is promised twice

  /** What the plan takes of one SKU from one location. */
  function Taken(ds: seq<Demand>, plan: Plan, sku: nat, location: nat): int {
    if ds == [] then 0
    else
      var d := ds[|ds| - 1];
      Taken(ds[..|ds| - 1], plan, sku, location)
      + if d.sku == sku && d.key in plan && plan[d.key].location == location then d.quantity else 0
  }

  /** One more demand takes its quantity from the location that the plan names for it. */
  lemma TakenCounts(ds: seq<Demand>, d: Demand, plan: Plan, sku: nat, location: nat)
    ensures Taken([], plan, sku, location) == 0
    ensures Taken(ds + [d], plan, sku, location) == Taken(ds, plan, sku, location)
            + if d.sku == sku && d.key in plan && plan[d.key].location == location then d.quantity else 0
  {
    assert (ds + [d])[..|ds|] == ds;
  }

  lemma {:induction false} TakenAtMostTotal(ds: seq<Demand>, plan: Plan, sku: nat, location: nat)
    requires forall k :: 0 <= k < |ds| ==> ds[k].quantity >= 1
    ensures 0 <= Taken(ds, plan, sku, location) <= Total(ds, sku)
  {
    if ds != [] { TakenAtMostTotal(ds[..|ds| - 1], plan, sku, location); }
  }

  lemma {:induction false} TakenByNobody(ds: seq<Demand>, plan: Plan, sku: nat, location: nat)
    requires forall k :: 0 <= k < |ds| ==> !(ds[k].sku == sku && ds[k].key in plan && plan[ds[k].key].location == location)
    ensures Taken(ds, plan, sku, location) == 0
  {
    if ds != [] { TakenByNobody(ds[..|ds| - 1], plan, sku, location); }
  }

  /** Whatever a plan takes of a SKU from a location is within what the check there left free. */
  lemma NeverOverCommits(q: Query, ds: seq<Demand>, plan: Plan, sku: nat, location: nat)
    requires Supplies(q, ds, plan) && (forall k :: 0 <= k < |ds| ==> ds[k].quantity >= 1)
    requires Pool(sku, location) in q.env && q.start <= q.end
    ensures var c := q.env[Pool(sku, location)];
            Taken(ds, plan, sku, location) <= Remaining(c, q.reqs, Pool(sku, location), BlockedRange(c, q.start, q.end), q.now, None)
  {
    TakenAtMostTotal(ds, plan, sku, location);
    if k :| 0 <= k < |ds| && ds[k].sku == sku && ds[k].key in plan && plan[ds[k].key].location == location {
      assert Supplied(q, ds, plan, ds[k]);
      AvailableMeansRemaining(q, sku, location, Total(ds, sku));
    } else {
      TakenByNobody(ds, plan, sku, location);
    }
  }

  lemma AvailableMeansRemaining(q: Query, sku: nat, l: nat, quantity: int)
    requires Pool(sku, l) in q.env && At(q, sku, l, quantity).available
    ensures var c := q.env[Pool(sku, l)];
            quantity <= Remaining(c, q.reqs, Pool(sku, l), BlockedRange(c, q.start, q.end), q.now, None)
  {
  }
}
