/**
 From the plan to the reservations. Planning checks the summed demand of each SKU at once;
 reservations are then made one requirement at a time, each with its own check.
 */
module SourceAdmission {
  import opened Common
  import opened RentalModel
  import opened RentalMachine
  import opened Availability
  import opened SourcePlan
  import RentalChecks

  predicate Planned(ds: seq<Demand>, plan: Plan) {
    forall k :: 0 <= k < |ds| ==> ds[k].key in plan
  }

  function SourceOf(ds: seq<Demand>, plan: Plan, k: nat): Pool
    requires Planned(ds, plan) && k < |ds|
  {
    Pool(ds[k].sku, plan[ds[k].key].location)
  }

  /** The reservations that a plan asks for. */
  function LinesOf(ds: seq<Demand>, plan: Plan, start: int, end: int): seq<Line>
    requires Planned(ds, plan)
  {
    seq(|ds|, k requires 0 <= k < |ds| => Line(SourceOf(ds, plan, k), ds[k].quantity, start, end))
  }

  /** The reservations made so far weigh no more than the first `k` demands. */
  ghost predicate MadeSoFar(q: Query, ds: seq<Demand>, plan: Plan, reqs: seq<Requirement>, k: nat)
    requires k <= |ds|
  {
    forall sku, location | Pool(sku, location) in q.env :: LoadSoFar(q, ds, plan, reqs, k, sku, location)
  }

  ghost predicate LoadSoFar(q: Query, ds: seq<Demand>, plan: Plan, reqs: seq<Requirement>, k: nat, sku: nat, location: nat)
    requires k <= |ds| && Pool(sku, location) in q.env
  {
    var pool := Pool(sku, location);
    var w := BlockedRange(q.env[pool], q.start, q.end);
    Load(reqs, pool, w, q.now, None) <= Load(q.reqs, pool, w, q.now, None) + Taken(ds[..k], plan, sku, location)
  }

  /** Less load and a smaller quantity pass the same check, if the product may be booked by customers. */
  lemma SmallerPasses(env: Catalogue, planned: seq<Requirement>, reqs: seq<Requirement>, pool: Pool, start: int, end: int,
                      total: int, quantity: int, now: int)
    requires Check(env, planned, pool, start, end, total, now, None, false).Ok? && quantity >= 1
    requires pool in env && env[pool].published
    requires var w := BlockedRange(env[pool], start, end);
             Load(reqs, pool, w, now, None) + quantity <= Load(planned, pool, w, now, None) + total
    ensures Check(env, reqs, pool, start, end, quantity, now, None, true) == Ok(BlockedRange(env[pool], start, end))
  {
  }

  lemma {:induction false} TakenOfPrefix(ds: seq<Demand>, plan: Plan, sku: nat, location: nat, k: nat)
    requires k <= |ds| && forall i :: 0 <= i < |ds| ==> ds[i].quantity >= 1
    ensures Taken(ds[..k], plan, sku, location) <= Taken(ds, plan, sku, location)
  {
    if k == |ds| {
      assert ds[..k] == ds;
    } else {
      assert ds[..|ds| - 1][..k] == ds[..k];
      TakenOfPrefix(ds[..|ds| - 1], plan, sku, location, k);
    }
  }

  lemma TakenStep(ds: seq<Demand>, plan: Plan, sku: nat, location: nat, k: nat)
    requires k < |ds| && ds[k].key in plan
    ensures Taken(ds[..k + 1], plan, sku, location)
            == Taken(ds[..k], plan, sku, location) + if ds[k].sku == sku && plan[ds[k].key].location == location then ds[k].quantity else 0
  {
    assert ds[..k + 1][..k] == ds[..k];
  }

  /** The next reservation of the plan passes its check. */
  lemma NextPasses(q: Query, ds: seq<Demand>, plan: Plan, reqs: seq<Requirement>, k: nat)
    requires Supplies(q, ds, plan) && Planned(ds, plan) && k < |ds| && MadeSoFar(q, ds, plan, reqs, k)
    requires forall i :: 0 <= i < |ds| ==> ds[i].quantity >= 1
    requires Supplied(q, ds, plan, ds[k]) && q.env[SourceOf(ds, plan, k)].published
    ensures var pool := SourceOf(ds, plan, k);
            Check(q.env, reqs, pool, q.start, q.end, ds[k].quantity, q.now, None, true) == Ok(BlockedRange(q.env[pool], q.start, q.end))
  {
    var pool := SourceOf(ds, plan, k);
    var sku, location := ds[k].sku, plan[ds[k].key].location;
    var total := Total(ds, sku);
    AvailableIsChecked(q, sku, location, total);
    assert LoadSoFar(q, ds, plan, reqs, k, sku, location);
    TakenStep(ds, plan, sku, location, k);
    TakenOfPrefix(ds, plan, sku, location, k + 1);
    TakenAtMostTotal(ds, plan, sku, location);
    hide Check, CheckAt;
    SmallerPasses(q.env, q.reqs, reqs, pool, q.start, q.end, total, ds[k].quantity, q.now);
  }

  lemma MadeOneMore(q: Query, ds: seq<Demand>, plan: Plan, reqs: seq<Requirement>, k: nat, r: Requirement)
    requires k < |ds| && Planned(ds, plan) && MadeSoFar(q, ds, plan, reqs, k) && ds[k].quantity >= 1
    requires r.pool == SourceOf(ds, plan, k) && r.quantity == ds[k].quantity
    ensures MadeSoFar(q, ds, plan, reqs + [r], k + 1)
  {
    forall sku, location | Pool(sku, location) in q.env ensures LoadSoFar(q, ds, plan, reqs + [r], k + 1, sku, location) {
      assert LoadSoFar(q, ds, plan, reqs, k, sku, location);
      TakenStep(ds, plan, sku, location, k);
      assert (reqs + [r])[..|reqs|] == reqs;
    }
  }

  lemma {:induction false} RestIsAdmitted(q: Query, ds: seq<Demand>, plan: Plan, s: Tenant, b: nat, expiresAt: Option<int>, k: nat)
    requires Supplies(q, ds, plan) && Planned(ds, plan) && k <= |ds| && MadeSoFar(q, ds, plan, s.reqs, k) && s.now == q.now
    requires forall i :: 0 <= i < |ds| ==> ds[i].quantity >= 1
    requires forall i: nat | i < |ds| :: SourceOf(ds, plan, i) in q.env && q.env[SourceOf(ds, plan, i)].published
    ensures AdmitAll(q.env, s, b, expiresAt, LinesOf(ds, plan, q.start, q.end)[k..]).Ok?
    decreases |ds| - k
  {
    var lines := LinesOf(ds, plan, q.start, q.end);
    if k < |ds| {
      assert Supplied(q, ds, plan, ds[k]);
      NextPasses(q, ds, plan, s.reqs, k);
      hide Check, Supplies, Supplied, MadeSoFar;
      var line := lines[k];
      var r := NewRow(b, expiresAt, line, BlockedRange(q.env[line.pool], line.start, line.end));
      MadeOneMore(q, ds, plan, s.reqs, k, r);
      assert lines[k..][0] == line && lines[k..][1..] == lines[k + 1..];
      RestIsAdmitted(q, ds, plan, s.(reqs := s.reqs + [r]), b, expiresAt, k + 1);
    }
  }

  lemma {:induction false} AdmittedArePublished(env: Catalogue, s: Tenant, b: nat, expiresAt: Option<int>, lines: seq<Line>)
    requires AdmitAll(env, s, b, expiresAt, lines).Ok?
    ensures forall k :: 0 <= k < |lines| ==> lines[k].pool in env && env[lines[k].pool].published
    decreases lines
  {
    if lines != [] {
      var line := lines[0];
      var w := Check(env, s.reqs, line.pool, line.start, line.end, line.quantity, s.now, None, true).value;
      assert line.pool in env && env[line.pool].published;
      hide Check;
      AdmittedArePublished(env, s.(reqs := s.reqs + [NewRow(b, expiresAt, line, w)]), b, expiresAt, lines[1..]);
      assert forall k :: 1 <= k < |lines| ==> lines[k] == lines[1..][k - 1];
    }
  }

  /**
   A plan that succeeded is carried out in full exactly when every planned product is
   published: planning does not ask for that, reserving does. Nothing else can go wrong in
   between, as the single checks stay within what the summed check allowed.
   */
  lemma PlanIsAdmittedIff(q: Query, ds: seq<Demand>, plan: Plan, s: Tenant, b: nat, expiresAt: Option<int>)
    requires Supplies(q, ds, plan) && s.reqs == q.reqs && s.now == q.now
    requires forall i :: 0 <= i < |ds| ==> ds[i].quantity >= 1
    ensures Planned(ds, plan) && forall i: nat | i < |ds| :: SourceOf(ds, plan, i) in q.env
    ensures AdmitAll(q.env, s, b, expiresAt, LinesOf(ds, plan, q.start, q.end)).Ok?
            <==> forall i: nat | i < |ds| :: q.env[SourceOf(ds, plan, i)].published
  {
    forall i | 0 <= i < |ds| ensures ds[i].key in plan && Pool(ds[i].sku, plan[ds[i].key].location) in q.env {
      assert Supplied(q, ds, plan, ds[i]);
    }
    var lines := LinesOf(ds, plan, q.start, q.end);
    hide Supplies, AdmitAll;
    if AdmitAll(q.env, s, b, expiresAt, lines).Ok? {
      AdmittedArePublished(q.env, s, b, expiresAt, lines);
      assert forall i: nat | i < |ds| :: lines[i].pool == SourceOf(ds, plan, i);
    }
    if forall i: nat | i < |ds| :: q.env[SourceOf(ds, plan, i)].published {
      NothingMade(q, ds, plan);
      RestIsAdmitted(q, ds, plan, s, b, expiresAt, 0);
      assert lines[0..] == lines;
    }
  }

  /** The row of a planned requirement: its SKU at the planned location, its quantity and the dates. */
  predicate RowOf(q: Query, d: Demand, location: nat, b: nat, expiresAt: Option<int>, r: Requirement) {
    && r.booking == b && r.pool == Pool(d.sku, location) && r.quantity == d.quantity
    && r.hold.start == q.start && r.hold.end == q.end && r.hold.expiresAt == expiresAt
  }

  /** Carried out, a plan leaves one such row for each requirement, in order. */
  lemma PlanIsMade(q: Query, ds: seq<Demand>, plan: Plan, s: Tenant, expiresAt: Option<int>)
    requires Planned(ds, plan) && Apply(q.env, s, Create(expiresAt, LinesOf(ds, plan, q.start, q.end))).Ok?
    ensures var t := Apply(q.env, s, Create(expiresAt, LinesOf(ds, plan, q.start, q.end))).value;
            && s.reqs <= t.reqs && |t.reqs| == |s.reqs| + |ds| && t.bookings == s.bookings + [Pending]
            && forall k :: 0 <= k < |ds| ==> RowOf(q, ds[k], plan[ds[k].key].location, |s.bookings|, expiresAt, t.reqs[|s.reqs| + k])
  {
    var lines := LinesOf(ds, plan, q.start, q.end);
    RentalChecks.CreateIff(q.env, s, expiresAt, lines);
    var t := Apply(q.env, s, Create(expiresAt, lines)).value;
    hide Apply, Check;
    forall k | 0 <= k < |ds| ensures RowOf(q, ds[k], plan[ds[k].key].location, |s.bookings|, expiresAt, t.reqs[|s.reqs| + k]) {
      assert RentalChecks.Opens(t.reqs[|s.reqs| + k], |s.bookings|, expiresAt, lines[k]);
      assert lines[k] == Line(Pool(ds[k].sku, plan[ds[k].key].location), ds[k].quantity, q.start, q.end);
    }
  }

  lemma NothingMade(q: Query, ds: seq<Demand>, plan: Plan)
    ensures MadeSoFar(q, ds, plan, q.reqs, 0)
  {
  }

  // ------------------------------------------------------------------ An unpublished component

  /** One free unit, always available for staff. */
  function OneUnit(unit: nat, published: bool): PoolConfig {
    PoolConfig({unit}, {}, map[], [], 0, 0, 0, 365, 0, 0, true, published, None)
  }

  /** One free unit of each of two SKUs at one location; the second one is not published. */
  function SetShop(): Catalogue {
    map[Pool(0, 0) := OneUnit(0, true), Pool(1, 0) := OneUnit(1, false)]
  }

  function SetQuery(): Query {
    Query(SetShop(), [], [0], 5, 6, 0)
  }

  const SET_DEMANDS := [Demand(0, 0, 1), Demand(1, 1, 1)]

  lemma OneUnitIsFree(q: Query, sku: nat, unit: nat, published: bool)
    requires Pool(sku, 0) in q.env && q.env[Pool(sku, 0)] == OneUnit(unit, published)
    requires q.reqs == [] && q.start == 5 && q.end == 6 && q.now == 0
    ensures At(q, sku, 0, 1) == LocationResult(0, true, 1)
  {
    assert CountedUnits(q.env[Pool(sku, 0)], Range(5, 6)) == {unit};
  }

  lemma SetAvailable(sku: nat)
    requires sku < 2
    ensures Pool(sku, 0) in SetShop() && At(SetQuery(), sku, 0, 1) == LocationResult(0, true, 1)
  {
    hide At, OneUnit;
    OneUnitIsFree(SetQuery(), sku, sku, sku == 0);
  }

  lemma SetTotals()
    ensures Total(SET_DEMANDS, 0) == 1 && Total(SET_DEMANDS, 1) == 1
  {
    assert SET_DEMANDS[..1] == [Demand(0, 0, 1)] && [Demand(0, 0, 1)][..0] == [];
  }

  function SetPlan(): Plan {
    map[0 := LocationResult(0, true, 1), 1 := LocationResult(0, true, 1)]
  }

  lemma SetSuppliedAt(sku: nat)
    requires sku < 2
    ensures Supplied(SetQuery(), SET_DEMANDS, SetPlan(), Demand(sku, sku, 1))
  {
    SetTotals();
    SetAvailable(sku);
    assert SetQuery().env == SetShop() && SetQuery().locations == [0];
    assert sku in SetPlan() && SetPlan()[sku] == LocationResult(0, true, 1);
    hide At, Total, SetShop, SetPlan, SetQuery;
  }

  lemma SetSupplied()
    ensures Supplies(SetQuery(), SET_DEMANDS, SetPlan())
  {
    SetSuppliedAt(0);
    SetSuppliedAt(1);
    hide Supplied, SetQuery, SetPlan;
    forall k: nat | k < |SET_DEMANDS| ensures Supplied(SetQuery(), SET_DEMANDS, SetPlan(), SET_DEMANDS[k]) {
      assert SET_DEMANDS[k] == Demand(0, 0, 1) || SET_DEMANDS[k] == Demand(1, 1, 1);
    }
  }

  lemma SetIsUnpublished()
    ensures Planned(SET_DEMANDS, SetPlan()) && SourceOf(SET_DEMANDS, SetPlan(), 1) == Pool(1, 0)
    ensures Pool(1, 0) in SetQuery().env && !SetQuery().env[Pool(1, 0)].published
  {
    assert SetQuery().env[Pool(1, 0)] == OneUnit(1, false);
  }

  /** A plan that succeeds and is refused when it is carried out: a component of the set is not published. */
  lemma PlanIsNotAdmitted() returns (q: Query, ds: seq<Demand>, plan: Plan, s: Tenant)
    ensures Supplies(q, ds, plan) && Planned(ds, plan) && q.reqs == s.reqs && q.now == s.now
    ensures AdmitAll(q.env, s, 0, None, LinesOf(ds, plan, q.start, q.end)).Refused?
  {
    q, ds, plan, s := SetQuery(), SET_DEMANDS, SetPlan(), Tenant([Pending], [], 0, map[]);
    assert q.reqs == s.reqs && q.now == s.now && |ds| == 2 && forall i :: 0 <= i < |ds| ==> ds[i].quantity >= 1;
    SetSupplied();
    SetIsUnpublished();
    hide *;
    PlanIsAdmittedIff(q, ds, plan, s, 0, None);
  }
}
