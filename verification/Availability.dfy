/** The availability check over the locations of a tenant. */
module Availability {
  import opened Common
  import opened RentalModel

  /** What the check reports for one location. */
  datatype LocationResult = LocationResult(location: nat, available: bool, remaining: int)

  function CheckAt(env: Catalogue, reqs: seq<Requirement>, sku: nat, location: nat, start: int, end: int,
                   quantity: int, now: int, skip: Option<nat>, enforce: bool): LocationResult
    requires Pool(sku, location) in env
  {
    var pool := Pool(sku, location);
    var c := env[pool];
    match Check(env, reqs, pool, start, end, quantity, now, skip, enforce)
    case Ok(w) => LocationResult(location, true, Remaining(c, reqs, pool, w, now, skip))
    case Refused(why) =>
      LocationResult(location, false,
        if why == CapacityConflict then Remaining(c, reqs, pool, BlockedRange(c, start, end), now, skip)
        else if why == ProductUnavailable then 0 else c.shortage)
  }

  /** `a` comes before `b`: available locations first, then the larger remaining quantity. */
  predicate Better(a: LocationResult, b: LocationResult) {
    if a.available != b.available then a.available else a.remaining > b.remaining
  }

  /** The first of the results that none is better than. */
  method FirstBest(results: seq<LocationResult>) returns (at: nat)
    requires results != []
    ensures at < |results|
    ensures forall k :: 0 <= k < |results| ==> !Better(results[k], results[at])
    ensures forall k :: 0 <= k < at ==> Better(results[at], results[k])
  {
    at := 0;
    for k := 1 to |results|
      invariant at < |results|
      invariant forall j :: 0 <= j < k ==> !Better(results[j], results[at])
      invariant forall j :: 0 <= j < at ==> Better(results[at], results[j])
    {
      if Better(results[k], results[at]) { at := k; }
    }
  }

  /** The product is on offer at all: a matter of the product, not of the location. */
  predicate OnOffer(env: Catalogue, sku: nat, locations: seq<nat>, start: int, enforce: bool) {
    exists l | l in locations :: Pool(sku, l) in env && Offered(env[Pool(sku, l)], start, enforce)
  }

  /** Every location before `at`, which is where `r` comes from, has a worse result. */
  ghost predicate FirstAt(env: Catalogue, reqs: seq<Requirement>, sku: nat, locations: seq<nat>, start: int, end: int,
                          quantity: int, now: int, skip: Option<nat>, enforce: bool, r: LocationResult, at: nat)
    requires forall l | l in locations :: Pool(sku, l) in env
  {
    at < |locations| && r.location == locations[at]
    && forall k :: 0 <= k < at ==> Better(r, CheckAt(env, reqs, sku, locations[k], start, end, quantity, now, skip, enforce))
  }

  /**
   `r` is the result of one of the locations, none is better, none before it is as good, and
   it is available exactly when some location is.
   */
  ghost predicate IsBest(env: Catalogue, reqs: seq<Requirement>, sku: nat, locations: seq<nat>, start: int, end: int,
                         quantity: int, now: int, skip: Option<nat>, enforce: bool, r: LocationResult)
    requires forall l | l in locations :: Pool(sku, l) in env
  {
    && r.location in locations
    && (exists at: nat :: FirstAt(env, reqs, sku, locations, start, end, quantity, now, skip, enforce, r, at))
    && r == CheckAt(env, reqs, sku, r.location, start, end, quantity, now, skip, enforce)
    && (forall l | l in locations :: !Better(CheckAt(env, reqs, sku, l, start, end, quantity, now, skip, enforce), r))
    && (r.available <==> exists l | l in locations :: Check(env, reqs, Pool(sku, l), start, end, quantity, now, skip, enforce).Ok?)
  }

  /** The result of every location, and the first best of them. */
  method BestLocation(env: Catalogue, reqs: seq<Requirement>, sku: nat, locations: seq<nat>, start: int, end: int,
                      quantity: int, now: int, skip: Option<nat>, enforce: bool) returns (r: LocationResult)
    requires locations != [] && forall l | l in locations :: Pool(sku, l) in env
    ensures IsBest(env, reqs, sku, locations, start, end, quantity, now, skip, enforce, r)
  {
    hide Check, CheckAt, IsBest;
    var results := [];
    for k := 0 to |locations|
      invariant |results| == k
      invariant forall j :: 0 <= j < k ==> results[j] == CheckAt(env, reqs, sku, locations[j], start, end, quantity, now, skip, enforce)
    {
      results := results + [CheckAt(env, reqs, sku, locations[k], start, end, quantity, now, skip, enforce)];
    }
    var at := FirstBest(results);
    r := results[at];
    FirstBestIsBest(env, reqs, sku, locations, start, end, quantity, now, skip, enforce, results, at);
  }

  lemma FirstBestIsBest(env: Catalogue, reqs: seq<Requirement>, sku: nat, locations: seq<nat>, start: int, end: int,
                        quantity: int, now: int, skip: Option<nat>, enforce: bool, results: seq<LocationResult>, at: nat)
    requires (forall l | l in locations :: Pool(sku, l) in env) && |results| == |locations| && at < |results|
    requires forall k :: 0 <= k < |results| ==> !Better(results[k], results[at])
    requires forall k :: 0 <= k < at ==> Better(results[at], results[k])
    requires forall k :: 0 <= k < |results| ==>
               results[k] == CheckAt(env, reqs, sku, locations[k], start, end, quantity, now, skip, enforce)
    ensures IsBest(env, reqs, sku, locations, start, end, quantity, now, skip, enforce, results[at])
  {
    forall l | l in locations
      ensures CheckAt(env, reqs, sku, l, start, end, quantity, now, skip, enforce).location == l
      ensures CheckAt(env, reqs, sku, l, start, end, quantity, now, skip, enforce).available
              <==> Check(env, reqs, Pool(sku, l), start, end, quantity, now, skip, enforce).Ok?
    {
      hide Check;
    }
    hide Check, CheckAt;
    forall l | l in locations ensures !Better(CheckAt(env, reqs, sku, l, start, end, quantity, now, skip, enforce), results[at]) {
      var k :| 0 <= k < |locations| && locations[k] == l;
      assert !Better(results[k], results[at]);
    }
    assert locations[at] in locations;
    assert FirstAt(env, reqs, sku, locations, start, end, quantity, now, skip, enforce, results[at], at);
  }

  /** The remaining quantity that a location reports for the dates, whether or not it can serve them. */
  function Reported(env: Catalogue, reqs: seq<Requirement>, sku: nat, location: nat, start: int, end: int, now: int,
                    skip: Option<nat>, enforce: bool): int
    requires Pool(sku, location) in env
  {
    var c := env[Pool(sku, location)];
    var w := BlockedRange(c, start, end);
    if !Offered(c, start, enforce) then 0
    else if DayStart(c, start) < now + c.noticeMinutes || DayStart(c, start) > now + c.maxAdvanceDays * MINUTES_PER_DAY || FullyBlocked(c, w)
    then Max(0, c.shortage)
    else Max(0, Capacity(c, w) + c.shortage - Load(reqs, Pool(sku, location), w, now, skip))
  }

  /** The locations that can serve, or all of them when none can, as the answer `r` compares them. */
  predicate Compared(env: Catalogue, reqs: seq<Requirement>, sku: nat, l: nat, start: int, end: int, quantity: int, now: int,
                     skip: Option<nat>, enforce: bool, r: LocationResult)
  {
    r.available ==> Check(env, reqs, Pool(sku, l), start, end, quantity, now, skip, enforce).Ok?
  }

  /**
   The answer is that of a location which can serve, when one can. It reports the most pieces
   remaining of the locations it is compared with, and strictly more than those before it.
   */
  ghost predicate ReportsMost(env: Catalogue, reqs: seq<Requirement>, sku: nat, locations: seq<nat>, start: int, end: int,
                              quantity: int, now: int, skip: Option<nat>, enforce: bool, r: LocationResult)
    requires forall l | l in locations :: Pool(sku, l) in env
  {
    && r.location in locations && r.remaining == Reported(env, reqs, sku, r.location, start, end, now, skip, enforce)
    && (r.available <==> Check(env, reqs, Pool(sku, r.location), start, end, quantity, now, skip, enforce).Ok?)
    && (r.available <==> exists l | l in locations :: Check(env, reqs, Pool(sku, l), start, end, quantity, now, skip, enforce).Ok?)
    && forall k :: 0 <= k < |locations| && Compared(env, reqs, sku, locations[k], start, end, quantity, now, skip, enforce, r) ==>
         var there := Reported(env, reqs, sku, locations[k], start, end, now, skip, enforce);
         there <= r.remaining && ((forall j :: 0 <= j <= k ==> locations[j] != r.location) ==> there < r.remaining)
  }

  /** What one location's result is, in these terms. */
  lemma ResultReports(env: Catalogue, reqs: seq<Requirement>, sku: nat, l: nat, start: int, end: int, quantity: int, now: int,
                      skip: Option<nat>, enforce: bool)
    requires Pool(sku, l) in env && quantity >= 1 && start <= end
    ensures var r := CheckAt(env, reqs, sku, l, start, end, quantity, now, skip, enforce);
            && r.location == l && r.remaining == Reported(env, reqs, sku, l, start, end, now, skip, enforce)
            && (r.available <==> Check(env, reqs, Pool(sku, l), start, end, quantity, now, skip, enforce).Ok?)
  {
    hide Load, Capacity, FullyBlocked, Offered, BlockedRange, DayStart;
  }

  lemma BestReportsMost(env: Catalogue, reqs: seq<Requirement>, sku: nat, locations: seq<nat>, start: int, end: int,
                        quantity: int, now: int, skip: Option<nat>, enforce: bool, r: LocationResult)
    requires (forall l | l in locations :: Pool(sku, l) in env) && quantity >= 1 && start <= end
    requires IsBest(env, reqs, sku, locations, start, end, quantity, now, skip, enforce, r)
    ensures ReportsMost(env, reqs, sku, locations, start, end, quantity, now, skip, enforce, r)
  {
    hide CheckAt, Check, Reported;
    forall l | l in locations {
      ResultReports(env, reqs, sku, l, start, end, quantity, now, skip, enforce);
    }
    var at: nat :| FirstAt(env, reqs, sku, locations, start, end, quantity, now, skip, enforce, r, at);
  }

  /** The check over the operational locations: the best of them, the first one on a tie. */
  method CheckLocations(env: Catalogue, reqs: seq<Requirement>, sku: nat, locations: seq<nat>, start: int, end: int,
                        quantity: int, now: int, skip: Option<nat>, enforce: bool) returns (best: Option<LocationResult>)
    requires forall l | l in locations :: Pool(sku, l) in env
    ensures best == None <==> quantity < 1 || start > end || locations == [] || !OnOffer(env, sku, locations, start, enforce)
    ensures best.Some? ==> IsBest(env, reqs, sku, locations, start, end, quantity, now, skip, enforce, best.value)
                           && ReportsMost(env, reqs, sku, locations, start, end, quantity, now, skip, enforce, best.value)
  {
    hide IsBest, ReportsMost;
    if quantity < 1 || start > end || locations == [] || !OnOffer(env, sku, locations, start, enforce) { return None; }
    var r := BestLocation(env, reqs, sku, locations, start, end, quantity, now, skip, enforce);
    BestReportsMost(env, reqs, sku, locations, start, end, quantity, now, skip, enforce, r);
    best := Some(r);
  }
}
