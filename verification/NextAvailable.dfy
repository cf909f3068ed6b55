/** The search for the next start date: only days that follow the end of a stored conflict are tried. */
module NextAvailable {
  import opened Common
  import opened RentalModel
  import opened Availability

  const HORIZON_DAYS := 365
  const QUERY_LIMIT := 250
  const CANDIDATE_LIMIT := 60
  const BATCH := 5

  /**
   A request for a rental of one SKU at any of `locations`, and the result in hand: `main`
   is its location. With `pinned`, only that location is asked for. `blocks` are the stored
   blocks that the second query can return; some of them stop no check, such as a blackout
   stored without a location.
   */
  datatype Search = Search(env: Catalogue, reqs: seq<Requirement>, sku: nat, locations: seq<nat>, main: nat, pinned: bool,
                           blocks: seq<Span>, start: int, end: int, quantity: int, now: int, skip: Option<nat>, enforce: bool)
  {
    /** What the tables guarantee about a search. */
    ghost predicate Known() {
      && main in locations && (pinned ==> forall l | l in locations :: l == main)
      && (forall l | l in locations :: At(l) in env)
      && (forall l, b | l in locations && b in Config(l).fullBlocks :: b in blocks)
      && (forall l | l in locations :: SameProduct(Config(l), Config(main)))
    }

    function At(l: nat): Pool {
      Pool(sku, l)
    }

    function Config(l: nat): PoolConfig
      requires At(l) in env
    {
      env[At(l)]
    }

    /** The same rental length, started on day `t`. */
    function EndFor(t: int): int {
      t + (end - start)
    }

    predicate FeasibleAt(l: nat, t: int) {
      Check(env, reqs, At(l), t, EndFor(t), quantity, now, skip, enforce).Ok?
    }

    predicate Feasible(t: int) {
      exists l | l in locations :: FeasibleAt(l, t)
    }

    function Window(l: nat, t: int): Range
      requires At(l) in env
    {
      BlockedRange(Config(l), t, EndFor(t))
    }

    /** Days between the end of a conflict and the first start that clears it. */
    function Lead(l: nat): int
      requires At(l) in env
    {
      DaysFor(Config(l).beforeMinutes) + 1
    }

    function Horizon(): int
      requires At(main) in env
    {
      start + Min(HORIZON_DAYS, Config(main).maxAdvanceDays)
    }

    /** Whether a conflict can be fetched by the two queries. */
    predicate Fetched(r: Range)
      requires At(main) in env
    {
      r.last >= Window(main, start).first && r.first <= Horizon()
    }

    /** A counted reservation of this SKU, other than the one left out. */
    predicate Competes(i: nat)
      requires i < |reqs|
    {
      reqs[i].pool.sku == sku && (pinned ==> reqs[i].pool.location == main) && Counted(reqs[i].hold, now) && skip != Some(i)
    }

    function ReservationEnds(n: nat): seq<int>
      requires At(main) in env && n <= |reqs|
    {
      if n == 0 then []
      else ReservationEnds(n - 1)
           + if Competes(n - 1) && Fetched(reqs[n - 1].hold.blocked) then [reqs[n - 1].hold.blocked.last] else []
    }

    function BlockEnds(n: nat): seq<int>
      requires At(main) in env && n <= |blocks|
    {
      if n == 0 then []
      else BlockEnds(n - 1) + if Fetched(blocks[n - 1]) then [blocks[n - 1].last] else []
    }

    /** The conflict ends the two queries return, earliest first, each cut off at its limit. */
    function ConflictEnds(): seq<int>
      requires At(main) in env
    {
      Take(Sort(ReservationEnds(|reqs|)), QUERY_LIMIT) + Take(Sort(BlockEnds(|blocks|)), QUERY_LIMIT)
    }

    /** Every location's conflicts, spaced by the buffer of the result in hand. */
    function Candidates(): set<int>
      requires At(main) in env
    {
      set e | e in ConflictEnds() && start < e + Lead(main) <= Horizon() :: e + Lead(main)
    }

    /** The candidates tried: those with fewer than sixty before them. */
    predicate Considered(t: int)
      requires At(main) in env
    {
      t in Candidates() && |Before(Candidates(), t)| < CANDIDATE_LIMIT
    }

    /** What the search returns. */
    ghost predicate Answers(r: Option<int>)
      requires At(main) in env
    {
      match r
      case Some(t) => Considered(t) && Feasible(t) && forall c | c in Candidates() && c < t :: !Feasible(c)
      case None => forall c | Considered(c) :: !Feasible(c)
    }

    predicate InReach(t: int)
      requires At(main) in env
    {
      start < t <= Horizon()
    }

    /** Day `t` is the first feasible start after the requested one, up to the horizon. */
    ghost predicate IsEarliest(t: int)
      requires At(main) in env
    {
      InReach(t) && Feasible(t) && forall u | start < u < t :: !Feasible(u)
    }
  }

  /** The flags of a product are the same wherever it is stocked. */
  predicate SameProduct(a: PoolConfig, b: PoolConfig) {
    a.offered == b.offered && a.published == b.published && a.availableFrom == b.availableFrom
  }

  function Before(s: set<int>, t: int): set<int> {
    set x | x in s && x < t
  }

  function Take<T>(s: seq<T>, n: nat): seq<T> {
    if |s| <= n then s else s[..n]
  }

  function Insert(s: seq<int>, x: int): seq<int> {
    if s == [] then [x]
    else if s[|s| - 1] <= x then s + [x]
    else Insert(s[..|s| - 1], x) + [s[|s| - 1]]
  }

  function Sort(s: seq<int>): seq<int> {
    if s == [] then [] else Insert(Sort(s[..|s| - 1]), s[|s| - 1])
  }

  predicate Ascending(s: seq<int>) {
    forall i, j :: 0 <= i < j < |s| ==> s[i] <= s[j]
  }

  lemma {:induction false} InsertedMembers(s: seq<int>, x: int)
    ensures multiset(Insert(s, x)) == multiset(s) + multiset{x}
  {
    if s != [] && s[|s| - 1] > x {
      InsertedMembers(s[..|s| - 1], x);
      assert s == s[..|s| - 1] + [s[|s| - 1]];
    }
  }

  lemma {:induction false} InsertedInOrder(s: seq<int>, x: int)
    requires Ascending(s)
    ensures Ascending(Insert(s, x)) && forall y :: y in Insert(s, x) <==> y in s || y == x
  {
    if s != [] && s[|s| - 1] > x {
      InsertedInOrder(s[..|s| - 1], x);
      assert s == s[..|s| - 1] + [s[|s| - 1]];
      var front := Insert(s[..|s| - 1], x);
      assert forall i :: 0 <= i < |front| ==> front[i] in front;
    }
  }

  lemma {:induction false} Sorted(s: seq<int>)
    ensures multiset(Sort(s)) == multiset(s) && Ascending(Sort(s))
  {
    if s != [] {
      Sorted(s[..|s| - 1]);
      InsertedMembers(Sort(s[..|s| - 1]), s[|s| - 1]);
      InsertedInOrder(Sort(s[..|s| - 1]), s[|s| - 1]);
      assert s == s[..|s| - 1] + [s[|s| - 1]];
    }
  }

  // ------------------------------------------------------------------ The search

  lemma {:induction false} RankIsIndex(sorted: seq<int>, s: set<int>, k: nat)
    requires k < |sorted| && ToSet(sorted) == s && forall i, j :: 0 <= i < j < |sorted| ==> sorted[i] < sorted[j]
    ensures |Before(s, sorted[k])| == k
  {
    DistinctSize(sorted[..k]);
    assert ToSet(sorted[..k]) == Before(s, sorted[k]) by {
      forall x ensures x in ToSet(sorted[..k]) <==> x in Before(s, sorted[k]) {
        if x in Before(s, sorted[k]) {
          assert x in ToSet(sorted);
          var i :| 0 <= i < |sorted| && sorted[i] == x;
        }
      }
    }
  }

  /** The candidate dates in order, without repeats. */
  method CollectCandidates(q: Search) returns (order: seq<int>)
    requires q.At(q.main) in q.env
    ensures ToSet(order) == q.Candidates()
    ensures forall i, j :: 0 <= i < j < |order| ==> order[i] < order[j]
  {
    hide Search.ConflictEnds, Search.Lead, Search.Horizon, Sort;
    var ends := q.ConflictEnds();
    var found := [];
    for k := 0 to |ends|
      invariant forall t :: t in found <==> exists j :: 0 <= j < k && q.start < ends[j] + q.Lead(q.main) <= q.Horizon() && t == ends[j] + q.Lead(q.main)
      invariant forall i, j :: 0 <= i < j < |found| ==> found[i] != found[j]
    {
      var candidate := ends[k] + q.Lead(q.main);
      if q.start < candidate <= q.Horizon() && candidate !in found { found := found + [candidate]; }
    }
    FoundAre(q, ends, found);
    hide Search.Candidates;
    order := Sort(found);
    Sorted(found);
    SameElements(found, order);
  }

  lemma FoundAre(q: Search, ends: seq<int>, found: seq<int>)
    requires q.At(q.main) in q.env && ends == q.ConflictEnds()
    requires forall t :: t in found <==> exists j :: 0 <= j < |ends| && q.start < ends[j] + q.Lead(q.main) <= q.Horizon() && t == ends[j] + q.Lead(q.main)
    ensures ToSet(found) == q.Candidates()
  {
    hide Search.ConflictEnds, Search.Lead, Search.Horizon;
    forall t | t in q.Candidates() ensures t in found {
      var e :| e in ends && q.start < e + q.Lead(q.main) <= q.Horizon() && t == e + q.Lead(q.main);
      var j :| 0 <= j < |ends| && ends[j] == e;
      assert q.start < ends[j] + q.Lead(q.main) <= q.Horizon() && t == ends[j] + q.Lead(q.main);
    }
    forall t | t in found ensures t in q.Candidates() {
      var j :| 0 <= j < |ends| && q.start < ends[j] + q.Lead(q.main) <= q.Horizon() && t == ends[j] + q.Lead(q.main);
      assert ends[j] in ends;
    }
  }

  lemma SameElements(a: seq<int>, b: seq<int>)
    requires multiset(a) == multiset(b) && Ascending(b) && forall i, j :: 0 <= i < j < |a| ==> a[i] != a[j]
    ensures ToSet(a) == ToSet(b) && forall i, j :: 0 <= i < j < |b| ==> b[i] < b[j]
  {
    assert forall x :: x in a <==> x in multiset(a);
    assert forall x :: x in b <==> x in multiset(b);
    assert |a| == |multiset(a)| && |b| == |multiset(b)|;
    DistinctSize(a);
    assert ToSet(a) == ToSet(b);
    SizeMeansDistinct(b);
  }

  /** A sequence with as many members as places repeats none. */
  lemma {:induction false} SizeMeansDistinct(s: seq<int>)
    requires |ToSet(s)| == |s|
    ensures forall i, j :: 0 <= i < j < |s| ==> s[i] != s[j]
  {
    if s != [] {
      var p := s[..|s| - 1];
      assert ToSet(s) == ToSet(p) + {s[|s| - 1]};
      AtMostLength(p);
      SizeMeansDistinct(p);
      assert forall i :: 0 <= i < |p| ==> p[i] in ToSet(p);
    }
  }

  lemma {:induction false} AtMostLength(s: seq<int>)
    ensures |ToSet(s)| <= |s|
  {
    if s != [] {
      AtMostLength(s[..|s| - 1]);
      assert ToSet(s) == ToSet(s[..|s| - 1]) + {s[|s| - 1]};
    }
  }

  /** Whether the search starts at all: the check got as far as a location's policy, and failed. */
  ghost predicate Searches(q: Search) {
    && q.Known() && q.quantity >= 1 && q.start <= q.end
    && Offered(q.Config(q.main), q.start, q.enforce) && !q.Feasible(q.start)
  }

  /** One date, checked at every location. */
  method CheckDate(q: Search, t: int) returns (available: bool)
    requires q.Known()
    ensures available == q.Feasible(t)
  {
    var best := CheckLocations(q.env, q.reqs, q.sku, q.locations, t, q.EndFor(t), q.quantity, q.now, q.skip, q.enforce);
    available := best.Some? && best.value.available;
    if best == None {
      forall l | l in q.locations ensures !q.FeasibleAt(l, t) { NotOffered(q, l, t); }
    } else {
      hide Check;
      assert q.Feasible(t) <==> exists l | l in q.locations ::
        Check(q.env, q.reqs, Pool(q.sku, l), t, q.EndFor(t), q.quantity, q.now, q.skip, q.enforce).Ok?;
    }
  }

  lemma NotOffered(q: Search, l: nat, t: int)
    requires q.Known() && l in q.locations
    requires q.quantity < 1 || t > q.EndFor(t) || q.locations == [] || !OnOffer(q.env, q.sku, q.locations, t, q.enforce)
    ensures !q.FeasibleAt(l, t)
  {
  }

  /** Checks a whole batch, then looks for the first success in it. */
  method CheckBatch(q: Search, batch: seq<int>) returns (hit: Option<nat>)
    requires q.Known()
    ensures hit.Some? ==> hit.value < |batch| && q.Feasible(batch[hit.value])
    ensures forall k :: 0 <= k < (if hit.Some? then hit.value else |batch|) ==> !q.Feasible(batch[k])
  {
    hide Search.Known, Search.Feasible;
    var checks := [];
    for j := 0 to |batch|
      invariant |checks| == j && forall i :: 0 <= i < j ==> checks[i] == q.Feasible(batch[i])
    {
      var available := CheckDate(q, batch[j]);
      checks := checks + [available];
    }
    for j := 0 to |checks|
      invariant forall i :: 0 <= i < j ==> !checks[i]
    {
      if checks[j] { return Some(j); }
    }
    return None;
  }

  method ScanBatches(q: Search, candidates: seq<int>) returns (hit: Option<nat>)
    requires q.Known()
    ensures hit.Some? ==> hit.value < |candidates| && q.Feasible(candidates[hit.value])
    ensures forall k :: 0 <= k < (if hit.Some? then hit.value else |candidates|) ==> !q.Feasible(candidates[k])
  {
    hide Search.Feasible, Search.Known;
    var index := 0;
    while index < |candidates|
      invariant 0 <= index
      invariant forall k :: 0 <= k < index && k < |candidates| ==> !q.Feasible(candidates[k])
    {
      var last := if index + BATCH < |candidates| then index + BATCH else |candidates|;
      var batch := candidates[index..last];
      assert forall k :: index <= k < last ==> candidates[k] == batch[k - index];
      var found := CheckBatch(q, batch);
      if found.Some? { return Some(index + found.value); }
      index := index + BATCH;
    }
    return None;
  }

  /** Tries the candidates in batches and returns the first that is available. */
  method FindNextAvailable(q: Search) returns (next: Option<int>)
    requires q.Known() && q.quantity >= 1
    ensures !Searches(q) ==> next == None
    ensures Searches(q) ==> q.Answers(next)
  {
    hide Check, Search.Answers, Search.Candidates, Search.Feasible, Before, Offered;
    if q.start > q.end { return None; }
    var current := CheckDate(q, q.start);
    if current || !Offered(q.Config(q.main), q.start, q.enforce) { return None; }
    hide Search.Known;
    var order := CollectCandidates(q);
    forall k | 0 <= k < |order| ensures |Before(q.Candidates(), order[k])| == k && order[k] in q.Candidates() {
      RankIsIndex(order, q.Candidates(), k);
      assert order[k] in ToSet(order);
    }
    var hit := ScanBatches(q, Take(order, CANDIDATE_LIMIT));
    if hit.Some? {
      FoundAnswers(q, order, hit.value);
      return Some(order[hit.value]);
    }
    NoneAnswers(q, order);
    return None;
  }

  lemma FoundAnswers(q: Search, order: seq<int>, k: nat)
    requires q.At(q.main) in q.env && ToSet(order) == q.Candidates() && forall i, j :: 0 <= i < j < |order| ==> order[i] < order[j]
    requires k < |order| && k < CANDIDATE_LIMIT && |Before(q.Candidates(), order[k])| == k && order[k] in q.Candidates()
    requires q.Feasible(order[k]) && forall i :: 0 <= i < k ==> !q.Feasible(order[i])
    ensures q.Answers(Some(order[k]))
  {
    hide Search.Feasible, Search.Candidates;
    forall c | c in q.Candidates() && c < order[k] ensures !q.Feasible(c) {
      assert c in ToSet(order);
      var i :| 0 <= i < |order| && order[i] == c;
    }
  }

  lemma NoneAnswers(q: Search, order: seq<int>)
    requires q.At(q.main) in q.env && ToSet(order) == q.Candidates()
    requires forall k :: 0 <= k < |order| ==> |Before(q.Candidates(), order[k])| == k
    requires forall k :: 0 <= k < |order| && k < CANDIDATE_LIMIT ==> !q.Feasible(order[k])
    ensures q.Answers(None)
  {
    hide Search.Feasible, Search.Candidates;
    forall c | q.Considered(c) ensures !q.Feasible(c) {
      assert c in ToSet(order);
      var i :| 0 <= i < |order| && order[i] == c;
    }
  }
}
