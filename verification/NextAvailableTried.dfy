/** Which days the next-date search tries, read off the stored rows. */
module NextAvailableTried {
  import opened Common
  import opened RentalModel
  import opened Availability
  import opened NextAvailable
  import RentalGates

  /** The last day that the search looks at: a year ahead, or as far ahead as the policy of the result in hand goes. */
  function LastDay(q: Search): int
    requires q.At(q.main) in q.env
  {
    q.start + if q.Config(q.main).maxAdvanceDays < 365 then q.Config(q.main).maxAdvanceDays else 365
  }

  /** A stored range that ends no earlier than the days blocked now begin, and begins by the last day. */
  predicate InView(q: Search, r: Range)
    requires q.At(q.main) in q.env
  {
    (q.start - r.last - 1) * 1440 < q.Config(q.main).beforeMinutes && r.first <= LastDay(q)
  }

  /** Row `i` is a valid reservation of the SKU that may stand in the way. */
  predicate Reservation(q: Search, i: nat)
    requires q.At(q.main) in q.env
  {
    && i < |q.reqs| && q.skip != Some(i) && q.reqs[i].pool.sku == q.sku && (q.pinned ==> q.reqs[i].pool.location == q.main)
    && RentalGates.Valid(q.reqs[i].hold, q.now) && InView(q, q.reqs[i].hold.blocked)
  }

  predicate Blackout(q: Search, k: nat)
    requires q.At(q.main) in q.env
  {
    k < |q.blocks| && InView(q, q.blocks[k])
  }

  predicate EndsBefore(q: Search, i: nat, e: int)
    requires q.At(q.main) in q.env
  {
    Reservation(q, i) && q.reqs[i].hold.blocked.last < e
  }

  /** The reservations among the first `n` rows that end before `e`. */
  ghost function EarlierReservations(q: Search, n: nat, e: int): set<nat>
    requires q.At(q.main) in q.env
  {
    set i: nat | i < n && EndsBefore(q, i, e)
  }

  ghost function EarlierBlackouts(q: Search, n: nat, e: int): set<nat>
    requires q.At(q.main) in q.env
  {
    set k: nat | k < n && Blackout(q, k) && q.blocks[k].last < e
  }

  /** Each query returns the 250 rows that end first: `e` is an end with fewer rows before it. */
  ghost predicate Returned(q: Search, e: int)
    requires q.At(q.main) in q.env
  {
    || (&& (exists i: nat :: Reservation(q, i) && q.reqs[i].hold.blocked.last == e)
        && |EarlierReservations(q, |q.reqs|, e)| < 250)
    || (&& (exists k: nat :: Blackout(q, k) && q.blocks[k].last == e)
        && |EarlierBlackouts(q, |q.blocks|, e)| < 250)
  }

  /** Day `t` clears a returned conflict that ended on day `e` by exactly the buffer before a rental. */
  ghost predicate Clears(q: Search, t: int, e: int)
    requires q.At(q.main) in q.env
  {
    Returned(q, e) && (t - e - 2) * 1440 < q.Config(q.main).beforeMinutes <= (t - e - 1) * 1440
  }

  ghost predicate Follows(q: Search, t: int)
    requires q.At(q.main) in q.env
  {
    q.start < t <= LastDay(q) && exists e :: Clears(q, t, e)
  }

  /** At most sixty days are tried, the earliest. */
  ghost predicate Tried(q: Search, t: int)
    requires q.At(q.main) in q.env
  {
    Follows(q, t) && |set u | q.start < u < t && Follows(q, u)| < 60
  }

  /** A rental of the same length from day `t` passes the check at some location. */
  ghost predicate Fits(q: Search, t: int) {
    exists l | l in q.locations ::
      Check(q.env, q.reqs, Pool(q.sku, l), t, t + (q.end - q.start), q.quantity, q.now, q.skip, q.enforce).Ok?
  }

  // ------------------------------------------------------------------ The rows of a query

  function Below(s: seq<int>, e: int): nat {
    if s == [] then 0 else Below(s[..|s| - 1], e) + if s[|s| - 1] < e then 1 else 0
  }

  lemma {:induction false} BelowInserted(s: seq<int>, x: int, e: int)
    ensures Below(Insert(s, x), e) == Below(s, e) + if x < e then 1 else 0
  {
    if s == [] {
      assert Below([x], e) == if x < e then 1 else 0;
    } else if s[|s| - 1] <= x {
      assert (s + [x])[..|s|] == s;
    } else {
      BelowInserted(s[..|s| - 1], x, e);
      var front := Insert(s[..|s| - 1], x);
      assert (front + [s[|s| - 1]])[..|front|] == front;
    }
  }

  lemma {:induction false} BelowSorted(s: seq<int>, e: int)
    ensures Below(Sort(s), e) == Below(s, e)
  {
    if s != [] {
      BelowSorted(s[..|s| - 1], e);
      BelowInserted(Sort(s[..|s| - 1]), s[|s| - 1], e);
    }
  }

  /** In an ascending sequence the smaller members come first. */
  lemma {:induction false} BelowFirst(s: seq<int>, e: int)
    requires Ascending(s)
    ensures Below(s, e) <= |s| && forall k :: 0 <= k < |s| ==> (s[k] < e <==> k < Below(s, e))
  {
    if s != [] { BelowFirst(s[..|s| - 1], e); }
  }

  /** Of the sorted members, the first `n` are those with fewer than `n` before them. */
  lemma TakenIff(s: seq<int>, n: nat, e: int)
    ensures e in Take(Sort(s), n) <==> e in s && Below(s, e) < n
  {
    Sorted(s);
    BelowSorted(s, e);
    assert e in s <==> e in multiset(s);
    assert e in Sort(s) <==> e in multiset(Sort(s));
    hide Sort;
    TakenOfAscending(Sort(s), n, e);
  }

  lemma TakenOfAscending(s: seq<int>, n: nat, e: int)
    requires Ascending(s)
    ensures e in Take(s, n) <==> e in s && Below(s, e) < n
  {
    BelowFirst(s, e);
    hide Below;
    if e in s {
      var k :| 0 <= k < |s| && s[k] == e;
      assert Below(s, e) <= k && s[Below(s, e)] == e;
      if Below(s, e) < n { assert Take(s, n)[Below(s, e)] == e; }
    }
  }

  lemma OneMoreBelow(s: seq<int>, x: int, e: int)
    ensures Below(s + [x], e) == Below(s, e) + (if x < e then 1 else 0) && s + [] == s
  {
    assert (s + [x])[..|s|] == s;
  }

  /** The window of the request, in minutes. */
  lemma ViewIff(q: Search, r: Range)
    requires q.At(q.main) in q.env
    ensures InView(q, r) <==> q.Fetched(r)
    ensures LastDay(q) == q.Horizon()
  {
  }

  lemma ReservationStep(q: Search, n: nat)
    requires q.At(q.main) in q.env && 0 < n <= |q.reqs|
    ensures q.ReservationEnds(n) == q.ReservationEnds(n - 1) + if Reservation(q, n - 1) then [q.reqs[n - 1].hold.blocked.last] else []
  {
    ViewIff(q, q.reqs[n - 1].hold.blocked);
  }

  lemma {:induction false} ReservationEndsAre(q: Search, n: nat, e: int)
    requires q.At(q.main) in q.env && n <= |q.reqs|
    ensures e in q.ReservationEnds(n) <==> exists i: nat :: i < n && Reservation(q, i) && q.reqs[i].hold.blocked.last == e
  {
    if n > 0 {
      ReservationEndsAre(q, n - 1, e);
      ReservationStep(q, n);
      hide Reservation, Search.ReservationEnds;
    }
  }

  lemma EarlierReservationsStep(q: Search, n: nat, e: int)
    requires q.At(q.main) in q.env && 0 < n <= |q.reqs|
    ensures |EarlierReservations(q, n, e)|
            == |EarlierReservations(q, n - 1, e)| + if Reservation(q, n - 1) && q.reqs[n - 1].hold.blocked.last < e then 1 else 0
  {
    var more := Reservation(q, n - 1) && q.reqs[n - 1].hold.blocked.last < e;
    assert more <==> EndsBefore(q, n - 1, e);
    hide Reservation, EndsBefore;
    var before := EarlierReservations(q, n - 1, e);
    if more {
      assert EarlierReservations(q, n, e) == before + {n - 1};
    } else {
      assert EarlierReservations(q, n, e) == before;
    }
  }

  lemma {:induction false} ReservationsBelow(q: Search, n: nat, e: int)
    requires q.At(q.main) in q.env && n <= |q.reqs|
    ensures Below(q.ReservationEnds(n), e) == |EarlierReservations(q, n, e)|
  {
    if n > 0 {
      ReservationsBelow(q, n - 1, e);
      ReservationStep(q, n);
      EarlierReservationsStep(q, n, e);
      OneMoreBelow(q.ReservationEnds(n - 1), q.reqs[n - 1].hold.blocked.last, e);
      hide *;
    } else {
      assert EarlierReservations(q, 0, e) == {};
    }
  }

  lemma BlackoutStep(q: Search, n: nat)
    requires q.At(q.main) in q.env && 0 < n <= |q.blocks|
    ensures q.BlockEnds(n) == q.BlockEnds(n - 1) + if Blackout(q, n - 1) then [q.blocks[n - 1].last] else []
  {
    ViewIff(q, q.blocks[n - 1]);
  }

  lemma {:induction false} BlockEndsAre(q: Search, n: nat, e: int)
    requires q.At(q.main) in q.env && n <= |q.blocks|
    ensures e in q.BlockEnds(n) <==> exists k: nat :: k < n && Blackout(q, k) && q.blocks[k].last == e
  {
    if n > 0 {
      BlockEndsAre(q, n - 1, e);
      BlackoutStep(q, n);
      hide Blackout, Search.BlockEnds;
    }
  }

  lemma EarlierBlackoutsStep(q: Search, n: nat, e: int)
    requires q.At(q.main) in q.env && 0 < n <= |q.blocks|
    ensures |EarlierBlackouts(q, n, e)|
            == |EarlierBlackouts(q, n - 1, e)| + if Blackout(q, n - 1) && q.blocks[n - 1].last < e then 1 else 0
  {
    hide Blackout;
    var before := EarlierBlackouts(q, n - 1, e);
    if Blackout(q, n - 1) && q.blocks[n - 1].last < e {
      assert EarlierBlackouts(q, n, e) == before + {n - 1};
    } else {
      assert EarlierBlackouts(q, n, e) == before;
    }
  }

  lemma {:induction false} BlackoutsBelow(q: Search, n: nat, e: int)
    requires q.At(q.main) in q.env && n <= |q.blocks|
    ensures Below(q.BlockEnds(n), e) == |EarlierBlackouts(q, n, e)|
  {
    if n > 0 {
      BlackoutsBelow(q, n - 1, e);
      BlackoutStep(q, n);
      EarlierBlackoutsStep(q, n, e);
      OneMoreBelow(q.BlockEnds(n - 1), q.blocks[n - 1].last, e);
      hide *;
    } else {
      assert EarlierBlackouts(q, 0, e) == {};
    }
  }

  lemma ReturnedIff(q: Search, e: int)
    requires q.At(q.main) in q.env
    ensures Returned(q, e) <==> e in q.ConflictEnds()
  {
    TakenIff(q.ReservationEnds(|q.reqs|), 250, e);
    TakenIff(q.BlockEnds(|q.blocks|), 250, e);
    ReservationEndsAre(q, |q.reqs|, e);
    BlockEndsAre(q, |q.blocks|, e);
    ReservationsBelow(q, |q.reqs|, e);
    BlackoutsBelow(q, |q.blocks|, e);
    hide Reservation, Blackout, Sort, Take, Below;
  }

  // ------------------------------------------------------------------ The days tried

  lemma LeadIff(q: Search, t: int, e: int)
    requires q.At(q.main) in q.env
    ensures t == e + q.Lead(q.main) <==> (t - e - 2) * 1440 < q.Config(q.main).beforeMinutes <= (t - e - 1) * 1440
  {
  }

  lemma FollowsIff(q: Search, t: int)
    requires q.At(q.main) in q.env
    ensures Follows(q, t) <==> t in q.Candidates()
  {
    hide Returned, Search.ConflictEnds, Search.Lead;
    ViewIff(q, Range(0, 0));
    forall e ensures Clears(q, t, e) <==> e in q.ConflictEnds() && t == e + q.Lead(q.main) {
      ReturnedIff(q, e);
      LeadIff(q, t, e);
    }
    hide Clears, LastDay, Search.Horizon;
  }

  lemma TriedIff(q: Search, t: int)
    requires q.At(q.main) in q.env
    ensures Tried(q, t) <==> q.Considered(t)
  {
    forall u ensures Follows(q, u) <==> u in q.Candidates() { FollowsIff(q, u); }
    forall u | u in q.Candidates() ensures q.start < u { }
    hide Follows, Search.Candidates;
    assert (set u | q.start < u < t && Follows(q, u)) == Before(q.Candidates(), t);
  }

  /** The answer is the first of the days tried that fits; there is none exactly when none of them fits. */
  lemma AnswerIsFirstTried(q: Search, next: Option<int>)
    requires Searches(q) && q.Answers(next)
    ensures match next
            case Some(t) => Tried(q, t) && Fits(q, t) && forall u :: Tried(q, u) && u < t ==> !Fits(q, u)
            case None => forall u :: Tried(q, u) ==> !Fits(q, u)
  {
    assert q.At(q.main) in q.env;
    hide Tried, Search.Candidates, Searches, Search.Known;
    forall u ensures Tried(q, u) <==> q.Considered(u) { TriedIff(q, u); }
    forall u ensures Fits(q, u) <==> q.Feasible(u) { hide Check; }
    hide Fits, Search.Feasible;
  }
}
