/** Three searches that pass over the earliest feasible start, each for another reason. */
module NextAvailableGaps {
  import opened Common
  import opened RentalModel
  import opened NextAvailable
  import opened NextAvailableExact

  lemma NothingFetched(q: Search)
    requires q.At(q.main) in q.env && q.reqs == [] && q.blocks == []
    ensures WithinLimits(q) && q.Candidates() == {} && forall t :: !Anticipated(q, t)
  {
    assert q.ConflictEnds() == [];
  }

  /** A product with one unit at one location, and nothing reserved. */
  function Lone(unitBlocks: map<nat, seq<Span>>, notice: nat, start: int): Search {
    Search(map[Pool(0, 0) := PoolConfig({0}, {}, unitBlocks, [], 0, 0, notice, 365, 0, 0, true, true, None)],
           [], 0, [0], 0, false, [], start, start, 1, 0, None, true)
  }

  lemma LoneFeasible(unitBlocks: map<nat, seq<Span>>, notice: nat, start: int, t: int)
    requires notice <= t * MINUTES_PER_DAY <= 365 * MINUTES_PER_DAY
    ensures var q := Lone(unitBlocks, notice, start);
            q.Feasible(t) <==> !UnitBlocked(q.Config(0), 0, Day(t))
  {
    var q := Lone(unitBlocks, notice, start);
    assert q.Window(0, t) == Day(t);
    assert CountedUnits(q.Config(0), Day(t)) == if UnitBlocked(q.Config(0), 0, Day(t)) then {} else {0};
    hide UnitBlocked;
    assert q.Feasible(t) <==> q.FeasibleAt(0, t);
  }

  lemma BlockedFiveAndSix(c: PoolConfig)
    requires c.unitBlocks == map[0 := [Range(5, 6)]]
    ensures UnitBlocked(c, 0, Day(5)) && UnitBlocked(c, 0, Day(6)) && !UnitBlocked(c, 0, Day(7))
  {
    var blocks := c.unitBlocks[0];
    assert blocks == [Range(5, 6)] && blocks[0] in blocks;
  }

  /** The end of a block on a single unit is never tried, so the search can miss the day after it. */
  lemma UnitBlockMissed(blocks: map<nat, seq<Span>>) returns (q: Search)
    requires blocks == map[0 := [Range(5, 6)]]
    ensures Searches(q) && WithinLimits(q) && q.reqs == [] && 7 in UnitTurns(q, q.main)
    ensures q.IsEarliest(7) && q.Answers(None) && !Exact(q, None)
  {
    q := Lone(blocks, 0, 5);
    NothingFetched(q);
    BlockedFiveAndSix(q.Config(0));
    hide UnitBlocked, WithinLimits, Search.Candidates;
    LoneFeasible(blocks, 0, 5, 5);
    LoneFeasible(blocks, 0, 5, 6);
    LoneFeasible(blocks, 0, 5, 7);
    assert 7 in UnitTurns(q, 0) by {
      assert 0 in q.Config(0).unitBlocks && q.Config(0).unitBlocks[0][0] in q.Config(0).unitBlocks[0];
    }
    hide Search.Feasible, UnitTurns;
  }

  /** A day that only the notice rule excluded is followed by no conflict end either. */
  lemma ShortNoticeMissed() returns (q: Search)
    ensures Searches(q) && WithinLimits(q) && q.reqs == [] && 2 in RuleTurns(q, q.main)
    ensures q.IsEarliest(2) && q.Answers(None) && !Exact(q, None)
  {
    q := Lone(map[], 2 * MINUTES_PER_DAY, 1);
    NothingFetched(q);
    LoneFeasible(map[], 2 * MINUTES_PER_DAY, 1, 2);
    assert !q.Feasible(1) by { assert forall l | l in q.locations :: !q.FeasibleAt(l, 1); }
    hide WithinLimits, Search.Candidates, Search.Feasible;
  }

  /** A pool without unit blocks, notice, shortage selling or a return buffer. */
  function Shelf(units: set<nat>, fullBlocks: seq<Span>, beforeMinutes: nat): PoolConfig {
    PoolConfig(units, {}, map[], fullBlocks, beforeMinutes, 0, 0, 365, 0, 0, true, true, None)
  }

  /** The result in hand is of a location without units; the other one needs a day of preparation. */
  ghost predicate TwoShops(q: Search) {
    && q.locations == [0, 1] && q.main == 0 && !q.pinned && q.reqs == [] && q.blocks == [Range(5, 6)]
    && q.start == q.end == 5 && q.quantity == 1 && q.now == 0 && q.skip == None
    && q.At(0) in q.env && q.Config(0) == Shelf({}, [], 0)
    && q.At(1) in q.env && q.Config(1) == Shelf({0}, [Range(5, 6)], MINUTES_PER_DAY)
  }

  lemma TwoShopsFeasible(q: Search, t: int)
    requires TwoShops(q) && 0 <= t <= 365
    ensures q.Feasible(t) <==> t < 5 || t > 7
  {
    assert CountedUnits(q.Config(0), q.Window(0, t)) == {} && CountedUnits(q.Config(1), q.Window(1, t)) == {0};
    assert q.Window(1, t) == Range(t - 1, t) && q.Config(1).fullBlocks == [Range(5, 6)];
    assert FullyBlocked(q.Config(1), q.Window(1, t)) <==> 5 <= t <= 7 by {
      assert q.Config(1).fullBlocks[0] in q.Config(1).fullBlocks;
    }
    hide FullyBlocked;
    assert !q.FeasibleAt(0, t);
    assert q.Feasible(t) <==> q.FeasibleAt(1, t);
  }

  lemma SortOne(x: int)
    ensures Sort([x]) == [x] && Sort([]) == []
  {
    assert [x][..0] == [];
  }

  lemma OneBlockEnd(q: Search)
    requires q.At(q.main) in q.env && q.reqs == [] && q.blocks == [Range(5, 6)] && q.Fetched(q.blocks[0])
    ensures q.ReservationEnds(|q.reqs|) == [] && q.BlockEnds(|q.blocks|) == [6] && q.ConflictEnds() == [6]
  {
    hide Search.Fetched, Sort;
    assert q.BlockEnds(0) == [] && q.BlockEnds(1) == [6];
    SortOne(6);
  }

  lemma OneCandidate(q: Search)
    requires q.At(q.main) in q.env && q.ConflictEnds() == [6] && q.Lead(q.main) == 1 && q.start < 7 <= q.Horizon()
    ensures q.Candidates() == {7}
  {
    hide Search.ConflictEnds, Search.Lead, Search.Horizon;
    assert 6 in q.ConflictEnds() && q.start < 6 + q.Lead(q.main) <= q.Horizon();
  }

  lemma TwoShopsCandidates(q: Search)
    requires TwoShops(q)
    ensures q.Candidates() == {7} && WithinLimits(q)
  {
    assert q.Fetched(q.blocks[0]) && q.Lead(q.main) == 1 && q.Horizon() == 370;
    assert q.At(q.main) in q.env && q.reqs == [] && q.blocks == [Range(5, 6)] && q.start == 5;
    hide TwoShops, Search.Fetched, Search.Lead, Search.Horizon;
    OneBlockEnd(q);
    OneCandidate(q);
    hide Search.ConflictEnds, Search.ReservationEnds, Search.BlockEnds, Search.Candidates;
  }

  lemma TwoShopsKnown(q: Search)
    requires TwoShops(q)
    ensures Searches(q)
  {
    TwoShopsFeasible(q, 5);
    hide Search.Feasible;
    assert forall l | l in q.locations :: l == 0 || l == 1;
  }

  lemma OnlySevenTried(q: Search)
    requires q.At(q.main) in q.env && q.start == 5 && q.Horizon() >= 8 && q.Candidates() == {7}
    requires !q.Feasible(6) && !q.Feasible(7) && q.Feasible(8)
    ensures q.IsEarliest(8) && q.Answers(None) && !Exact(q, None)
  {
    hide Search.Candidates, Search.Feasible, Search.Horizon;
    assert q.InReach(8);
  }

  lemma TwoShopsMissed(q: Search)
    requires TwoShops(q)
    ensures Searches(q) && WithinLimits(q) && q.IsEarliest(8) && q.Answers(None) && !Exact(q, None)
  {
    TwoShopsKnown(q);
    TwoShopsCandidates(q);
    TwoShopsFeasible(q, 6);
    TwoShopsFeasible(q, 7);
    TwoShopsFeasible(q, 8);
    assert q.start == 5 && q.Horizon() == 370;
    hide *;
    OnlySevenTried(q);
  }

  lemma TwoShopsExist() returns (q: Search)
    ensures TwoShops(q)
  {
    var none, one := Shelf({}, [], 0), Shelf({0}, [Range(5, 6)], MINUTES_PER_DAY);
    hide Shelf;
    q := Search(map[Pool(0, 0) := none, Pool(0, 1) := one], [], 0, [0, 1], 0, false, [Range(5, 6)], 5, 5, 1, 0, None, true);
  }

  /** Where locations differ in their buffers, the buffer of the result in hand misses the day that another one needs. */
  lemma OtherBufferMissed() returns (q: Search)
    ensures Searches(q) && WithinLimits(q) && q.reqs == []
    ensures q.IsEarliest(8) && q.Answers(None) && !Exact(q, None)
  {
    q := TwoShopsExist();
    assert q.reqs == [];
    TwoShopsMissed(q);
    hide *;
  }
}
