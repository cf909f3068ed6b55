/**
 When the search is exact. A start can become possible on other days than those tried; the
 search is exact exactly when it needs none of them.
 */
module NextAvailableExact {
  import opened Common
  import opened RentalModel
  import opened RentalInvariant
  import opened RentalSafety
  import opened RentalCapacity
  import opened NextAvailable

  // ------------------------------------------------------------------ The days on which a start can become possible

  /** Days that follow the end of a counted reservation of this pool. */
  function ReservationTurns(q: Search, l: nat): set<int>
    requires q.At(l) in q.env
  {
    set i: nat | i < |q.reqs| && q.reqs[i].pool == q.At(l) && Counted(q.reqs[i].hold, q.now) && q.skip != Some(i)
      :: q.reqs[i].hold.blocked.last + q.Lead(l)
  }

  /** Days that follow the end of a block on the whole pool. */
  function BlockTurns(q: Search, l: nat): set<int>
    requires q.At(l) in q.env
  {
    set b | b in q.Config(l).fullBlocks :: b.last + q.Lead(l)
  }

  /** Days that follow the end of a block on one counted unit. */
  function UnitTurns(q: Search, l: nat): set<int>
    requires q.At(l) in q.env
  {
    set u, b | u in q.Config(l).units && u in q.Config(l).unitBlocks && b in q.Config(l).unitBlocks[u] :: b.last + q.Lead(l)
  }

  /** The first day far enough ahead for the notice that a policy asks for. */
  function FirstNoticeDay(c: PoolConfig, now: int): int {
    (now + c.noticeMinutes + c.utcOffset + MINUTES_PER_DAY - 1) / MINUTES_PER_DAY
  }

  lemma NoticeDayIsFirst(c: PoolConfig, now: int, d: int)
    ensures DayStart(c, d) >= now + c.noticeMinutes <==> d >= FirstNoticeDay(c, now)
  {
  }

  /** The first day meeting notice, and the day from which the product is rented out. */
  function RuleTurns(q: Search, l: nat): set<int>
    requires q.At(l) in q.env
  {
    {FirstNoticeDay(q.Config(l), q.now)}
    + if q.Config(l).availableFrom.Some? then {q.Config(l).availableFrom.value} else {}
  }

  /** The days, read off the stored rows, on which a start can become possible at one of the locations. */
  function Turns(q: Search): set<int>
    requires q.Known()
  {
    set l, t | l in q.locations && t in ReservationTurns(q, l) + BlockTurns(q, l) + UnitTurns(q, l) + RuleTurns(q, l) :: t
  }

  lemma WindowMoves(q: Search, l: nat, t: int)
    requires q.At(l) in q.env
    ensures q.Window(l, t) == Range(q.Window(l, t - 1).first + 1, q.Window(l, t - 1).last + 1)
    ensures q.Window(l, t - 1).first + q.Lead(l) == t
  {
  }

  /** A range that the earlier window meets and the later one does not ends as the earlier one begins. */
  lemma LeftBehind(r: Range, before: Range, after: Range)
    requires after == Range(before.first + 1, before.last + 1) && Overlaps(r, before) && !Overlaps(r, after)
    ensures r.last == before.first && r.first <= before.last
  {
  }

  /** Room at start `t`: no full block in the way, and the count leaves the quantity free. */
  predicate Room(q: Search, l: nat, t: int)
    requires q.At(l) in q.env
  {
    var c, w := q.Config(l), q.Window(l, t);
    !FullyBlocked(c, w) && Load(q.reqs, q.At(l), w, q.now, q.skip) + q.quantity <= Capacity(c, w) + c.shortage
  }

  predicate Open(q: Search, l: nat, t: int)
    requires q.At(l) in q.env
  {
    var c := q.Config(l);
    && Offered(c, t, q.enforce)
    && q.now + c.noticeMinutes <= DayStart(c, t) <= q.now + c.maxAdvanceDays * MINUTES_PER_DAY
  }

  lemma FeasibleMeans(q: Search, l: nat, t: int)
    requires q.At(l) in q.env && q.quantity >= 1 && q.start <= q.end
    ensures q.FeasibleAt(l, t) <==> Open(q, l, t) && Room(q, l, t)
  {
  }

  ghost predicate FromReservation(q: Search, l: nat, r: Range)
    requires q.At(l) in q.env
  {
    exists i: nat :: i < |q.reqs| && q.reqs[i].hold.blocked == r && q.reqs[i].pool == q.At(l)
                     && Counted(q.reqs[i].hold, q.now) && q.skip != Some(i)
  }

  ghost predicate FromUnit(q: Search, l: nat, r: Range)
    requires q.At(l) in q.env
  {
    exists u :: u in q.Config(l).units && u in q.Config(l).unitBlocks && r in q.Config(l).unitBlocks[u]
  }

  /** More units from one day to the next: a block on one of them has just ended. */
  lemma UnitsFollowABlock(q: Search, l: nat, t: int) returns (r: Range)
    requires q.At(l) in q.env && !(CountedUnits(q.Config(l), q.Window(l, t)) <= CountedUnits(q.Config(l), q.Window(l, t - 1)))
    ensures FromUnit(q, l, r) && r.last + q.Lead(l) == t && r.first <= q.Window(l, t - 1).last
  {
    var c, before, after := q.Config(l), q.Window(l, t - 1), q.Window(l, t);
    WindowMoves(q, l, t);
    hide Search.Window, Search.Lead;
    var u :| u in CountedUnits(c, after) && u !in CountedUnits(c, before);
    var b :| b in c.unitBlocks[u] && Overlaps(b, before);
    r := b;
    LeftBehind(r, before, after);
  }

  /** Less reserved from one day to the next: a counted reservation has just ended. */
  lemma LessFollowsAReservation(q: Search, l: nat, t: int) returns (r: Range)
    requires q.At(l) in q.env && Positive(q.reqs)
    requires Load(q.reqs, q.At(l), q.Window(l, t), q.now, q.skip) < Load(q.reqs, q.At(l), q.Window(l, t - 1), q.now, q.skip)
    ensures FromReservation(q, l, r) && r.last + q.Lead(l) == t && r.first <= q.Window(l, t - 1).last
  {
    var before, after := q.Window(l, t - 1), q.Window(l, t);
    WindowMoves(q, l, t);
    hide Search.Window, Search.Lead;
    if forall i :: 0 <= i < |q.reqs| && q.skip != Some(i) && Weighs(q.reqs[i], q.At(l), before, q.now)
                   ==> Weighs(q.reqs[i], q.At(l), after, q.now) {
      LoadDominated(q.reqs, q.reqs, q.At(l), before, after, q.now, q.now, q.skip);
      assert false;
    }
    var i: nat :| i < |q.reqs| && q.skip != Some(i) && Weighs(q.reqs[i], q.At(l), before, q.now)
                  && !Weighs(q.reqs[i], q.At(l), after, q.now);
    r := q.reqs[i].hold.blocked;
    LeftBehind(r, before, after);
  }

  /** Room that appears from one day to the next appears because something stored has just ended. */
  lemma RoomFollowsAConflict(q: Search, l: nat, t: int) returns (r: Range)
    requires q.At(l) in q.env && Positive(q.reqs) && Room(q, l, t) && !Room(q, l, t - 1)
    ensures r.last + q.Lead(l) == t && r.first <= q.Window(l, t - 1).last
    ensures FromReservation(q, l, r) || r in q.Config(l).fullBlocks || FromUnit(q, l, r)
  {
    var c, before, after := q.Config(l), q.Window(l, t - 1), q.Window(l, t);
    hide Load, CountedUnits;
    if FullyBlocked(c, before) {
      WindowMoves(q, l, t);
      var b :| b in c.fullBlocks && Overlaps(b, before);
      r := b;
      assert !Overlaps(b, after);
      LeftBehind(r, before, after);
    } else if CountedUnits(c, after) <= CountedUnits(c, before) {
      SubsetSize(CountedUnits(c, after), CountedUnits(c, before));
      r := LessFollowsAReservation(q, l, t);
    } else {
      r := UnitsFollowABlock(q, l, t);
    }
  }

  lemma TurnOf(q: Search, l: nat, r: Range)
    requires q.At(l) in q.env
    ensures FromReservation(q, l, r) ==> r.last + q.Lead(l) in ReservationTurns(q, l)
    ensures r in q.Config(l).fullBlocks ==> r.last + q.Lead(l) in BlockTurns(q, l)
    ensures FromUnit(q, l, r) ==> r.last + q.Lead(l) in UnitTurns(q, l)
  {
    hide Search.Lead;
  }

  /** A start that becomes possible from one day to the next falls on one of the days read off the rows. */
  lemma StartTurns(q: Search, l: nat, t: int)
    requires q.At(l) in q.env && q.quantity >= 1 && q.start <= q.end && Positive(q.reqs)
    requires q.FeasibleAt(l, t) && !q.FeasibleAt(l, t - 1)
    ensures t in ReservationTurns(q, l) + BlockTurns(q, l) + UnitTurns(q, l) + RuleTurns(q, l)
  {
    FeasibleMeans(q, l, t);
    FeasibleMeans(q, l, t - 1);
    if Open(q, l, t - 1) {
      hide Open, Room, Search.FeasibleAt;
      var r := RoomFollowsAConflict(q, l, t);
      TurnOf(q, l, r);
    } else {
      hide Room, Search.FeasibleAt;
      RuleOpens(q, l, t);
    }
  }

  lemma RuleOpens(q: Search, l: nat, t: int)
    requires q.At(l) in q.env && Open(q, l, t) && !Open(q, l, t - 1)
    ensures t in RuleTurns(q, l)
  {
    NoticeDayIsFirst(q.Config(l), q.now, t);
    NoticeDayIsFirst(q.Config(l), q.now, t - 1);
  }

  // ------------------------------------------------------------------ When the search is exact

  lemma {:induction false} EarliestExists(q: Search, t: int) returns (e: int)
    requires q.At(q.main) in q.env && q.InReach(t) && q.Feasible(t)
    ensures q.IsEarliest(e) && e <= t
    decreases t - q.start
  {
    hide Search.Feasible;
    if u :| q.start < u < t && q.Feasible(u) {
      e := EarliestExists(q, u);
    } else {
      e := t;
    }
  }

  /** The earliest feasible start became possible on that very day, at some location. */
  lemma EarliestTurns(q: Search, t: int) returns (l: nat)
    requires Searches(q) && q.IsEarliest(t) && GoodRows(q)
    ensures l in q.locations && q.At(l) in q.env && q.FeasibleAt(l, t) && !q.FeasibleAt(l, t - 1) && t in Turns(q)
  {
    hide Search.FeasibleAt;
    assert !q.Feasible(t - 1);
    l :| l in q.locations && q.FeasibleAt(l, t);
    StartTurns(q, l, t);
    hide ReservationTurns, BlockTurns, UnitTurns, RuleTurns;
  }

  /** The answer is the first feasible start up to the horizon, or says that there is none. */
  ghost predicate Exact(q: Search, next: Option<int>)
    requires q.At(q.main) in q.env
  {
    match next
    case Some(t) => q.IsEarliest(t)
    case None => forall t | q.InReach(t) :: !q.Feasible(t)
  }

  /** A feasible start no later than `t` is among the candidates tried. */
  ghost predicate Anticipated(q: Search, t: int)
    requires q.At(q.main) in q.env
  {
    exists c :: q.Considered(c) && c <= t && q.Feasible(c)
  }

  /**
   Whatever the limits, the notice, the blocks and the buffers: the answer is exact exactly
   when every day read off the stored rows that is feasible and in reach is anticipated by a
   candidate, and so by the answer.
   */
  lemma ExactIff(q: Search, s: Tenant, next: Option<int>)
    requires Searches(q) && q.Answers(next) && Reachable(q.env, s) && q.reqs == s.reqs
    ensures Exact(q, next) <==> forall t | t in Turns(q) && q.InReach(t) && q.Feasible(t) :: Anticipated(q, t)
    ensures Exact(q, next) <==> forall t | t in Turns(q) && q.InReach(t) && q.Feasible(t) :: next.Some? && next.value <= t
  {
    ReachableRows(q, s);
    hide Reachable, Searches, GoodRows, Turns, Exact, Anticipated, Search.InReach, Search.Feasible, Search.Answers;
    forall t | t in Turns(q) && q.InReach(t) && q.Feasible(t) ensures Anticipated(q, t) <==> next.Some? && next.value <= t {
      AnticipatedIff(q, next, t);
    }
    if Exact(q, next) {
      forall t | q.InReach(t) && q.Feasible(t) ensures next.Some? && next.value <= t { ExactIsFirst(q, next, t); }
    } else {
      var e := MissedTurn(q, next);
    }
  }

  /** The stored rows have quantities and dates in order. */
  ghost predicate GoodRows(q: Search) {
    Positive(q.reqs) && forall i: nat | i < |q.reqs| :: q.reqs[i].hold.blocked.first <= q.reqs[i].hold.blocked.last
  }

  lemma ReachableRows(q: Search, s: Tenant)
    requires Reachable(q.env, s) && q.reqs == s.reqs
    ensures GoodRows(q)
  {
    ReachableInv(q.env, s);
    hide Reachable, Inv;
    RowsHaveDates(s);
    assert forall i: nat | i < |q.reqs| :: DatesOk(q.reqs[i].hold);
  }

  lemma AnticipatedIff(q: Search, next: Option<int>, t: int)
    requires q.At(q.main) in q.env && q.Answers(next)
    ensures Anticipated(q, t) <==> next.Some? && next.value <= t
  {
    hide Search.Feasible, Search.Candidates, Before;
  }

  lemma ExactIsFirst(q: Search, next: Option<int>, t: int)
    requires q.At(q.main) in q.env && Exact(q, next) && q.InReach(t) && q.Feasible(t)
    ensures next.Some? && next.value <= t
  {
    hide Search.Feasible;
  }

  lemma TriedInReach(q: Search, t: int)
    requires q.At(q.main) in q.env && q.Considered(t)
    ensures q.InReach(t)
  {
    hide Search.ConflictEnds;
  }

  /** An answer that is not exact passes over a day read off the rows. */
  lemma MissedTurn(q: Search, next: Option<int>) returns (e: int)
    requires Searches(q) && q.Answers(next) && GoodRows(q) && !Exact(q, next)
    ensures e in Turns(q) && q.InReach(e) && q.Feasible(e) && !(next.Some? && next.value <= e)
  {
    if next.Some? { TriedInReach(q, next.value); }
    hide Search.Feasible, Search.Candidates, Turns, Before;
    var f :| q.InReach(f) && q.Feasible(f) && (next.Some? ==> f < next.value);
    hide Search.Answers, Exact;
    e := EarliestExists(q, f);
    var l := EarliestTurns(q, e);
  }

  // ------------------------------------------------------------------ One case in which it is

  predicate WithinLimits(q: Search)
    requires q.At(q.main) in q.env
  {
    && |q.ReservationEnds(|q.reqs|)| <= QUERY_LIMIT && |q.BlockEnds(|q.blocks|)| <= QUERY_LIMIT
    && |q.Candidates()| <= CANDIDATE_LIMIT
  }

  lemma {:induction false} ReservationFetched(q: Search, n: nat, i: nat)
    requires q.At(q.main) in q.env && i < n <= |q.reqs| && q.Competes(i) && q.Fetched(q.reqs[i].hold.blocked)
    ensures q.reqs[i].hold.blocked.last in q.ReservationEnds(n)
  {
    if i < n - 1 { ReservationFetched(q, n - 1, i); }
  }

  lemma {:induction false} BlockFetched(q: Search, n: nat, k: nat)
    requires q.At(q.main) in q.env && k < n <= |q.blocks| && q.Fetched(q.blocks[k])
    ensures q.blocks[k].last in q.BlockEnds(n)
  {
    if k < n - 1 { BlockFetched(q, n - 1, k); }
  }

  /** Within the limits every fetched conflict end is among the ends the search works from. */
  lemma AllEndsUsed(q: Search, e: int)
    requires q.At(q.main) in q.env && WithinLimits(q)
    requires e in q.ReservationEnds(|q.reqs|) || e in q.BlockEnds(|q.blocks|)
    ensures e in q.ConflictEnds()
  {
    var a, b := q.ReservationEnds(|q.reqs|), q.BlockEnds(|q.blocks|);
    Sorted(a);
    Sorted(b);
    assert |multiset(a)| == |a| && |multiset(b)| == |b|;
    assert |multiset(Sort(a))| == |Sort(a)| && |multiset(Sort(b))| == |Sort(b)|;
    assert e in a ==> e in multiset(a) && e in multiset(Sort(a));
    assert e in b ==> e in multiset(b) && e in multiset(Sort(b));
  }

  lemma LimitOnCandidates(q: Search)
    requires q.At(q.main) in q.env && WithinLimits(q)
    ensures |q.Candidates()| <= CANDIDATE_LIMIT
  {
  }

  /** Location `l` has the buffer of the result in hand, no block on a single unit, and notice enough. */
  predicate Plain(q: Search, l: nat)
    requires q.At(l) in q.env && q.At(q.main) in q.env
  {
    && q.Lead(l) == q.Lead(q.main) && DayStart(q.Config(l), q.start) >= q.now + q.Config(l).noticeMinutes
    && forall u | u in q.Config(l).units && u in q.Config(l).unitBlocks :: q.Config(l).unitBlocks[u] == []
  }

  /** At a plain location only a reservation or a full block can have stood in the way. */
  lemma PlainStart(q: Search, l: nat, t: int) returns (r: Range)
    requires Searches(q) && l in q.locations && Plain(q, l) && GoodRows(q) && t > q.start
    requires q.FeasibleAt(l, t) && !q.FeasibleAt(l, t - 1)
    ensures r.last + q.Lead(q.main) == t && r.first <= q.Window(l, t - 1).last
    ensures FromReservation(q, l, r) || r in q.Config(l).fullBlocks
  {
    FeasibleMeans(q, l, t);
    FeasibleMeans(q, l, t - 1);
    hide Room, Search.FeasibleAt, Search.Feasible;
    assert Open(q, l, t - 1);
    r := RoomFollowsAConflict(q, l, t);
  }

  /** Its end was fetched, and is tried. */
  lemma PlainEnd(q: Search, l: nat, t: int, r: Range)
    requires Searches(q) && l in q.locations && Plain(q, l) && q.InReach(t)
    requires r.last + q.Lead(q.main) == t && r.first <= r.last
    requires FromReservation(q, l, r) || r in q.Config(l).fullBlocks
    ensures r.last in q.ReservationEnds(|q.reqs|) || r.last in q.BlockEnds(|q.blocks|)
  {
    assert q.Fetched(r);
    if FromReservation(q, l, r) {
      var i: nat :| i < |q.reqs| && q.reqs[i].hold.blocked == r && q.reqs[i].pool == q.At(l)
                    && Counted(q.reqs[i].hold, q.now) && q.skip != Some(i);
      ReservationFetched(q, |q.reqs|, i);
    } else {
      assert r in q.blocks;
      var k: nat :| k < |q.blocks| && q.blocks[k] == r;
      BlockFetched(q, |q.blocks|, k);
    }
  }

  lemma Proper(q: Search, l: nat, r: Range)
    requires q.At(l) in q.env && GoodRows(q)
    requires FromReservation(q, l, r) || r in q.Config(l).fullBlocks
    ensures r.first <= r.last
  {
    if FromReservation(q, l, r) {
      var i: nat :| i < |q.reqs| && q.reqs[i].hold.blocked == r;
    } else {
      var b :| b in q.Config(l).fullBlocks && b == r;
    }
  }

  lemma TriedWithin(q: Search, e: int)
    requires q.At(q.main) in q.env && WithinLimits(q) && q.InReach(e + q.Lead(q.main))
    requires e in q.ReservationEnds(|q.reqs|) || e in q.BlockEnds(|q.blocks|)
    ensures q.Considered(e + q.Lead(q.main))
  {
    AllEndsUsed(q, e);
    LimitOnCandidates(q);
    hide WithinLimits, Search.ConflictEnds, Search.Lead;
    var t := e + q.Lead(q.main);
    assert t in q.Candidates() && t !in Before(q.Candidates(), t);
    SubsetSize(Before(q.Candidates(), t), q.Candidates());
  }

  /** The earliest feasible start is tried: the search is complete. */
  lemma EarliestIsConsidered(q: Search, t: int)
    requires Searches(q) && WithinLimits(q) && GoodRows(q)
    requires (forall l | l in q.locations :: Plain(q, l)) && q.IsEarliest(t)
    ensures q.Considered(t)
  {
    hide Turns, Plain, WithinLimits, Search.FeasibleAt, Search.Feasible, Search.Considered, FromReservation, GoodRows;
    var l := EarliestTurns(q, t);
    hide Searches, Search.Known;
    var r := PlainStart(q, l, t);
    Proper(q, l, r);
    PlainEnd(q, l, t, r);
    TriedWithin(q, r.last);
  }

  lemma AnticipatedBy(q: Search, e: int, t: int)
    requires q.At(q.main) in q.env && q.Considered(e) && e <= t && q.Feasible(e)
    ensures Anticipated(q, t)
  {
  }

  /**
   In every reachable state, for a request that meets the notice rule, over locations with
   one buffer and no block on a single unit, and within the limits, the search is exact.
   */
  lemma SearchIsExact(q: Search, s: Tenant, next: Option<int>)
    requires Searches(q) && q.Answers(next) && WithinLimits(q) && Reachable(q.env, s) && q.reqs == s.reqs
    requires forall l | l in q.locations :: Plain(q, l)
    ensures Exact(q, next)
  {
    ReachableRows(q, s);
    ExactIff(q, s, next);
    hide GoodRows, Reachable, Exact, Anticipated,  Plain, WithinLimits, Turns, Search.Considered, Search.Feasible, Search.Answers, Searches;
    forall t | t in Turns(q) && q.InReach(t) && q.Feasible(t) ensures Anticipated(q, t) {
      var e := EarliestExists(q, t);
      EarliestIsConsidered(q, e);
      AnticipatedBy(q, e, t);
    }
  }
}
