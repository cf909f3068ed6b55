/**
 Histories in which stock, blocks and policies change. Handouts, returns and inspections move
 units in and out of the states that are counted, blocks come and go, and policies are
 edited. As long as none of this is ever more generous than a fixed catalogue, with the same
 buffers and the same stock, each such history reaches only states that a history under the
 fixed catalogue reaches; so every promise about reachable states holds there too.
 */
module RentalVarying {
  import opened Common
  import opened RentalModel
  import opened RentalMachine
  import opened RentalSafety
  import opened RentalCapacity

  /** Every block of `big` on a unit is also one of `c`. */
  predicate MoreBlocks(c: PoolConfig, big: PoolConfig) {
    && (forall b | b in big.fullBlocks :: b in c.fullBlocks)
    && forall u | u in big.unitBlocks :: u in c.unitBlocks && forall b | b in big.unitBlocks[u] :: b in c.unitBlocks[u]
  }

  /** `c` counts no unit, opens no day and allows no shortage that `big` does not. */
  predicate Tighter(c: PoolConfig, big: PoolConfig) {
    && c.units <= big.units && c.units + c.others <= big.units + big.others && MoreBlocks(c, big)
    && c.beforeMinutes == big.beforeMinutes && c.afterMinutes == big.afterMinutes && c.utcOffset == big.utcOffset
    && c.noticeMinutes >= big.noticeMinutes && c.maxAdvanceDays <= big.maxAdvanceDays && c.shortage <= big.shortage
    && (c.offered ==> big.offered) && (c.published ==> big.published)
    && (big.availableFrom.Some? ==> c.availableFrom.Some? && big.availableFrom.value <= c.availableFrom.value)
  }

  predicate TighterAll(env: Catalogue, big: Catalogue) {
    forall pool | pool in env :: pool in big && Tighter(env[pool], big[pool])
  }

  // ------------------------------------------------------------------ One check

  lemma TighterBlocks(c: PoolConfig, big: PoolConfig, w: Range)
    requires Tighter(c, big)
    ensures forall u :: UnitBlocked(big, u, w) ==> UnitBlocked(c, u, w)
    ensures FullyBlocked(big, w) ==> FullyBlocked(c, w)
    ensures Capacity(c, w) <= Capacity(big, w)
  {
    forall u | UnitBlocked(big, u, w) ensures UnitBlocked(c, u, w) {
      var b :| b in big.unitBlocks[u] && Overlaps(b, w);
      assert b in c.unitBlocks[u];
    }
    SubsetSize(CountedUnits(c, w), CountedUnits(big, w));
  }

  lemma MoreAdvance(a: nat, b: nat)
    requires a <= b
    ensures a * MINUTES_PER_DAY <= b * MINUTES_PER_DAY
  {
  }

  /** What the tighter catalogue admits, the wider one admits for the same dates. */
  lemma CheckTighter(env: Catalogue, big: Catalogue, reqs: seq<Requirement>, pool: Pool, start: int, end: int, quantity: int,
                     now: int, skip: Option<nat>, enforce: bool)
    requires TighterAll(env, big) && Check(env, reqs, pool, start, end, quantity, now, skip, enforce).Ok?
    ensures Check(big, reqs, pool, start, end, quantity, now, skip, enforce)
            == Check(env, reqs, pool, start, end, quantity, now, skip, enforce)
  {
    var c, wide := env[pool], big[pool];
    TighterBlocks(c, wide, BlockedRange(c, start, end));
    MoreAdvance(c.maxAdvanceDays, wide.maxAdvanceDays);
    hide Load, UnitBlocked, FullyBlocked, Capacity, MoreBlocks;
  }

  // ------------------------------------------------------------------ One transaction

  lemma {:induction false} AdmitTighter(env: Catalogue, big: Catalogue, s: Tenant, b: nat, expiresAt: Option<int>, lines: seq<Line>)
    requires TighterAll(env, big) && AdmitAll(env, s, b, expiresAt, lines).Ok?
    ensures AdmitAll(big, s, b, expiresAt, lines) == AdmitAll(env, s, b, expiresAt, lines)
    decreases lines
  {
    if lines != [] {
      var line := lines[0];
      CheckTighter(env, big, s.reqs, line.pool, line.start, line.end, line.quantity, s.now, None, true);
      hide Check, TighterAll;
      var w := Check(env, s.reqs, line.pool, line.start, line.end, line.quantity, s.now, None, true).value;
      AdmitTighter(env, big, s.(reqs := s.reqs + [NewRow(b, expiresAt, line, w)]), b, expiresAt, lines[1..]);
    }
  }

  lemma AssignTighter(r: Requirement, units: seq<nat>, eligible: set<nat>, wide: set<nat>, barred: set<nat>, fewer: set<nat>, taken: set<nat>)
    requires eligible <= wide && AssignTo(r, units, eligible, barred, taken).Ok?
    requires ToSet(units) * fewer <= barred
    ensures AssignTo(r, units, wide, fewer, taken) == AssignTo(r, units, eligible, barred, taken)
  {
    var chosen := Distinct(units);
    assert ToSet(chosen) * (fewer + taken) <= ToSet(chosen) * (barred + taken);
    hide Distinct, ActiveRows;
  }

  lemma AssignStepTighter(env: Catalogue, big: Catalogue, s: Tenant, i: nat, units: seq<nat>, eligible: set<nat>)
    requires TighterAll(env, big) && i < |s.reqs| && s.reqs[i].booking < |s.bookings|
    requires RowStep(env, s, Assign(i, units, eligible)).Ok?
    ensures RowStep(big, s, Assign(i, units, eligible)) == RowStep(env, s, Assign(i, units, eligible))
  {
    var r := s.reqs[i];
    var w := r.hold.blocked;
    AssignedFromStock(r, units, eligible, Stock(env, r.pool), BarredUnits(env, r.pool, units, w), TakenUnits(s, w));
    assert r.pool in env;
    TighterBlocks(env[r.pool], big[r.pool], w);
    hide UnitBlocked, AssignTo, TakenUnits, MoreBlocks;
    AssignTighter(r, units, eligible * Stock(env, r.pool), eligible * Stock(big, r.pool),
                  BarredUnits(env, r.pool, units, w), BarredUnits(big, r.pool, units, w), TakenUnits(s, w));
  }

  lemma AssignedFromStock(r: Requirement, units: seq<nat>, eligible: set<nat>, stock: set<nat>, barred: set<nat>, taken: set<nat>)
    requires AssignTo(r, units, eligible * stock, barred, taken).Ok?
    ensures stock != {}
  {
    hide ActiveRows;
    var chosen := Distinct(units);
    assert chosen[0] in ToSet(chosen);
  }

  lemma RowStepTighter(env: Catalogue, big: Catalogue, s: Tenant, c: Command)
    requires TighterAll(env, big) && OneRow(c) && c.req < |s.reqs| && s.reqs[c.req].booking < |s.bookings| && RowStep(env, s, c).Ok?
    ensures RowStep(big, s, c) == RowStep(env, s, c)
  {
    if c.Assign? {
      AssignStepTighter(env, big, s, c.req, c.units, c.eligible);
    } else if c.Substitute? {
      var r := s.reqs[c.req];
      CheckTighter(env, big, s.reqs, c.pool, r.hold.start, r.hold.end, r.quantity, s.now, Some(c.req), false);
      hide Check, TighterAll;
    } else {
      hide RecordOn, ReleaseFrom, PrepareIt;
    }
  }

  lemma ExtendTighter(env: Catalogue, big: Catalogue, s: Tenant, b: nat, end: int)
    requires TighterAll(env, big) && ExtendBooking(env, s, b, end).Ok?
    ensures ExtendBooking(big, s, b, end) == ExtendBooking(env, s, b, end)
  {
    forall i | i in Targets(s, b) ensures ExtensionCheck(big, s, i, end) == ExtensionCheck(env, s, i, end) {
      var r := s.reqs[i];
      assert ExtensionCheck(env, s, i, end).Ok?;
      CheckTighter(env, big, s.reqs, r.pool, r.hold.start, end, r.quantity, s.now, Some(i), false);
    }
    hide ExtensionCheck, TighterAll;
    assert ExtendRows(big, s, b, end) == ExtendRows(env, s, b, end);
  }

  /** A transaction that the tighter catalogue lets through does the same under the wider one. */
  lemma AttemptTighter(env: Catalogue, big: Catalogue, s: Tenant, c: Command)
    requires TighterAll(env, big) && Attempt(env, s, c).Ok?
    ensures Attempt(big, s, c) == Attempt(env, s, c)
  {
    hide TighterAll, RowStep, AdmitAll, ExtendBooking, Enter, Decide, SweepRows, SweepBookings;
    if OneRow(c) {
      RowStepTighter(env, big, s, c);
    } else if c.Create? {
      AdmitTighter(env, big, s.(bookings := s.bookings + [Pending]), |s.bookings|, c.expiresAt, c.lines);
    } else if c.Extend? {
      ExtendTighter(env, big, s, c.booking, c.end);
    }
  }

  /** So a step either changes nothing or is the step under the wider catalogue. */
  lemma NextTighter(env: Catalogue, big: Catalogue, s: Tenant, c: Command)
    requires TighterAll(env, big)
    ensures Next(env, s, c) == s || Next(env, s, c) == Next(big, s, c)
  {
    hide TighterAll, Attempt;
    if Attempt(env, s, c).Ok? { AttemptTighter(env, big, s, c); }
  }

  // ------------------------------------------------------------------ Histories

  /** A transaction, and the catalogue at the time. */
  datatype Moment = Moment(env: Catalogue, command: Command)

  function RunUnder(s: Tenant, moments: seq<Moment>): Tenant {
    if moments == [] then s
    else
      var m := moments[|moments| - 1];
      Next(m.env, RunUnder(s, moments[..|moments| - 1]), m.command)
  }

  /** Histories under changing catalogues reach nothing new: all that holds in reachable states holds in them. */
  lemma {:induction false} VaryingIsReachable(big: Catalogue, now: int, moments: seq<Moment>)
    requires forall m | m in moments :: TighterAll(m.env, big)
    ensures Reachable(big, RunUnder(Empty(now), moments))
  {
    hide Next, TighterAll;
    if moments == [] {
      assert Run(big, Empty(now), []) == Empty(now);
    } else {
      var m, mid := moments[|moments| - 1], RunUnder(Empty(now), moments[..|moments| - 1]);
      VaryingIsReachable(big, now, moments[..|moments| - 1]);
      NextTighter(m.env, big, mid, m.command);
      OneMoreStep(big, mid, m.command);
    }
  }

  lemma OneMoreStep(env: Catalogue, s: Tenant, c: Command)
    requires Reachable(env, s)
    ensures Reachable(env, Next(env, s, c))
  {
    hide Next;
    var now: int, commands: seq<Command> :| s == Run(env, Empty(now), commands);
    assert (commands + [c])[..|commands|] == commands;
    assert Next(env, s, c) == Run(env, Empty(now), commands + [c]);
  }

  /** In every state that the history passes through, every day is within the units and shortage limit of `big`. */
  ghost predicate AlwaysFitsUnder(big: Catalogue, s: Tenant, moments: seq<Moment>) {
    var t := RunUnder(s, moments);
    DaysFit(big, t.reqs, t.now) && (moments != [] ==> AlwaysFitsUnder(big, s, moments[..|moments| - 1]))
  }

  /** Every renewal that the history carries out finds room under `big`. */
  ghost predicate RenewalsHaveRoomUnder(big: Catalogue, s: Tenant, moments: seq<Moment>) {
    moments != [] ==>
      var mid, m := RunUnder(s, moments[..|moments| - 1]), moments[|moments| - 1];
      && RenewalsHaveRoomUnder(big, s, moments[..|moments| - 1])
      && (m.command.Renew? && Attempt(m.env, mid, m.command).Ok? ==> HasRoom(big, mid, m.command.booking))
  }

  lemma NextDaysUnder(env: Catalogue, big: Catalogue, s: Tenant, c: Command)
    requires TighterAll(env, big) && Inv(s) && DaysFit(big, s.reqs, s.now)
    ensures var t := Next(env, s, c);
            DaysFit(big, t.reqs, t.now) <==> (c.Renew? && Attempt(env, s, c).Ok? ==> HasRoom(big, s, c.booking))
  {
    hide TighterAll, Attempt, Inv, DaysFit, HasRoom;
    if Attempt(env, s, c).Ok? {
      AttemptTighter(env, big, s, c);
      NextFits(big, s, c);
    }
  }

  /**
   However the counted units, blocks and policies change within `big`, no day is ever sold
   beyond the units and shortage limit of `big`, exactly when each renewal had room.
   */
  lemma {:induction false} EveryDayFitsUnder(big: Catalogue, now: int, moments: seq<Moment>)
    requires forall m | m in moments :: TighterAll(m.env, big)
    ensures AlwaysFitsUnder(big, Empty(now), moments) <==> RenewalsHaveRoomUnder(big, Empty(now), moments)
  {
    hide Attempt, Next, TighterAll, DaysFit, HasRoom;
    if moments == [] {
      NothingSold(big, now);
    } else {
      var before, m := moments[..|moments| - 1], moments[|moments| - 1];
      var mid := RunUnder(Empty(now), before);
      EveryDayFitsUnder(big, now, before);
      VaryingIsReachable(big, now, before);
      ReachableInv(big, mid);
      hide Inv, Reachable;
      if AlwaysFitsUnder(big, Empty(now), before) {
        assert DaysFit(big, mid.reqs, mid.now);
        NextDaysUnder(m.env, big, mid, m.command);
      }
    }
  }

  lemma NothingSold(big: Catalogue, now: int)
    ensures DaysFit(big, Empty(now).reqs, now)
  {
  }
}
