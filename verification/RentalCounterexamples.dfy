/** Short runs that reach states one might have thought impossible. */
module RentalCounterexamples {
  import opened Common
  import opened RentalModel
  import opened RentalMachine
  import opened RentalInvariant
  import opened RentalSafety
  import opened RentalCapacity
  import opened RentalUnits

  const POOL := Pool(0, 0)

  /** One pool, no buffers, no notice, no blocks. */
  function Shop(units: set<nat>): Catalogue {
    map[POOL := PoolConfig(units, {}, map[], [], 0, 0, 0, 365, 0, 0, true, true, None)]
  }

  lemma ShopCheck(units: set<nat>, reqs: seq<Requirement>, start: int, end: int, now: int, skip: Option<nat>, enforce: bool)
    requires now <= start * MINUTES_PER_DAY <= now + 365 * MINUTES_PER_DAY && start <= end
    requires Load(reqs, POOL, Range(start, end), now, skip) < |units|
    ensures Check(Shop(units), reqs, POOL, start, end, 1, now, skip, enforce) == Ok(Range(start, end))
  {
    assert CountedUnits(Shop(units)[POOL], Range(start, end)) == units;
  }

  function Row(b: nat, expiresAt: Option<int>, start: int, end: int): Requirement {
    NewRow(b, expiresAt, Line(POOL, 1, start, end), Range(start, end))
  }

  /** Booking one piece. */
  lemma Book(units: set<nat>, s: Tenant, expiresAt: Option<int>, start: int, end: int)
    requires s.now <= start * MINUTES_PER_DAY <= s.now + 365 * MINUTES_PER_DAY && start <= end
    requires Load(s.reqs, POOL, Range(start, end), s.now, None) < |units|
    ensures Next(Shop(units), s, Create(expiresAt, [Line(POOL, 1, start, end)]))
            == Tenant(s.bookings + [Pending], s.reqs + [Row(|s.bookings|, expiresAt, start, end)], s.now, s.keys)
  {
    ShopCheck(units, s.reqs, start, end, s.now, None, true);
    hide Check;
    var b := |s.bookings|;
    var s1 := s.(bookings := s.bookings + [Pending]);
    var line := Line(POOL, 1, start, end);
    assert [line][1..] == [];
    assert AdmitAll(Shop(units), s1, b, expiresAt, [line]) == Ok(s1.(reqs := s1.reqs + [Row(b, expiresAt, start, end)]));
  }

  lemma {:induction false} StepByStep(env: Catalogue, states: seq<Tenant>, commands: seq<Command>)
    requires |states| == |commands| + 1
    requires forall k :: 0 <= k < |commands| ==> Next(env, states[k], commands[k]) == states[k + 1]
    ensures Run(env, states[0], commands) == states[|commands|]
  {
    hide Next;
    if commands != [] {
      StepByStep(env, states[..|commands|], commands[..|commands| - 1]);
    }
  }

  lemma ThreeSteps(env: Catalogue, s: Tenant, c1: Command, c2: Command, c3: Command)
    ensures Run(env, s, [c1, c2, c3]) == Next(env, Next(env, Next(env, s, c1), c2), c3)
  {
    hide Next;
    var s1 := Next(env, s, c1);
    var s2 := Next(env, s1, c2);
    StepByStep(env, [s, s1, s2, Next(env, s2, c3)], [c1, c2, c3]);
  }

  lemma Renewed(s: Tenant, r0: Requirement, r1: Requirement, until: int)
    requires s.bookings == [Pending, Pending] && s.reqs == [r0, r1] && until > s.now
    requires r0.booking == 0 && r0.hold.status == HoldStatus.PENDING && r1.booking == 1
    ensures Next(Shop({0}), s, Renew(0, until)) == s.(reqs := [r0.(hold := r0.hold.(expiresAt := Some(until))), r1])
  {
    assert r0 in RowsOf(s, 0);
    assert RenewRows(s.reqs, 0, until) == [r0.(hold := r0.hold.(expiresAt := Some(until))), r1];
  }

  lemma TwoCover(r0: Requirement, r1: Requirement, now: int, d: int)
    requires Weighs(r0, POOL, Day(d), now) && Weighs(r1, POOL, Day(d), now) && r0.quantity == r1.quantity == 1
    ensures !Fits(Shop({0}), [r0, r1], now, POOL, d)
  {
    assert [r0, r1][..1] == [r0] && [r0][..0] == [];
    assert Load([r0], POOL, Day(d), now, None) == 1;
    assert CountedUnits(Shop({0})[POOL], Day(d)) == {0};
  }

  /** A hold lapses, its unit is booked by someone else, and the renewal sells it a second time. */
  lemma RenewalOversells() returns (env: Catalogue, commands: seq<Command>, pool: Pool, day: int)
    ensures var s := Run(env, Empty(0), commands); !Fits(env, s.reqs, s.now, pool, day)
  {
    env, pool, day := Shop({0}), POOL, 5;
    var line := [Line(POOL, 1, 5, 6)];
    commands := [Create(Some(10), line), Tick(20), Create(Some(100), line), Renew(0, 200)];
    var r0, r1 := Row(0, Some(10), 5, 6), Row(1, Some(100), 5, 6);
    var s1 := Tenant([Pending], [r0], 0, map[]);
    var s2 := Tenant([Pending], [r0], 20, map[]);
    var s3 := Tenant([Pending, Pending], [r0, r1], 20, map[]);
    var s4 := Tenant([Pending, Pending], [r0.(hold := r0.hold.(expiresAt := Some(200))), r1], 20, map[]);
    Book({0}, Empty(0), Some(10), 5, 6);
    assert Next(env, s1, Tick(20)) == s2;
    assert Load([r0], POOL, Range(5, 6), 20, None) == 0;
    Book({0}, s2, Some(100), 5, 6);
    Renewed(s3, r0, r1, 200);
    hide Next, Fits;
    StepByStep(env, [Empty(0), s1, s2, s3, s4], commands);
    TwoCover(s4.reqs[0], s4.reqs[1], 20, 5);
  }

  // ------------------------------------------------------------------ One unit, two rentals

  /** Assigning one unit to a row that wants one. */
  lemma AssignOne(units: set<nat>, s: Tenant, i: nat, u: nat)
    requires i < |s.reqs| && s.reqs[i].booking < |s.bookings| && s.reqs[i].pool == POOL && u in units
    requires HoldLive(s.reqs[i].hold) && s.reqs[i].prep != READY && s.reqs[i].rows == [] && s.reqs[i].quantity == 1
    requires u !in TakenUnits(s, s.reqs[i].hold.blocked)
    ensures Next(Shop(units), s, Assign(i, [u], units))
            == s.(reqs := s.reqs[i := Assigned(s.reqs[i], u)])
  {
    var r := s.reqs[i];
    assert ActiveRows(r.rows) == {};
    FreeUnitsAssign(Shop(units), s, i, [u], units);
    DistinctLength([u]);
    assert Distinct([u]) == [u] by {
      assert Distinct([u])[0] in ToSet(Distinct([u])) && u in ToSet([u]);
    }
    AssignStep(units, s, i, u);
    hide RowStep;
  }

  lemma AssignStep(units: set<nat>, s: Tenant, i: nat, u: nat)
    requires i < |s.reqs| && s.reqs[i].booking < |s.bookings| && s.reqs[i].pool == POOL
    requires s.reqs[i].rows == [] && s.reqs[i].quantity == 1 && Distinct([u]) == [u]
    requires RowStep(Shop(units), s, Assign(i, [u], units)).Ok?
    ensures RowStep(Shop(units), s, Assign(i, [u], units)) == Ok(Assigned(s.reqs[i], u))
  {
    hide AssignTo, BarredUnits, TakenUnits;
    assert units * Stock(Shop(units), POOL) == units;
    var r := s.reqs[i];
    AssignedRow(r, u, units, BarredUnits(Shop(units), POOL, [u], r.hold.blocked), TakenUnits(s, r.hold.blocked));
  }

  lemma AssignedRow(r: Requirement, u: nat, eligible: set<nat>, barred: set<nat>, taken: set<nat>)
    requires AssignTo(r, [u], eligible, barred, taken).Ok? && Distinct([u]) == [u] && r.rows == [] && r.quantity == 1
    ensures AssignTo(r, [u], eligible, barred, taken) == Ok(Assigned(r, u))
  {
    assert ActiveRows(r.rows) == {};
    assert AssignTo(r, [u], eligible, barred, taken).value.rows == Assigned(r, u).rows;
  }

  function Assigned(r: Requirement, u: nat): Requirement {
    Log(r.(rows := [Assignment(u, r.hold.blocked, false)], assignedQty := 1), EventKind.ASSIGNED, 1, {}, ReqStatus.ASSIGNED)
  }

  function ExtendAlone(b: nat, end: int): Command {
    Extend(b, end, 0, "", "", "k")
  }

  /** Extending a booking of one row. */
  lemma ExtendOne(units: set<nat>, s: Tenant, r: Requirement, end: int)
    requires s.bookings == [Pending] && s.reqs == [r] && s.keys == map[] && r.booking == 0 && r.pool == POOL && r.quantity == 1
    requires Extendable(r) && r.status != ReqStatus.OVERDUE && r.hold.start < end && r.hold.end < end && units != {}
    requires s.now <= r.hold.start * MINUTES_PER_DAY <= s.now + 365 * MINUTES_PER_DAY
    ensures Next(Shop(units), s, ExtendAlone(0, end))
            == s.(reqs := [r.(hold := r.hold.(end := end, blocked := Range(r.hold.start, end)))],
                  keys := map[(ExtensionTable, "k") := ExtendRequest(0, end, 0, "", "")])
  {
    assert s.reqs[..0] == [];
    assert Load(s.reqs, POOL, Range(r.hold.start, end), s.now, Some(0)) == 0;
    assert units != {} ==> |units| > 0;
    ShopCheck(units, s.reqs, r.hold.start, end, s.now, Some(0), false);
    hide Check;
    assert Targets(s, 0) == {0};
    assert ExtensionCheck(Shop(units), s, 0, end) == Ok(Range(r.hold.start, end));
    assert ExtendRows(Shop(units), s, 0, end) == [r.(hold := r.hold.(end := end, blocked := Range(r.hold.start, end)))];
  }

  lemma HoldsOnly(s: Tenant, w: Range, i: nat, u: nat)
    requires i < |s.reqs| && forall j :: 0 <= j < |s.reqs| && j != i ==> RowUnits(s.reqs[j], w) == {}
    requires RowUnits(s.reqs[i], w) <= {u}
    ensures TakenUnits(s, w) <= {u}
  {
    TakenIsHeld(s, w);
    forall x | x in UnitsHeld(s.reqs, w) ensures x == u { HeldIsTaken(s.reqs, w, x); }
  }

  /** The first rental once unit 0 is assigned to it, before and after its extension to day 9. */
  function First(): Requirement { Assigned(Row(0, None, 5, 6), 0) }
  function FirstExtended(): Requirement { First().(hold := First().hold.(end := 9, blocked := Range(5, 9))) }
  function Second(): Requirement { Row(1, None, 8, 9) }

  const KEYS := map[(ExtensionTable, "k") := ExtendRequest(0, 9, 0, "", "")]

  lemma FirstHalf()
    ensures Next(Shop({0, 1}), Empty(0), Create(None, [Line(POOL, 1, 5, 6)])) == Tenant([Pending], [Row(0, None, 5, 6)], 0, map[])
    ensures Next(Shop({0, 1}), Tenant([Pending], [Row(0, None, 5, 6)], 0, map[]), Assign(0, [0], {0, 1}))
            == Tenant([Pending], [First()], 0, map[])
    ensures Next(Shop({0, 1}), Tenant([Pending], [First()], 0, map[]), ExtendAlone(0, 9)) == Tenant([Pending], [FirstExtended()], 0, KEYS)
  {
    hide Next;
    Book({0, 1}, Empty(0), None, 5, 6);
    var s := Tenant([Pending], [Row(0, None, 5, 6)], 0, map[]);
    HoldsOnly(s, Range(5, 6), 0, 1);
    AssignOne({0, 1}, s, 0, 0);
    ExtendOne({0, 1}, Tenant([Pending], [First()], 0, map[]), First(), 9);
  }

  lemma SecondHalf()
    ensures Next(Shop({0, 1}), Tenant([Pending], [FirstExtended()], 0, KEYS), Create(None, [Line(POOL, 1, 8, 9)]))
            == Tenant([Pending, Pending], [FirstExtended(), Second()], 0, KEYS)
    ensures Next(Shop({0, 1}), Tenant([Pending, Pending], [FirstExtended(), Second()], 0, KEYS), Assign(1, [0], {0, 1}))
            == Tenant([Pending, Pending], [FirstExtended(), Assigned(Second(), 0)], 0, KEYS)
  {
    hide Next;
    var s3 := Tenant([Pending], [FirstExtended()], 0, KEYS);
    assert s3.reqs[..0] == [];
    assert Load(s3.reqs, POOL, Range(8, 9), 0, None) == 1;
    Book({0, 1}, s3, None, 8, 9);
    var s4 := Tenant([Pending, Pending], [FirstExtended(), Second()], 0, KEYS);
    assert RowUnits(FirstExtended(), Range(8, 9)) == {} && RowUnits(Second(), Range(8, 9)) == {};
    HoldsOnly(s4, Range(8, 9), 1, 1);
    AssignOne({0, 1}, s4, 1, 0);
  }

  /**
   After an extension the same unit is assigned to a rental that overlaps the extended one:
   `RentalPromises.EveryUnitPromisedOnce` says exactly when no run does that.
   */
  lemma UnitPromisedTwice() returns (env: Catalogue, commands: seq<Command>, s: Tenant)
    ensures s == Run(env, Empty(0), commands)
    ensures Active(s.reqs, 0, 0) && Active(s.reqs, 1, 0) && s.reqs[0].rows[0].unit == s.reqs[1].rows[0].unit
    ensures Counted(s.reqs[0].hold, s.now) && Counted(s.reqs[1].hold, s.now)
    ensures Overlaps(s.reqs[0].hold.blocked, s.reqs[1].hold.blocked)
  {
    hide Next;
    env := Shop({0, 1});
    commands := [Create(None, [Line(POOL, 1, 5, 6)]), Assign(0, [0], {0, 1}), ExtendAlone(0, 9),
                 Create(None, [Line(POOL, 1, 8, 9)]), Assign(1, [0], {0, 1})];
    FirstHalf();
    SecondHalf();
    var s1, s2 := Tenant([Pending], [Row(0, None, 5, 6)], 0, map[]), Tenant([Pending], [First()], 0, map[]);
    var s3, s4 := Tenant([Pending], [FirstExtended()], 0, KEYS), Tenant([Pending, Pending], [FirstExtended(), Second()], 0, KEYS);
    s := Tenant([Pending, Pending], [FirstExtended(), Assigned(Second(), 0)], 0, KEYS);
    StepByStep(env, [Empty(0), s1, s2, s3, s4, s], commands);
  }

  // ------------------------------------------------------------------ Counted but stranded

  function Long(): Requirement { Row(0, None, 1, 10) }
  function Early(): Requirement { Row(1, None, 1, 3) }
  function Late(): Requirement { Row(2, None, 5, 7) }

  function ThreeBooked(): Tenant {
    Tenant([Pending, Pending, Pending], [Long(), Early(), Late()], 0, map[])
  }

  lemma BookThree()
    ensures Next(Shop({0, 1}), Empty(0), Create(None, [Line(POOL, 1, 1, 10)])) == Tenant([Pending], [Long()], 0, map[])
    ensures Next(Shop({0, 1}), Tenant([Pending], [Long()], 0, map[]), Create(None, [Line(POOL, 1, 1, 3)]))
            == Tenant([Pending, Pending], [Long(), Early()], 0, map[])
    ensures Next(Shop({0, 1}), Tenant([Pending, Pending], [Long(), Early()], 0, map[]), Create(None, [Line(POOL, 1, 5, 7)]))
            == ThreeBooked()
  {
    hide Next;
    Book({0, 1}, Empty(0), None, 1, 10);
    var s1, s2 := Tenant([Pending], [Long()], 0, map[]), Tenant([Pending, Pending], [Long(), Early()], 0, map[]);
    assert s1.reqs[..0] == [] && s2.reqs[..1] == s1.reqs;
    assert Load(s1.reqs, POOL, Range(1, 3), 0, None) == 1;
    Book({0, 1}, s1, None, 1, 3);
    assert Load(s1.reqs, POOL, Range(5, 7), 0, None) == 1;
    Book({0, 1}, s2, None, 5, 7);
  }

  lemma AssignShortOnes()
    ensures var s3 := ThreeBooked();
            var s4 := s3.(reqs := s3.reqs[1 := Assigned(Early(), 0)]);
            && Next(Shop({0, 1}), s3, Assign(1, [0], {0, 1})) == s4
            && Next(Shop({0, 1}), s4, Assign(2, [1], {0, 1})) == s4.(reqs := s4.reqs[2 := Assigned(Late(), 1)])
  {
    hide Next;
    var s3 := ThreeBooked();
    var s4 := s3.(reqs := s3.reqs[1 := Assigned(Early(), 0)]);
    HoldsOnly(s3, Range(1, 3), 0, 1);
    AssignOne({0, 1}, s3, 1, 0);
    assert RowUnits(Assigned(Early(), 0), Range(5, 7)) == {};
    HoldsOnly(s4, Range(5, 7), 0, 0);
    AssignOne({0, 1}, s4, 2, 1);
  }

  /**
   With every day within its units, a live reservation may still find no unit free over its
   whole range: `RentalAssignable.AssignableIff` says exactly when it does.
   */
  lemma ReservationStranded() returns (env: Catalogue, commands: seq<Command>, s: Tenant)
    ensures s == Run(env, Empty(0), commands) && DaysFit(env, s.reqs, s.now)
    ensures |s.reqs| > 0 && Counted(s.reqs[0].hold, s.now) && s.reqs[0].rows == [] && s.reqs[0].booking < |s.bookings|
    ensures s.reqs[0].pool in env
    ensures forall units: seq<nat>, eligible: set<nat> :: ToSet(units) <= env[s.reqs[0].pool].units
                                                          ==> RowStep(env, s, Assign(0, units, eligible)).Refused?
  {
    hide Next;
    env := Shop({0, 1});
    commands := [Create(None, [Line(POOL, 1, 1, 10)]), Create(None, [Line(POOL, 1, 1, 3)]), Create(None, [Line(POOL, 1, 5, 7)]),
                 Assign(1, [0], {0, 1}), Assign(2, [1], {0, 1})];
    BookThree();
    AssignShortOnes();
    var s1, s2, s3 := Tenant([Pending], [Long()], 0, map[]), Tenant([Pending, Pending], [Long(), Early()], 0, map[]), ThreeBooked();
    var s4 := s3.(reqs := s3.reqs[1 := Assigned(Early(), 0)]);
    s := s4.(reqs := s4.reqs[2 := Assigned(Late(), 1)]);
    StepByStep(env, [Empty(0), s1, s2, s3, s4, s], commands);
    NoRenewals(env, Empty(0), commands);
    EveryDayFits(env, 0, commands);
    forall units: seq<nat>, eligible: set<nat> | ToSet(units) <= {0, 1} ensures RowStep(env, s, Assign(0, units, eligible)).Refused? {
      BothTaken(env, s, units, eligible);
    }
  }

  lemma {:induction false} NoRenewals(env: Catalogue, s: Tenant, commands: seq<Command>)
    requires forall c | c in commands :: !c.Renew?
    ensures RenewalsHaveRoom(env, s, commands)
  {
    hide Run;
    if commands != [] { NoRenewals(env, s, commands[..|commands| - 1]); }
  }

  lemma BothTaken(env: Catalogue, s: Tenant, units: seq<nat>, eligible: set<nat>)
    requires s.reqs == [Long(), Assigned(Early(), 0), Assigned(Late(), 1)] && |s.bookings| > 0 && ToSet(units) <= {0, 1}
    ensures RowStep(env, s, Assign(0, units, eligible)).Refused?
  {
    var w := Long().hold.blocked;
    assert 0 in ActiveRows(s.reqs[1].rows) && s.reqs[1].rows[0].unit in RowUnits(s.reqs[1], w);
    assert 0 in ActiveRows(s.reqs[2].rows) && s.reqs[2].rows[0].unit in RowUnits(s.reqs[2], w);
    TakenIsHeld(s, w);
    HeldIsTaken(s.reqs, w, 0);
    HeldIsTaken(s.reqs, w, 1);
    var chosen := Distinct(units);
    if chosen != [] {
      assert chosen[0] in ToSet(chosen) && chosen[0] in {0, 1} && chosen[0] in TakenUnits(s, w);
    }
  }

  // ------------------------------------------------------------------ What is left behind

  function OneBooked(expiresAt: Option<int>): Tenant {
    Tenant([Pending], [Row(0, expiresAt, 5, 6)], 0, map[])
  }

  function OneAssigned(expiresAt: Option<int>): Tenant {
    Tenant([Pending], [Assigned(Row(0, expiresAt, 5, 6), 0)], 0, map[])
  }

  /** One piece booked, and the only unit assigned to it. */
  lemma BookAndAssign(expiresAt: Option<int>)
    requires expiresAt.Some? ==> expiresAt.value > 0
    ensures Next(Shop({0}), Empty(0), Create(expiresAt, [Line(POOL, 1, 5, 6)])) == OneBooked(expiresAt)
    ensures Next(Shop({0}), OneBooked(expiresAt), Assign(0, [0], {0})) == OneAssigned(expiresAt)
  {
    hide Next;
    Book({0}, Empty(0), expiresAt, 5, 6);
    HoldsOnly(OneBooked(expiresAt), Range(5, 6), 0, 1);
    AssignOne({0}, OneBooked(expiresAt), 0, 0);
  }

  /** A cancelled booking whose requirement still counts an assignment that was released. */
  lemma CounterLeftBehind() returns (env: Catalogue, commands: seq<Command>)
    ensures var s := Run(env, Empty(0), commands);
            && |s.reqs| == 1 && s.bookings == [Cancelled] && s.reqs[0].status == ReqStatus.CANCELLED
            && s.reqs[0].assignedQty == 1 && ActiveRows(s.reqs[0].rows) == {}
  {
    env := Shop({0});
    commands := [Create(None, [Line(POOL, 1, 5, 6)]), Assign(0, [0], {0}), Cancel(0, false)];
    BookAndAssign(None);
    var s2 := OneAssigned(None);
    var s3 := Next(env, s2, Cancel(0, false));
    CancelOne(env, s2);
    hide *;
    ThreeSteps(env, Empty(0), commands[0], commands[1], commands[2]);
  }

  lemma CancelOne(env: Catalogue, s: Tenant)
    requires s == OneAssigned(None)
    ensures var t := Next(env, s, Cancel(0, false));
            && |t.reqs| == 1 && t.bookings == [Cancelled] && t.reqs[0].status == ReqStatus.CANCELLED
            && t.reqs[0].assignedQty == 1 && ActiveRows(t.reqs[0].rows) == {}
  {
    assert LiveRowsOf(s, 0) == {s.reqs[0]} by { assert s.reqs[0] in LiveRowsOf(s, 0); }
    ReleasedActive(s.reqs[0].rows, ActiveRows(s.reqs[0].rows));
  }

  /** Once the hold has lapsed. */
  function LapsedTenant(): Tenant {
    OneAssigned(Some(10)).(now := 20)
  }

  lemma Lapse()
    ensures Next(Shop({0}), OneAssigned(Some(10)), Tick(20)) == LapsedTenant()
  {
  }

  const LAPSE := [Create(Some(10), [Line(POOL, 1, 5, 6)]), Assign(0, [0], {0}), Tick(20)]

  lemma LapsedRun()
    ensures Run(Shop({0}), Empty(0), LAPSE) == LapsedTenant()
  {
    BookAndAssign(Some(10));
    Lapse();
    hide *;
    ThreeSteps(Shop({0}), Empty(0), LAPSE[0], LAPSE[1], LAPSE[2]);
  }

  /** A swept requirement that is in play again after one of its assignments was released, on a dead reservation. */
  lemma CancelledRowReturns() returns (env: Catalogue, commands: seq<Command>)
    ensures var swept := Run(env, Empty(0), commands);
            var s := Next(env, swept, Release(0, 0));
            && |swept.reqs| == 1 == |s.reqs| && swept.reqs[0].status == ReqStatus.CANCELLED
            && InPlay(s.reqs[0]) && !HoldLive(s.reqs[0].hold) && s.bookings == [Cancelled]
  {
    env := Shop({0});
    commands := LAPSE + [Sweep];
    LapsedRun();
    SweepOne(env);
    hide Next, Shop, InPlay, HoldLive, LapsedTenant;
    assert commands[..|commands| - 1] == LAPSE;
  }

  lemma SweepOne(env: Catalogue)
    ensures var t := Next(env, LapsedTenant(), Sweep);
            |t.reqs| == 1 && t.reqs[0].status == ReqStatus.CANCELLED
    ensures var t := Next(env, Next(env, LapsedTenant(), Sweep), Release(0, 0));
            |t.reqs| == 1 && InPlay(t.reqs[0]) && !HoldLive(t.reqs[0].hold) && t.bookings == [Cancelled]
  {
    var s := LapsedTenant();
    var swept := s.(bookings := SweepBookings(s), reqs := SweepRows(s));
    assert s.reqs[0].booking == 0 && Lapsed(s.reqs[0], s.now);
    assert swept.bookings == [Cancelled];
    assert swept.reqs[0].rows == [Assignment(0, Range(5, 6), false)];
    assert 0 in ActiveRows(swept.reqs[0].rows);
  }

  /** A rejected request: the requirement is cancelled, but its log still ends in RESERVED. */
  lemma RejectionLeavesAGap() returns (env: Catalogue, commands: seq<Command>)
    ensures var s := Run(env, Empty(0), commands);
            && |s.reqs| == 1 && s.reqs[0].status == ReqStatus.CANCELLED && s.reqs[0].events != []
            && s.reqs[0].events[|s.reqs[0].events| - 1].to == ReqStatus.RESERVED
  {
    env := Shop({0});
    commands := [Create(None, [Line(POOL, 1, 5, 6)]), Reject(0)];
    Book({0}, Empty(0), None, 5, 6);
    var s1 := OneBooked(None);
    var s2 := Next(env, s1, Reject(0));
    assert s2.reqs == [Rejected(s1.reqs[0])];
    hide Next;
    StepByStep(env, [Empty(0), s1, s2], commands);
  }

  /** A lapsed hold is not counted but keeps its unit: the check finds room, and the only unit is a stray one. */
  lemma LapsedHoldKeepsUnit() returns (env: Catalogue, commands: seq<Command>)
    ensures var s := Run(env, Empty(0), commands);
            && POOL in env && env[POOL].shortage == 0 && env[POOL].units == {0}
            && Check(env, s.reqs, POOL, 5, 6, 1, s.now, None, true) == Ok(Range(5, 6))
            && TakenUnits(s, Range(5, 6)) == {0} == StrayUnits(env, s, POOL, Range(5, 6))
  {
    env := Shop({0});
    commands := LAPSE;
    LapsedRun();
    LapsedCheck();
    hide Check, Run, TakenUnits, StrayUnits;
  }

  lemma LapsedCheck()
    ensures Check(Shop({0}), LapsedTenant().reqs, POOL, 5, 6, 1, 20, None, true) == Ok(Range(5, 6))
    ensures TakenUnits(LapsedTenant(), Range(5, 6)) == {0} == StrayUnits(Shop({0}), LapsedTenant(), POOL, Range(5, 6))
  {
    var s := LapsedTenant();
    assert s.reqs[..0] == [];
    assert Load(s.reqs, POOL, Range(5, 6), 20, None) == 0;
    ShopCheck({0}, s.reqs, 5, 6, 20, None, true);
    hide Check;
    HoldsOnly(s, Range(5, 6), 0, 0);
    assert 0 in ActiveRows(s.reqs[0].rows);
    assert s.reqs[0].rows[0].unit in TakenUnits(s, Range(5, 6));
    assert CountedUnits(Shop({0})[POOL], Range(5, 6)) == {0};
    assert s.reqs[0].rows[0].unit in StrayUnits(Shop({0}), s, POOL, Range(5, 6));
  }
}
