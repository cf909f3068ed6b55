/**
 The services themselves: loops and updates in place on the tenant's tables. Every
 method commits exactly what `Apply` says, or changes nothing and reports its refusal.
 */
module RentalDesk {
  import opened Common
  import opened RentalModel
  import opened RentalMachine
  import opened RentalSafety

  /** A row of booking `b` cancelled, when it is in play. */
  function CancelledIn(r: Requirement, b: nat): Requirement {
    if r.booking == b && InPlay(r) then Log(r, EventKind.CANCELLED, r.quantity, {}, ReqStatus.CANCELLED) else r
  }

  /** `t` and `refusal` are what the transaction `c` makes of `s`. */
  ghost predicate Follows(env: Catalogue, s: Tenant, c: Command, t: Tenant, refusal: Option<Reason>) {
    match Apply(env, s, c)
    case Ok(next) => t == next && refusal == None
    case Refused(why) => t == s && refusal == Some(why)
  }

  /** `t` is `s` with row `i` rewritten as `outcome` says. */
  ghost predicate Stored(s: Tenant, i: nat, outcome: Outcome<Requirement>, t: Tenant, refusal: Option<Reason>)
    requires i < |s.reqs|
  {
    match outcome
    case Ok(r) => t == s.(reqs := s.reqs[i := r]) && refusal == None
    case Refused(why) => t == s && refusal == Some(why)
  }

  lemma RowFollows(env: Catalogue, s: Tenant, c: Command, t: Tenant, refusal: Option<Reason>)
    requires OneRow(c) && KeyOf(c) == None && c.req < |s.reqs| && s.reqs[c.req].booking < |s.bookings|
    requires Stored(s, c.req, RowStep(env, s, c), t, refusal)
    ensures Follows(env, s, c, t, refusal)
  {
    hide RowStep;
  }

  /** A keyed transaction whose key is new: what it does, and its key remembered when it succeeds. */
  lemma KeyedFollows(env: Catalogue, s: Tenant, c: Command, t: Tenant, refusal: Option<Reason>)
    requires KeyOf(c).Some? && KeyOf(c).value.0 !in s.keys
    requires match Attempt(env, s, c)
             case Ok(next) => refusal == None && t == next.(keys := next.keys[KeyOf(c).value.0 := KeyOf(c).value.1])
             case Refused(why) => refusal == Some(why) && t == s
    ensures Follows(env, s, c, t, refusal)
  {
    hide Attempt;
  }

  lemma ReplayFollows(env: Catalogue, s: Tenant, c: Command)
    requires KeyOf(c).Some? && KeyOf(c).value.0 in s.keys
    ensures Follows(env, s, c, s, if s.keys[KeyOf(c).value.0] == KeyOf(c).value.1 then None else Some(IdempotencyKeyReused))
  {
    hide Attempt;
  }

  lemma FollowsKeeps(env: Catalogue, s: Tenant, c: Command, t: Tenant, refusal: Option<Reason>)
    requires Inv(s) && Follows(env, s, c, t, refusal)
    ensures Inv(t)
  {
    hide Apply, Inv;
    ApplyKeeps(env, s, c);
  }

  lemma ActiveStep(rows: seq<Assignment>, k: nat)
    requires k < |rows|
    ensures ActiveRows(rows[..k + 1]) == if rows[k].released then ActiveRows(rows[..k]) else ActiveRows(rows[..k]) + {k}
    ensures |ActiveRows(rows[..k + 1])| == |ActiveRows(rows[..k])| + if rows[k].released then 0 else 1
  {
  }

  lemma NothingActiveYet(rows: seq<Assignment>)
    ensures |ActiveRows(rows[..0])| == 0
  {
    assert ActiveRows(rows[..0]) == {};
  }

  /** Counts the assignments not yet released. */
  method CountActive(rows: seq<Assignment>) returns (n: nat)
    ensures n == |ActiveRows(rows)|
  {
    n := 0;
    assert ActiveRows(rows[..0]) == {};
    for k := 0 to |rows|
      invariant n == |ActiveRows(rows[..k])|
    {
      ActiveStep(rows, k);
      if !rows[k].released { n := n + 1; }
    }
    assert rows[..|rows|] == rows;
  }

  /** Collects the assignment ids that the events of one kind name. */
  method CollectIds(events: seq<Event>, kind: EventKind) returns (ids: set<nat>)
    ensures ids == IdsOf(events, kind)
  {
    ids := {};
    for k := 0 to |events|
      invariant ids == IdsOf(events[..k], kind)
    {
      assert events[..k + 1][..k] == events[..k];
      if events[k].kind == kind { ids := ids + events[k].ids; }
    }
    assert events[..|events|] == events;
  }

  method MarkReleased(rows: seq<Assignment>, ids: set<nat>) returns (next: seq<Assignment>)
    ensures next == ReleaseRows(rows, ids)
  {
    next := rows;
    for k := 0 to |rows|
      invariant |next| == |rows|
      invariant forall j :: 0 <= j < |rows| ==> next[j] == if j < k && j in ids then rows[j].(released := true) else rows[j]
    {
      if k in ids { next := next[k := next[k].(released := true)]; }
    }
  }

  /** A new assignment row for each unit. */
  method AddAssignments(rows: seq<Assignment>, units: seq<nat>, w: Range) returns (next: seq<Assignment>)
    ensures next == rows + seq(|units|, j requires 0 <= j < |units| => Assignment(units[j], w, false))
  {
    next := rows;
    for k := 0 to |units|
      invariant |next| == |rows| + k && next[..|rows|] == rows
      invariant forall j :: 0 <= j < k ==> next[|rows| + j] == Assignment(units[j], w, false)
    {
      next := next + [Assignment(units[k], w, false)];
    }
  }

  /** The check that none of the ids is refused by `bad`, one id at a time. */
  method AnyIn(ids: seq<nat>, bad: set<nat>) returns (found: bool)
    ensures found <==> ToSet(ids) * bad != {}
  {
    found := false;
    for k := 0 to |ids|
      invariant found <==> exists j :: 0 <= j < k && ids[j] in bad
    {
      if ids[k] in bad { found := true; }
    }
    if found {
      var j :| 0 <= j < |ids| && ids[j] in bad;
      assert ids[j] in ToSet(ids) * bad;
    }
  }

  method AnyOutside(ids: seq<nat>, good: set<nat>) returns (found: bool)
    ensures found <==> !(ToSet(ids) <= good)
  {
    found := false;
    for k := 0 to |ids|
      invariant found <==> exists j :: 0 <= j < k && ids[j] !in good
    {
      if ids[k] !in good { found := true; }
    }
    if found {
      var j :| 0 <= j < |ids| && ids[j] !in good;
      assert ids[j] in ToSet(ids);
    }
  }

  /** Which assignment rows an event is about. */
  method ResolveRows(r: Requirement, kind: EventKind, quantity: int, ids: seq<nat>) returns (outcome: Outcome<set<nat>>)
    ensures outcome == ResolveAssignments(r, kind, quantity, ids)
  {
    if |ToSet(ids)| != quantity { return Refused(SelectOnePerItem); }
    var handedOut := CollectIds(r.events, EventKind.HANDED_OUT);
    var returned := CollectIds(r.events, EventKind.RETURNED);
    var lost := CollectIds(r.events, EventKind.MARKED_LOST);
    var out := handedOut - (returned + lost);
    if kind == EventKind.HANDED_OUT {
      var again := AnyIn(ids, out);
      if again { return Refused(AlreadyHandedOut); }
    } else {
      var notOut := AnyOutside(ids, out);
      if notOut { return Refused(NotOut); }
    }
    var inactive := AnyOutside(ids, ActiveRows(r.rows));
    if inactive { return Refused(AssignmentNotActive); }
    return Ok(ToSet(ids));
  }

  /** Releases the returned or lost units and writes the counters and the event. */
  method WriteEvent(r: Requirement, kind: EventKind, quantity: int, chosen: set<nat>, checks: UnitChecks)
    returns (outcome: Outcome<Requirement>)
    ensures outcome == Recorded(r, kind, quantity, chosen, checks)
  {
    hide NextCounters, ReleaseRows;
    if kind == EventKind.HANDED_OUT && !checks.inspected { return Refused(PreRentalInspectionRequired); }
    var next := NextCounters(r, kind, quantity);
    if next.Refused? { return Refused(next.reason); }
    if kind == EventKind.MARKED_LOST && !checks.actor { return Refused(LossActorRequired); }
    if !checks.lifecycleAllows { return Refused(LifecycleTransitionInvalid); }
    var rows := r.rows;
    if kind != EventKind.HANDED_OUT {
      rows := MarkReleased(rows, chosen);
    }
    return Ok(next.value.(rows := rows, events := r.events + [Event(kind, quantity, chosen, r.status, next.value.status)]));
  }

  method RecordRow(r: Requirement, booking: BookingStatus, kind: EventKind, quantity: int, ids: seq<nat>, checks: UnitChecks)
    returns (outcome: Outcome<Requirement>)
    ensures outcome == RecordOn(r, booking, kind, quantity, ids, checks)
  {
    hide ResolveAssignments, Recorded;
    var early := None;
    if quantity < 1 {
      early := Some(QuantityInvalid);
    } else if !IsHandover(kind) {
      early := Some(DedicatedWorkflow);
    } else if !EventAllowed(booking, kind) {
      early := Some(FulfillmentBookingStatusInvalid);
    } else if kind == EventKind.HANDED_OUT && r.prep != READY {
      early := Some(PreparationRequired);
    }
    assert early == EventRefusal(r, booking, kind, quantity);
    hide EventRefusal;
    if early.Some? { return Refused(early.value); }
    var resolved := ResolveRows(r, kind, quantity, ids);
    if resolved.Refused? { return Refused(resolved.reason); }
    outcome := WriteEvent(r, kind, quantity, resolved.value, checks);
  }

  class Desk {
    const env: Catalogue
    var bookings: seq<BookingStatus>
    var reqs: seq<Requirement>
    var now: int
    var keys: map<(KeyTable, string), Request>

    ghost function State(): Tenant
      reads this
    {
      Tenant(bookings, reqs, now, keys)
    }

    ghost predicate Valid()
      reads this
    {
      Inv(State())
    }

    constructor (env: Catalogue, now: int)
      ensures Valid() && this.env == env && State() == Empty(now)
    {
      this.env := env;
      this.now := now;
      bookings := [];
      reqs := [];
      keys := map[];
    }

    // ---------------------------------------------------------------- Physical units

    /** Whether a unit has an active assignment, on any requirement, that overlaps `w`. */
    method AnyTaken(units: seq<nat>, w: Range) returns (found: bool)
      ensures found <==> ToSet(units) * TakenUnits(State(), w) != {}
    {
      found := false;
      for i := 0 to |reqs|
        invariant found <==> exists j: nat, a: nat :: j < i && a < |reqs[j].rows| && Clashes(reqs[j].rows[a], units, w)
      {
        for k := 0 to |reqs[i].rows|
          invariant found <==> (exists j: nat, a: nat :: j < i && a < |reqs[j].rows| && Clashes(reqs[j].rows[a], units, w))
                               || (exists a: nat :: a < k && Clashes(reqs[i].rows[a], units, w))
        {
          if Clashes(reqs[i].rows[k], units, w) { found := true; }
        }
      }
      if found {
        var j: nat, a: nat :| j < |reqs| && a < |reqs[j].rows| && Clashes(reqs[j].rows[a], units, w);
        assert reqs[j].rows[a].unit in ToSet(units) * TakenUnits(State(), w);
      }
    }

    static predicate Clashes(a: Assignment, units: seq<nat>, w: Range) {
      !a.released && a.unit in units && Overlaps(a.range, w)
    }

    method AssignRow(r: Requirement, units: seq<nat>, eligible: set<nat>) returns (outcome: Outcome<Requirement>)
      ensures outcome == AssignTo(r, units, eligible, BarredUnits(env, r.pool, units, r.hold.blocked),
                                  TakenUnits(State(), r.hold.blocked))
    {
      hide BarredUnits, TakenUnits, Distinct, ActiveRows;
      var chosen := Distinct(units);
      var existing := CountActive(r.rows);
      if !HoldLive(r.hold) { return Refused(ReservationNotActive); }
      if r.prep == READY { return Refused(PreparationReopenRequired); }
      if chosen == [] { return Refused(NoUnits); }
      if existing + |chosen| > r.quantity { return Refused(StockUnitAssignmentConflict); }
      if exists u | u in chosen :: u !in eligible { return Refused(StockUnitNotEligible); }
      var blocked := AnyIn(chosen, BarredUnits(env, r.pool, units, r.hold.blocked));
      var taken := AnyTaken(chosen, r.hold.blocked);
      assert blocked || taken <==> ToSet(chosen) * (BarredUnits(env, r.pool, units, r.hold.blocked) + TakenUnits(State(), r.hold.blocked)) != {};
      if blocked || taken { return Refused(StockUnitAssignmentConflict); }
      var rows := AddAssignments(r.rows, chosen, r.hold.blocked);
      var assignedQty := existing + |chosen|;
      var status := if assignedQty == r.quantity then ReqStatus.ASSIGNED else PARTIALLY_ASSIGNED;
      var event := Event(EventKind.ASSIGNED, |chosen|, {}, r.status, status);
      return Ok(r.(rows := rows, assignedQty := assignedQty, status := status, events := r.events + [event]));
    }

    /** Writes the rewritten row back, or nothing when it was refused. */
    method Store(i: nat, outcome: Outcome<Requirement>) returns (refusal: Option<Reason>)
      requires i < |reqs|
      modifies `reqs
      ensures Stored(old(State()), i, outcome, State(), refusal)
    {
      match outcome
      case Ok(r) => reqs := reqs[i := r]; refusal := None;
      case Refused(why) => refusal := Some(why);
    }

    /** `eligible` are the units in a fit state; only those stocked in the row's pool are found. */
    method AssignUnits(i: nat, units: seq<nat>, eligible: set<nat>) returns (refusal: Option<Reason>)
      requires Valid()
      modifies `reqs
      ensures Follows(env, old(State()), Assign(i, units, eligible), State(), refusal) && Valid()
    {
      hide Inv, AssignTo;
      if i >= |reqs| || reqs[i].booking >= |bookings| { return Some(RequirementNotFound); }
      var outcome := AssignRow(reqs[i], units, eligible * Stock(env, reqs[i].pool));
      refusal := Store(i, outcome);
      RowFollows(env, old(State()), Assign(i, units, eligible), State(), refusal);
      FollowsKeeps(env, old(State()), Assign(i, units, eligible), State(), refusal);
    }

    method ReleaseUnit(i: nat, row: nat) returns (refusal: Option<Reason>)
      requires Valid()
      modifies `reqs
      ensures Follows(env, old(State()), Release(i, row), State(), refusal) && Valid()
    {
      hide Inv;
      if i >= |reqs| || reqs[i].booking >= |bookings| { return Some(RequirementNotFound); }
      var r := reqs[i];
      var outcome;
      if row >= |r.rows| || r.rows[row].released {
        outcome := Refused(AssignmentNotFound);
      } else if r.handedOutQty > 0 {
        outcome := Refused(HandedOut);
      } else if r.prep == READY {
        outcome := Refused(PreparationReopenRequired);
      } else {
        var rows := MarkReleased(r.rows, {row});
        var left := Max(0, r.assignedQty - 1);
        var status := if left > 0 then PARTIALLY_ASSIGNED else ReqStatus.RESERVED;
        var event := Event(EventKind.ASSIGNMENT_RELEASED, 1, {row}, r.status, status);
        outcome := Ok(r.(rows := rows, assignedQty := left, status := status, events := r.events + [event]));
      }
      refusal := Store(i, outcome);
      RowFollows(env, old(State()), Release(i, row), State(), refusal);
      FollowsKeeps(env, old(State()), Release(i, row), State(), refusal);
    }

    // ---------------------------------------------------------------- Availability

    /** The counted reservations of a pool that overlap `w`, but for the one left out. */
    method SumReserved(pool: Pool, w: Range, skip: Option<nat>) returns (sum: int)
      ensures sum == Load(reqs, pool, w, now, skip)
    {
      sum := 0;
      for i := 0 to |reqs|
        invariant sum == Load(reqs[..i], pool, w, now, skip)
      {
        assert reqs[..i + 1][..i] == reqs[..i];
        if skip != Some(i) && Weighs(reqs[i], pool, w, now) { sum := sum + reqs[i].quantity; }
      }
      assert reqs[..|reqs|] == reqs;
    }

    /** The units of a pool without a block during `w`. */
    method CountUnits(c: PoolConfig, w: Range) returns (n: nat)
      ensures n == Capacity(c, w)
    {
      var free, rest := {}, c.units;
      while rest != {}
        invariant rest <= c.units && free == set u | u in c.units - rest && !UnitBlocked(c, u, w)
        decreases |rest|
      {
        var u :| u in rest;
        rest := rest - {u};
        if !UnitBlocked(c, u, w) { free := free + {u}; }
      }
      assert free == CountedUnits(c, w);
      return |free|;
    }

    method CheckAvailability(pool: Pool, start: int, end: int, quantity: int, skip: Option<nat>, enforce: bool)
      returns (outcome: Outcome<Range>)
      ensures outcome == Check(env, reqs, pool, start, end, quantity, now, skip, enforce)
    {
      if quantity < 1 { return Refused(QuantityInvalid); }
      if start > end { return Refused(DatesInvalid); }
      if pool !in env { return Refused(LocationNotOperational); }
      var c := env[pool];
      if !Offered(c, start, enforce) { return Refused(ProductUnavailable); }
      if DayStart(c, start) < now + c.noticeMinutes { return Refused(NoticeTooShort); }
      if DayStart(c, start) > now + c.maxAdvanceDays * MINUTES_PER_DAY { return Refused(TooFarAhead); }
      var w := BlockedRange(c, start, end);
      for k := 0 to |c.fullBlocks|
        invariant forall j :: 0 <= j < k ==> !Overlaps(c.fullBlocks[j], w)
      {
        if Overlaps(c.fullBlocks[k], w) { return Refused(InventoryBlocked); }
      }
      var capacity := CountUnits(c, w);
      var reserved := SumReserved(pool, w, skip);
      if Max(0, capacity + c.shortage - reserved) < quantity { return Refused(CapacityConflict); }
      return Ok(w);
    }

    // ---------------------------------------------------------------- Keyed requests on one requirement

    method Prepare(i: nat, ready: bool, reason: string, key: string) returns (refusal: Option<Reason>)
      requires Valid()
      modifies `reqs, `keys
      ensures Follows(env, old(State()), Command.Prepare(i, ready, reason, key), State(), refusal) && Valid()
    {
      hide Inv;
      ghost var c := Command.Prepare(i, ready, reason, key);
      var id, request := (EventTable, key), PrepareRequest(i, ready, reason);
      if id in keys {
        refusal := if keys[id] == request then None else Some(IdempotencyKeyReused);
        ReplayFollows(env, State(), c);
        return;
      }
      if i >= |reqs| || reqs[i].booking >= |bookings| { return Some(RequirementNotFound); }
      var r := reqs[i];
      var outcome;
      if bookings[r.booking] != Confirmed {
        outcome := Refused(PreparationNotAllowed);
      } else if r.status == PLANNED {
        outcome := Refused(InventoryNotReserved);
      } else if r.handedOutQty > 0 {
        outcome := Refused(PreparationAlreadyHandedOut);
      } else if ready && r.assignedQty != r.quantity {
        outcome := Refused(AssignmentRequired);
      } else {
        var kind := if ready then EventKind.PREPARATION_COMPLETED else EventKind.PREPARATION_STARTED;
        outcome := Ok(r.(prep := if ready then READY else IN_PROGRESS,
                         events := r.events + [Event(kind, r.quantity, {}, r.status, r.status)]));
      }
      assert outcome == RowStep(env, State(), c);
      refusal := Store(i, outcome);
      if refusal == None { keys := keys[id := request]; }
      KeyedFollows(env, old(State()), c, State(), refusal);
      FollowsKeeps(env, old(State()), c, State(), refusal);
    }

    method RecordEvent(i: nat, kind: EventKind, quantity: int, ids: seq<nat>, reason: string, key: string, checks: UnitChecks)
      returns (refusal: Option<Reason>)
      requires Valid()
      modifies `reqs, `keys
      ensures Follows(env, old(State()), Record(i, kind, quantity, ids, reason, key, checks), State(), refusal) && Valid()
    {
      hide Inv, RecordOn;
      ghost var c := Record(i, kind, quantity, ids, reason, key, checks);
      var id, request := (EventTable, key), RecordRequest(i, kind, quantity, reason, ToSet(ids));
      if id in keys {
        refusal := if keys[id] == request then None else Some(IdempotencyKeyReused);
        ReplayFollows(env, State(), c);
        return;
      }
      if i >= |reqs| || reqs[i].booking >= |bookings| { return Some(RequirementNotFound); }
      var outcome := RecordRow(reqs[i], bookings[reqs[i].booking], kind, quantity, ids, checks);
      assert outcome == RowStep(env, State(), c);
      refusal := Store(i, outcome);
      if refusal == None { keys := keys[id := request]; }
      KeyedFollows(env, old(State()), c, State(), refusal);
      FollowsKeeps(env, old(State()), c, State(), refusal);
    }

    method SubstituteSku(i: nat, pool: Pool, allowed: bool, impact: int, reason: string, key: string) returns (refusal: Option<Reason>)
      requires Valid()
      modifies `reqs, `keys
      ensures Follows(env, old(State()), Substitute(i, pool, allowed, impact, reason, key), State(), refusal) && Valid()
    {
      hide Inv, Check;
      ghost var c := Substitute(i, pool, allowed, impact, reason, key);
      var id, request := (SubstitutionTable, key), SubstituteRequest(i, pool.sku, impact, reason);
      if id in keys {
        refusal := if keys[id] == request then None else Some(IdempotencyKeyReused);
        ReplayFollows(env, State(), c);
        return;
      }
      if i >= |reqs| || reqs[i].booking >= |bookings| { return Some(RequirementNotFound); }
      var r := reqs[i];
      var outcome;
      var active := CountActive(r.rows);
      if r.status in {ReqStatus.HANDED_OUT, PARTIALLY_HANDED_OUT, PARTIALLY_RETURNED, ReqStatus.RETURNED, LOST,
                      ReqStatus.CANCELLED, SUPERSEDED} {
        outcome := Refused(NotSubstitutable);
      } else if pool.sku == r.pool.sku {
        outcome := Refused(SameSku);
      } else if active > 0 {
        outcome := Refused(ReleaseFirst);
      } else if !allowed {
        outcome := Refused(SubstitutionNotAllowed);
      } else {
        var check := CheckAvailability(pool, r.hold.start, r.hold.end, r.quantity, Some(i), false);
        match check
        case Refused(why) => outcome := Refused(why);
        case Ok(w) =>
          outcome := Ok(r.(pool := pool, hold := r.hold.(blocked := w), status := ReqStatus.RESERVED, prep := NOT_STARTED));
      }
      assert outcome == RowStep(env, State(), c);
      refusal := Store(i, outcome);
      if refusal == None { keys := keys[id := request]; }
      KeyedFollows(env, old(State()), c, State(), refusal);
      FollowsKeeps(env, old(State()), c, State(), refusal);
    }

    // ---------------------------------------------------------------- Extending a booking

    /** Places in the requirement table, in order. */
    ghost predicate Indices(targets: seq<nat>)
      reads this
    {
      && (forall k :: 0 <= k < |targets| ==> targets[k] < |reqs|)
      && (forall j, k :: 0 <= j < k < |targets| ==> targets[j] < targets[k])
    }

    /** The rows of a booking that an extension rewrites, in table order. */
    method FindTargets(b: nat) returns (targets: seq<nat>)
      ensures ToSet(targets) == Targets(State(), b)
      ensures Indices(targets)
    {
      targets := [];
      for i := 0 to |reqs|
        invariant forall x: nat :: x in targets <==> x < i && reqs[x].booking == b && Extendable(reqs[x])
        invariant forall j, k :: 0 <= j < k < |targets| ==> targets[j] < targets[k]
        invariant forall k :: 0 <= k < |targets| ==> targets[k] < i
      {
        if reqs[i].booking == b && Extendable(reqs[i]) { targets := targets + [i]; }
      }
    }

    /** The latest return date among the rows. */
    method LatestEnd(targets: seq<nat>) returns (latest: int)
      requires targets != [] && Indices(targets)
      ensures exists k :: 0 <= k < |targets| && reqs[targets[k]].hold.end == latest
      ensures forall k :: 0 <= k < |targets| ==> reqs[targets[k]].hold.end <= latest
    {
      latest := reqs[targets[0]].hold.end;
      for k := 1 to |targets|
        invariant exists j :: 0 <= j < k && reqs[targets[j]].hold.end == latest
        invariant forall j :: 0 <= j < k ==> reqs[targets[j]].hold.end <= latest
      {
        if reqs[targets[k]].hold.end > latest { latest := reqs[targets[k]].hold.end; }
      }
    }

    /** Checks every row against the ranges as they stand, each with only itself left out. */
    method CheckTargets(targets: seq<nat>, end: int) returns (checks: Option<seq<Range>>)
      requires Indices(targets)
      ensures checks == None ==> exists k :: 0 <= k < |targets| && ExtensionCheck(env, State(), targets[k], end).Refused?
      ensures checks.Some? ==> |checks.value| == |targets|
      ensures checks.Some? ==> forall k :: 0 <= k < |targets| ==> ExtensionCheck(env, State(), targets[k], end) == Ok(checks.value[k])
    {
      var passed := [];
      for k := 0 to |targets|
        invariant |passed| == k
        invariant forall j :: 0 <= j < k ==> ExtensionCheck(env, State(), targets[j], end) == Ok(passed[j])
      {
        var r := reqs[targets[k]];
        var check := CheckAvailability(r.pool, r.hold.start, end, r.quantity, Some(targets[k]), false);
        assert check == ExtensionCheck(env, State(), targets[k], end);
        if check.Refused? { return None; }
        passed := passed + [check.value];
      }
      return Some(passed);
    }

    method WriteExtension(targets: seq<nat>, end: int, checks: seq<Range>)
      requires |checks| == |targets| && Indices(targets)
      modifies `reqs
      ensures |reqs| == |old(reqs)|
      ensures forall i :: 0 <= i < |reqs| && i !in targets ==> reqs[i] == old(reqs)[i]
      ensures forall k :: 0 <= k < |targets| ==> reqs[targets[k]] == Extended(old(reqs)[targets[k]], end, checks[k])
    {
      for k := 0 to |targets|
        invariant |reqs| == |old(reqs)|
        invariant forall i :: 0 <= i < |reqs| && i !in targets[..k] ==> reqs[i] == old(reqs)[i]
        invariant forall j :: 0 <= j < k ==> reqs[targets[j]] == Extended(old(reqs)[targets[j]], end, checks[j])
      {
        assert targets[k] !in targets[..k];
        var r := reqs[targets[k]];
        var h := r.(hold := r.hold.(end := end, blocked := checks[k]));
        if r.status == ReqStatus.OVERDUE {
          var status := if r.handedOutQty == r.quantity then ReqStatus.HANDED_OUT else ReqStatus.RESERVED;
          var out := Max(1, r.handedOutQty - r.returnedQty - r.lostQty);
          h := h.(status := status, events := h.events + [Event(EventKind.OVERDUE_RESOLVED, out, {}, r.status, status)]);
        }
        reqs := reqs[targets[k] := h];
      }
    }

    method TryExtend(b: nat, end: int) returns (refusal: Option<Reason>)
      modifies `reqs
      ensures match ExtendBooking(env, old(State()), b, end)
              case Ok(t) => State() == t && refusal == None
              case Refused(why) => State() == old(State()) && refusal == Some(why)
    {
      hide Check, Extended;
      if b >= |bookings| { return Some(BookingNotFound); }
      if !MayExtend(bookings[b]) { return Some(ExtensionStatusInvalid); }
      var targets := FindTargets(b);
      assert forall i :: i in targets <==> i in Targets(State(), b);
      if targets == [] { return Some(NoActiveRequirements); }
      assert targets[0] in Targets(State(), b);
      if exists k :: 0 <= k < |targets| && end <= reqs[targets[k]].hold.start { return Some(EndBeforeStart); }
      var latest := LatestEnd(targets);
      if end <= latest { return Some(ExtensionMustIncreaseEndDate); }
      var checks := CheckTargets(targets, end);
      if checks == None { return Some(RentalExtensionConflict); }
      ghost var s := State();
      WriteExtension(targets, end, checks.value);
      assert reqs == ExtendRows(env, s, b, end);
      return None;
    }

    method ExtendRental(b: nat, end: int, charge: int, evidence: string, reason: string, key: string) returns (refusal: Option<Reason>)
      requires Valid()
      modifies `reqs, `keys
      ensures Follows(env, old(State()), Extend(b, end, charge, evidence, reason, key), State(), refusal) && Valid()
    {
      hide Inv, ExtendBooking;
      ghost var c := Extend(b, end, charge, evidence, reason, key);
      var id, request := (ExtensionTable, key), ExtendRequest(b, end, charge, evidence, reason);
      if id in keys {
        refusal := if keys[id] == request then None else Some(IdempotencyKeyReused);
        ReplayFollows(env, State(), c);
        return;
      }
      refusal := TryExtend(b, end);
      if refusal == None { keys := keys[id := request]; }
      KeyedFollows(env, old(State()), c, State(), refusal);
      FollowsKeeps(env, old(State()), c, State(), refusal);
    }

    // ---------------------------------------------------------------- Booking transitions

    /** Looks for a row in play that fails the test. */
    method FindLive(b: nat, fails: Requirement -> bool) returns (found: bool)
      ensures found <==> exists r | r in LiveRowsOf(State(), b) :: fails(r)
    {
      for i := 0 to |reqs|
        invariant forall j :: 0 <= j < i && reqs[j].booking == b && InPlay(reqs[j]) ==> !fails(reqs[j])
      {
        if reqs[i].booking == b && InPlay(reqs[i]) && fails(reqs[i]) {
          assert reqs[i] in LiveRowsOf(State(), b);
          return true;
        }
      }
      return false;
    }

    /** Counts the active assignments of every row of a booking. */
    method AssignedByRequirement(b: nat) returns (counts: map<nat, nat>)
      ensures forall i: nat :: i < |reqs| && reqs[i].booking == b
                               ==> (if i in counts then counts[i] else 0) == |ActiveRows(reqs[i].rows)|
    {
      hide ActiveRows;
      counts := map[];
      for i := 0 to |reqs|
        invariant forall j | j in counts :: j < i
        invariant forall j: nat :: j < i && reqs[j].booking == b
                                   ==> (if j in counts then counts[j] else 0) == |ActiveRows(reqs[j].rows)|
      {
        if reqs[i].booking == b {
          var rows := reqs[i].rows;
          NothingActiveYet(rows);
          for a := 0 to |rows|
            invariant forall j | j in counts :: j <= i
            invariant forall j: nat :: j < i && reqs[j].booking == b
                                       ==> (if j in counts then counts[j] else 0) == |ActiveRows(reqs[j].rows)|
            invariant (if i in counts then counts[i] else 0) == |ActiveRows(rows[..a])|
          {
            ActiveStep(rows, a);
            if !rows[a].released {
              counts := counts[i := (if i in counts then counts[i] else 0) + 1];
            }
          }
          assert rows[..|rows|] == rows;
        }
      }
    }

    method CheckConfirm(b: nat) returns (refusal: Option<Reason>)
      requires LiveRowsOf(State(), b) != {}
      ensures forall checks :: refusal == TransitionRefusal(LiveRowsOf(State(), b), Confirmed, checks)
    {
      var unready := FindLive(b, (r: Requirement) =>
        r.status != ReqStatus.RESERVED && r.status != PARTIALLY_ASSIGNED && r.status != ReqStatus.ASSIGNED);
      if unready { return Some(NotReserved); }
      var counts := AssignedByRequirement(b);
      for i := 0 to |reqs|
        invariant forall j :: 0 <= j < i && reqs[j].booking == b && InPlay(reqs[j]) ==> |ActiveRows(reqs[j].rows)| == reqs[j].quantity
      {
        if reqs[i].booking == b && InPlay(reqs[i]) && (if i in counts then counts[i] else 0) != reqs[i].quantity {
          assert reqs[i] in LiveRowsOf(State(), b);
          return Some(ExactAssignmentRequired);
        }
      }
      return None;
    }

    method CheckTransition(b: nat, to: BookingStatus, checks: CloseChecks) returns (refusal: Option<Reason>)
      ensures refusal == TransitionRefusal(LiveRowsOf(State(), b), to, checks)
    {
      var any := FindLive(b, (r: Requirement) => true);
      if !any { return Some(NoRequirements); }
      match to
      case Confirmed => refusal := CheckConfirm(b);
      case Delivered =>
        var missing := FindLive(b, (r: Requirement) => r.handedOutQty != r.quantity);
        refusal := if missing then Some(NotHandedOut) else None;
      case Returned | Inspected | Completed =>
        var open := FindLive(b, (r: Requirement) => r.returnedQty + r.lostQty != r.quantity);
        if open { return Some(NotResolved); }
        if to != Returned && checks.uninspected > 0 { return Some(NotInspected); }
        if to == Completed {
          if checks.unsettledDeposits > 0 { return Some(DepositSettlementRequired); }
          if checks.balanceDue > 0 { return Some(BookingBalanceDue); }
          if checks.openWork > 0 { return Some(ReturnWorkUnresolved); }
        }
        refusal := None;
      case Cancelled =>
        var out := FindLive(b, Unresolved);
        refusal := if out then Some(PiecesOut) else None;
      case Overdue | Pending => refusal := None;
    }

    /** The reservations of a booking, before it is confirmed. */
    method CheckHolds(b: nat) returns (refusal: Option<Reason>)
      ensures refusal == HoldRefusal(RowsOf(State(), b), now)
    {
      var any := false;
      for i := 0 to |reqs|
        invariant any <==> exists j :: 0 <= j < i && reqs[j].booking == b
        invariant forall j :: 0 <= j < i && reqs[j].booking == b ==> Counted(reqs[j].hold, now)
      {
        if reqs[i].booking == b {
          any := true;
          if !Counted(reqs[i].hold, now) {
            assert reqs[i] in RowsOf(State(), b);
            return Some(InventoryReservationExpired);
          }
        }
      }
      if any {
        ghost var j :| 0 <= j < |reqs| && reqs[j].booking == b;
        assert reqs[j] in RowsOf(State(), b);
      }
      return if any then None else Some(InventoryReservationMissing);
    }

    /** Cancels the rows in play: status and event. */
    method CancelRequirements(b: nat)
      modifies `reqs
      ensures |reqs| == |old(reqs)|
      ensures forall i :: 0 <= i < |reqs| ==> reqs[i] == CancelledIn(old(reqs)[i], b)
    {
      for i := 0 to |reqs|
        invariant |reqs| == |old(reqs)|
        invariant forall j :: i <= j < |reqs| ==> reqs[j] == old(reqs)[j]
        invariant forall j :: 0 <= j < i ==> reqs[j] == CancelledIn(old(reqs)[j], b)
      {
        var r := reqs[i];
        if r.booking == b && InPlay(r) {
          var event := Event(EventKind.CANCELLED, r.quantity, {}, r.status, ReqStatus.CANCELLED);
          reqs := reqs[i := r.(status := ReqStatus.CANCELLED, events := r.events + [event])];
        }
      }
    }

    /** Releases every assignment of a booking and ends its live reservations. */
    method CloseReservations(b: nat, end: HoldStatus)
      modifies `reqs
      ensures |reqs| == |old(reqs)|
      ensures forall i :: 0 <= i < |reqs| ==> reqs[i] == if old(reqs)[i].booking == b then Closed(old(reqs)[i], end) else old(reqs)[i]
    {
      for i := 0 to |reqs|
        invariant |reqs| == |old(reqs)|
        invariant forall j :: i <= j < |reqs| ==> reqs[j] == old(reqs)[j]
        invariant forall j :: 0 <= j < i ==> reqs[j] == if old(reqs)[j].booking == b then Closed(old(reqs)[j], end) else old(reqs)[j]
      {
        var r := reqs[i];
        if r.booking == b {
          var rows := MarkReleased(r.rows, ActiveRows(r.rows));
          var hold := r.hold;
          if HoldLive(hold) { hold := hold.(status := end); }
          reqs := reqs[i := r.(rows := rows, hold := hold)];
        }
      }
    }

    method ConfirmReservations(b: nat)
      modifies `reqs
      ensures reqs == MoveRows(old(reqs), b, Confirmed)
    {
      for i := 0 to |reqs|
        invariant |reqs| == |old(reqs)|
        invariant forall j :: 0 <= j < |reqs| ==> reqs[j] == if j < i && old(reqs)[j].booking == b then Moved(old(reqs)[j], Confirmed) else old(reqs)[j]
      {
        var r := reqs[i];
        if r.booking == b && r.hold.status == HoldStatus.PENDING {
          reqs := reqs[i := r.(hold := r.hold.(status := HoldStatus.CONFIRMED, expiresAt := None))];
        }
      }
    }

    method MarkOverdue(b: nat)
      modifies `reqs
      ensures reqs == MoveRows(old(reqs), b, Overdue)
    {
      for i := 0 to |reqs|
        invariant |reqs| == |old(reqs)|
        invariant forall j :: 0 <= j < |reqs| ==> reqs[j] == if j < i && old(reqs)[j].booking == b then Moved(old(reqs)[j], Overdue) else old(reqs)[j]
      {
        var r := reqs[i];
        if r.booking == b && InPlay(r) && Unresolved(r) {
          var out := r.handedOutQty - r.returnedQty - r.lostQty;
          var event := Event(EventKind.OVERDUE, out, {}, r.status, ReqStatus.OVERDUE);
          reqs := reqs[i := r.(status := ReqStatus.OVERDUE, events := r.events + [event])];
        }
      }
    }

    /** What a booking's new status does to its rows. */
    method MoveRequirements(b: nat, to: BookingStatus)
      modifies `reqs
      ensures reqs == MoveRows(old(reqs), b, to)
    {
      match to
      case Confirmed => ConfirmReservations(b);
      case Overdue => MarkOverdue(b);
      case Cancelled =>
        CancelRequirements(b);
        CloseReservations(b, HoldStatus.CANCELLED);
      case Completed => CloseReservations(b, RELEASED);
      case _ => assert reqs == MoveRows(reqs, b, to);
    }

    method EnterStatus(b: nat, to: BookingStatus, checks: CloseChecks) returns (refusal: Option<Reason>)
      requires b < |bookings|
      modifies `reqs, `bookings
      ensures match Enter(old(State()), b, to, checks)
              case Ok(t) => State() == t && refusal == None
              case Refused(why) => State() == old(State()) && refusal == Some(why)
    {
      hide TransitionRefusal, HoldRefusal, MoveRows;
      refusal := CheckTransition(b, to, checks);
      if refusal == None && to == Confirmed { refusal := CheckHolds(b); }
      if refusal == None {
        MoveRequirements(b, to);
        bookings := bookings[b := to];
      }
    }

    method UpdateStatus(b: nat, to: BookingStatus, checks: CloseChecks) returns (refusal: Option<Reason>)
      requires Valid()
      modifies `reqs, `bookings
      ensures Follows(env, old(State()), Transition(b, to, checks), State(), refusal) && Valid()
    {
      hide Inv, Enter;
      if b >= |bookings| {
        refusal := Some(BookingNotFound);
      } else if !Allowed(bookings[b], to) {
        refusal := Some(InvalidTransition);
      } else {
        refusal := EnterStatus(b, to, checks);
      }
      FollowsKeeps(env, old(State()), Transition(b, to, checks), State(), refusal);
    }

    method CancelBooking(b: nat, byCustomer: bool) returns (refusal: Option<Reason>)
      requires Valid()
      modifies `reqs, `bookings
      ensures Follows(env, old(State()), Cancel(b, byCustomer), State(), refusal) && Valid()
    {
      hide Inv, Enter;
      if b >= |bookings| {
        refusal := Some(BookingNotFound);
      } else if bookings[b] != Pending && bookings[b] != Confirmed {
        refusal := Some(NotCancellable);
      } else if byCustomer && bookings[b] != Pending {
        refusal := Some(CustomerTooLate);
      } else {
        refusal := EnterStatus(b, Cancelled, CloseChecks(0, 0, 0, 0));
      }
      FollowsKeeps(env, old(State()), Cancel(b, byCustomer), State(), refusal);
    }

    // ---------------------------------------------------------------- Reviews, holds and creation

    /** Whether anything blocks the approval of a request. */
    method ReviewBlocked(b: nat, fit: bool) returns (refusal: Option<Reason>)
      ensures refusal == ApprovalRefusal(ReviewableRowsOf(State(), b), now, fit)
    {
      hide ActiveRows, Counted, Reviewable;
      var any, blocked := false, !fit;
      for i := 0 to |reqs|
        invariant any <==> exists j :: 0 <= j < i && reqs[j].booking == b && Reviewable(reqs[j])
        invariant blocked <==> !fit || exists j :: 0 <= j < i && reqs[j].booking == b && Reviewable(reqs[j])
                                                   && (!Counted(reqs[j].hold, now) || |ActiveRows(reqs[j].rows)| != reqs[j].quantity)
      {
        if reqs[i].booking == b && Reviewable(reqs[i]) {
          any := true;
          var inUse := CountActive(reqs[i].rows);
          if !Counted(reqs[i].hold, now) || inUse != reqs[i].quantity { blocked := true; }
        }
      }
      ghost var rows := ReviewableRowsOf(State(), b);
      if any {
        ghost var j :| 0 <= j < |reqs| && reqs[j].booking == b && Reviewable(reqs[j]);
        assert reqs[j] in rows;
      }
      if blocked && fit {
        ghost var j :| 0 <= j < |reqs| && reqs[j].booking == b && Reviewable(reqs[j])
                       && (!Counted(reqs[j].hold, now) || |ActiveRows(reqs[j].rows)| != reqs[j].quantity);
        assert reqs[j] in rows;
      }
      return if !any || blocked then Some(BookingApprovalBlocked) else None;
    }

    method ApproveAndReserve(b: nat, fit: bool) returns (refusal: Option<Reason>)
      requires Valid()
      modifies `reqs, `bookings
      ensures Follows(env, old(State()), Approve(b, fit), State(), refusal) && Valid()
    {
      hide Inv, ApprovalRefusal, MoveRows;
      if b >= |bookings| {
        refusal := Some(BookingNotFound);
      } else if bookings[b] != Pending {
        refusal := Some(BookingReviewNotOpen);
      } else {
        refusal := ReviewBlocked(b, fit);
        if refusal == None {
          ConfirmReservations(b);
          bookings := bookings[b := Confirmed];
        }
      }
      FollowsKeeps(env, old(State()), Approve(b, fit), State(), refusal);
    }

    /** Cancels the reviewable rows of a booking; no event is written. */
    method CancelSilently(b: nat)
      modifies `reqs
      ensures |reqs| == |old(reqs)|
      ensures forall i :: 0 <= i < |reqs| ==>
                reqs[i] == if old(reqs)[i].booking == b && Reviewable(old(reqs)[i])
                           then old(reqs)[i].(status := ReqStatus.CANCELLED) else old(reqs)[i]
    {
      for i := 0 to |reqs|
        invariant |reqs| == |old(reqs)|
        invariant forall j :: i <= j < |reqs| ==> reqs[j] == old(reqs)[j]
        invariant forall j :: 0 <= j < i ==>
                    reqs[j] == if old(reqs)[j].booking == b && Reviewable(old(reqs)[j])
                               then old(reqs)[j].(status := ReqStatus.CANCELLED) else old(reqs)[j]
      {
        if reqs[i].booking == b && Reviewable(reqs[i]) {
          reqs := reqs[i := reqs[i].(status := ReqStatus.CANCELLED)];
        }
      }
    }

    method RejectRequest(b: nat) returns (refusal: Option<Reason>)
      requires Valid()
      modifies `reqs, `bookings
      ensures Follows(env, old(State()), Reject(b), State(), refusal) && Valid()
    {
      hide Inv;
      if b >= |bookings| {
        refusal := Some(BookingNotFound);
      } else if bookings[b] != Pending {
        refusal := Some(BookingReviewNotOpen);
      } else {
        ghost var s := State();
        CloseReservations(b, HoldStatus.CANCELLED);
        CancelSilently(b);
        assert reqs == RejectRows(s.reqs, b);
        bookings := bookings[b := Cancelled];
        refusal := None;
      }
      FollowsKeeps(env, old(State()), Reject(b), State(), refusal);
    }

    method RenewHold(b: nat, until: int) returns (refusal: Option<Reason>)
      requires Valid()
      modifies `reqs
      ensures Follows(env, old(State()), Renew(b, until), State(), refusal) && Valid()
    {
      hide Inv;
      if b >= |bookings| {
        refusal := Some(BookingNotFound);
      } else if bookings[b] != Pending {
        refusal := Some(BookingReviewNotOpen);
      } else if until <= now {
        refusal := Some(HoldExpiryInvalid);
      } else {
        refusal := SetExpiry(b, until);
      }
      FollowsKeeps(env, old(State()), Renew(b, until), State(), refusal);
    }

    /** Gives the pending holds of a booking a new expiry. */
    method SetExpiry(b: nat, until: int) returns (refusal: Option<Reason>)
      requires until > now
      modifies `reqs
      ensures match RenewHolds(old(State()), b, until)
              case Ok(t) => State() == t && refusal == None
              case Refused(why) => State() == old(State()) && refusal == Some(why)
    {
      var renewed := 0;
      for i := 0 to |reqs|
        invariant |reqs| == |old(reqs)| && renewed >= 0
        invariant forall j :: i <= j < |reqs| ==> reqs[j] == old(reqs)[j]
        invariant forall j :: 0 <= j < i ==> reqs[j] == RenewRows(old(reqs), b, until)[j]
        invariant renewed == 0 <==> forall j :: 0 <= j < i && old(reqs)[j].booking == b ==> old(reqs)[j].hold.status != HoldStatus.PENDING
        invariant renewed == 0 ==> reqs == old(reqs)
      {
        var r := reqs[i];
        if r.booking == b && r.hold.status == HoldStatus.PENDING {
          reqs := reqs[i := r.(hold := r.hold.(expiresAt := Some(until)))];
          renewed := renewed + 1;
        }
      }
      ghost var s := old(State());
      if renewed == 0 {
        refusal := Some(InventoryReservationMissing);
        assert forall r | r in RowsOf(s, b) :: r.hold.status != HoldStatus.PENDING;
      } else {
        refusal := None;
        ghost var j :| 0 <= j < |reqs| && old(reqs)[j].booking == b && old(reqs)[j].hold.status == HoldStatus.PENDING;
        assert s.reqs[j] in RowsOf(s, b);
        assert reqs == RenewRows(s.reqs, b, until);
      }
    }

    /** Ends the lapsed holds and cancels their rows; reports the bookings they belong to. */
    method ExpireHolds() returns (affected: set<nat>)
      modifies `reqs
      ensures reqs == SweepRows(old(State()))
      ensures forall b: nat :: b in affected <==> exists i :: 0 <= i < |old(reqs)| && old(reqs)[i].booking == b && Lapsed(old(reqs)[i], now)
    {
      affected := {};
      for i := 0 to |reqs|
        invariant |reqs| == |old(reqs)|
        invariant forall j :: 0 <= j < |reqs| ==> reqs[j] == if j < i then Swept(old(reqs)[j], now) else old(reqs)[j]
        invariant forall b: nat :: b in affected <==> exists j :: 0 <= j < i && old(reqs)[j].booking == b && Lapsed(old(reqs)[j], now)
      {
        var r := reqs[i];
        if Lapsed(r, now) {
          var event := Event(EventKind.CANCELLED, r.quantity, {}, r.status, ReqStatus.CANCELLED);
          affected := affected + {r.booking};
          reqs := reqs[i := r.(status := ReqStatus.CANCELLED, events := r.events + [event], hold := r.hold.(status := EXPIRED))];
        }
      }
    }

    method HasLiveHold(b: nat) returns (found: bool)
      ensures found <==> exists i :: 0 <= i < |reqs| && reqs[i].booking == b && HoldLive(reqs[i].hold)
    {
      for i := 0 to |reqs|
        invariant forall j :: 0 <= j < i && reqs[j].booking == b ==> !HoldLive(reqs[j].hold)
      {
        if reqs[i].booking == b && HoldLive(reqs[i].hold) { return true; }
      }
      return false;
    }

    method SweepExpired()
      requires Valid()
      modifies `reqs, `bookings
      ensures Follows(env, old(State()), Sweep, State(), None) && Valid()
    {
      hide Inv;
      ghost var s := State();
      var affected := ExpireHolds();
      for b := 0 to |bookings|
        invariant reqs == SweepRows(s) && |bookings| == |s.bookings|
        invariant forall k :: b <= k < |bookings| ==> bookings[k] == s.bookings[k]
        invariant forall k :: 0 <= k < b ==> bookings[k] == SweepBookings(s)[k]
      {
        var live := HasLiveHold(b);
        assert forall i :: 0 <= i < |s.reqs| ==> reqs[i] == Swept(s.reqs[i], now) && reqs[i].booking == s.reqs[i].booking;
        if b in affected && bookings[b] == Pending && !live {
          bookings := bookings[b := Cancelled];
        }
      }
      assert bookings == SweepBookings(s);
      FollowsKeeps(env, s, Sweep, State(), None);
    }

    /** Admits the lines one by one; a refused line takes the whole booking back. */
    method CreateBooking(expiresAt: Option<int>, lines: seq<Line>) returns (refusal: Option<Reason>)
      requires Valid()
      modifies `reqs, `bookings
      ensures Follows(env, old(State()), Create(expiresAt, lines), State(), refusal) && Valid()
    {
      hide Inv, Check;
      var b, savedReqs, savedBookings := |bookings|, reqs, bookings;
      bookings := bookings + [Pending];
      refusal := None;
      var k := 0;
      ghost var all := AdmitAll(env, State(), b, expiresAt, lines);
      assert lines[0..] == lines;
      while k < |lines|
        invariant k <= |lines| && bookings == savedBookings + [Pending]
        invariant AdmitAll(env, State(), b, expiresAt, lines[k..]) == all
      {
        var line := lines[k];
        assert lines[k..][1..] == lines[k + 1..];
        var check := CheckAvailability(line.pool, line.start, line.end, line.quantity, None, true);
        if check.Refused? {
          reqs, bookings, refusal := savedReqs, savedBookings, Some(check.reason);
          break;
        }
        reqs := reqs + [NewRow(b, expiresAt, line, check.value)];
        k := k + 1;
      }
      FollowsKeeps(env, old(State()), Create(expiresAt, lines), State(), refusal);
    }

    method Wait(until: int) returns (refusal: Option<Reason>)
      requires Valid()
      modifies `now
      ensures Follows(env, old(State()), Tick(until), State(), refusal) && Valid()
    {
      hide Inv;
      if until < now {
        refusal := Some(Clock);
      } else {
        now := until;
        refusal := None;
      }
      FollowsKeeps(env, old(State()), Tick(until), State(), refusal);
    }
  }
}
