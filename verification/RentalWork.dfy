/**
 Work on one requirement: when units are assigned and released, when a row is prepared, handed
 out, taken back and substituted, and what each of these writes.
 */
module RentalWork {
  import opened Common
  import opened RentalModel
  import opened RentalMachine
  import opened RentalGates

  predicate Known(s: Tenant, i: nat) {
    i < |s.reqs| && s.reqs[i].booking < |s.bookings|
  }

  /** The two ranges share a day, when neither is empty. */
  predicate Meet(a: Range, b: Range) {
    !(a.last < b.first) && !(b.last < a.first)
  }

  /** Row `i` is the only one that a transaction may have changed. */
  predicate OnlyRow(s: Tenant, t: Tenant, i: nat) {
    t == s.(reqs := t.reqs, keys := t.keys) && |t.reqs| == |s.reqs| && forall j :: 0 <= j < |s.reqs| && j != i ==> t.reqs[j] == s.reqs[j]
  }

  lemma RowSteps(env: Catalogue, s: Tenant, c: Command)
    requires OneRow(c) && (KeyOf(c).Some? ==> KeyOf(c).value.0 !in s.keys)
    ensures Apply(env, s, c).Ok? <==> Known(s, c.req) && RowStep(env, s, c).Ok?
    ensures Apply(env, s, c).Ok? ==> OnlyRow(s, Apply(env, s, c).value, c.req)
                                     && Apply(env, s, c).value.reqs[c.req] == RowStep(env, s, c).value
  {
    hide RowStep;
  }

  // ------------------------------------------------------------------ Assigning and releasing units

  /** No stored block of the unit, and no active assignment of it, meets the days that row `i` blocks. */
  ghost predicate Free(env: Catalogue, s: Tenant, i: nat, u: nat)
    requires i < |s.reqs| && s.reqs[i].pool in env
  {
    var c, w := env[s.reqs[i].pool], s.reqs[i].hold.blocked;
    && (u in c.unitBlocks ==> forall b | b in c.unitBlocks[u] :: !Meet(b, w))
    && forall j: nat, a: nat :: j < |s.reqs| && a < |s.reqs[j].rows| && s.reqs[j].rows[a].unit == u && !s.reqs[j].rows[a].released
                                ==> !Meet(s.reqs[j].rows[a].range, w)
  }

  /** Units are assigned when the reservation is live, the row not ready, there is room for all of them, and each is fit, in stock and free. */
  lemma AssignIff(env: Catalogue, s: Tenant, i: nat, units: seq<nat>, eligible: set<nat>)
    ensures AcceptedIff(env, s, Assign(i, units, eligible),
              && Known(s, i) && units != []
              && var r := s.reqs[i];
                 && (r.hold.status == HoldStatus.PENDING || r.hold.status == HoldStatus.CONFIRMED) && r.prep != READY
                 && Held(r) + |ToSet(units)| <= r.quantity
                 && forall u | u in units :: u in eligible && InStock(env, r.pool, u) && Free(env, s, i, u))
  {
    RowSteps(env, s, Assign(i, units, eligible));
    if Known(s, i) {
      var r := s.reqs[i];
      var barred, taken := BarredUnits(env, r.pool, units, r.hold.blocked), TakenUnits(s, r.hold.blocked);
      DistinctSize(Distinct(units));
      assert Distinct(units) == [] <==> units == [] by { if units != [] { assert units[0] in ToSet(units); } }
      forall u | u in units && InStock(env, r.pool, u) ensures u !in barred + taken <==> Free(env, s, i, u) {
        FreeIff(env, s, i, units, u);
      }
      var stock := eligible * Stock(env, r.pool);
      assert forall u :: u in stock <==> u in eligible && InStock(env, r.pool, u);
      hide Apply, RowStep, BarredUnits, TakenUnits, Free, InStock, Stock;
      MayAssign(r, units, stock, barred, taken);
      StepIsAssign(env, s, i, units, eligible);
    }
  }

  predicate InStock(env: Catalogue, pool: Pool, u: nat) {
    pool in env && (u in env[pool].units || u in env[pool].others)
  }

  lemma StepIsAssign(env: Catalogue, s: Tenant, i: nat, units: seq<nat>, eligible: set<nat>)
    requires Known(s, i)
    ensures var r := s.reqs[i];
            RowStep(env, s, Assign(i, units, eligible))
            == AssignTo(r, units, eligible * Stock(env, r.pool), BarredUnits(env, r.pool, units, r.hold.blocked), TakenUnits(s, r.hold.blocked))
  {
  }

  lemma MayAssign(r: Requirement, units: seq<nat>, stock: set<nat>, barred: set<nat>, taken: set<nat>)
    requires |Distinct(units)| == |ToSet(units)| && (Distinct(units) == [] <==> units == [])
    ensures AssignTo(r, units, stock, barred, taken).Ok?
            <==> && units != [] && (r.hold.status == HoldStatus.PENDING || r.hold.status == HoldStatus.CONFIRMED) && r.prep != READY
                 && Held(r) + |ToSet(units)| <= r.quantity
                 && forall u | u in units :: u in stock && u !in barred + taken
  {
    MembersOf(units, stock);
    MembersOf(units, barred + taken);
    hide Distinct;
  }

  /** What holds of the set of some members holds of each of them. */
  lemma MembersOf(s: seq<nat>, t: set<nat>)
    ensures ToSet(s) <= t <==> forall x | x in s :: x in t
    ensures ToSet(s) * t == {} <==> forall x | x in s :: x !in t
  {
    forall x | x in s ensures x in ToSet(s) { }
    if ToSet(s) * t == {} {
      forall x | x in s ensures x !in t { assert x !in ToSet(s) * t; }
    }
  }

  lemma FreeIff(env: Catalogue, s: Tenant, i: nat, units: seq<nat>, u: nat)
    requires i < |s.reqs| && s.reqs[i].pool in env && u in units
    ensures var w := s.reqs[i].hold.blocked;
            Free(env, s, i, u) <==> u !in BarredUnits(env, s.reqs[i].pool, units, w) && u !in TakenUnits(s, w)
  {
    var w := s.reqs[i].hold.blocked;
    assert forall a: Range :: Meet(a, w) <==> Overlaps(a, w);
    if u in TakenUnits(s, w) {
      var j: nat, a: nat :| j < |s.reqs| && a < |s.reqs[j].rows| && !s.reqs[j].rows[a].released
                            && Overlaps(s.reqs[j].rows[a].range, w) && s.reqs[j].rows[a].unit == u;
    }
  }

  /** Each chosen unit gets one new assignment, for the days that the reservation blocks; the log counts them. */
  lemma AssignAppends(env: Catalogue, s: Tenant, i: nat, units: seq<nat>, eligible: set<nat>)
    requires Apply(env, s, Assign(i, units, eligible)).Ok?
    ensures var t, n := Apply(env, s, Assign(i, units, eligible)).value, |ToSet(units)|;
            && Known(s, i) && OnlyRow(s, t, i)
            && var r, q := s.reqs[i], t.reqs[i];
               && q == r.(rows := q.rows, assignedQty := Held(r) + n, events := q.events, status := q.status)
               && |q.rows| == |r.rows| + n && q.rows[..|r.rows|] == r.rows
               && (forall u | u in units :: Assignment(u, r.hold.blocked, false) in q.rows[|r.rows|..])
               && Logs(r, q, EventKind.ASSIGNED, n, {}, if Held(r) + n == r.quantity then ReqStatus.ASSIGNED else PARTIALLY_ASSIGNED)
  {
    var c := Assign(i, units, eligible);
    RowSteps(env, s, c);
    StepIsAssign(env, s, i, units, eligible);
    DistinctSize(Distinct(units));
    hide Apply, RowStep, BarredUnits, TakenUnits;
    var r, q := s.reqs[i], Apply(env, s, c).value.reqs[i];
    forall u | u in units ensures Assignment(u, r.hold.blocked, false) in q.rows[|r.rows|..] {
      assert u in ToSet(units);
      var k :| 0 <= k < |Distinct(units)| && Distinct(units)[k] == u;
      assert q.rows[|r.rows|..][k] == Assignment(u, r.hold.blocked, false);
    }
  }

  /** An active assignment is released while nothing is handed out and the row is not ready. */
  lemma ReleaseIff(env: Catalogue, s: Tenant, i: nat, row: nat)
    ensures AcceptedIff(env, s, Release(i, row),
              && Known(s, i) && row < |s.reqs[i].rows| && !s.reqs[i].rows[row].released
              && s.reqs[i].handedOutQty <= 0 && s.reqs[i].prep != READY)
    ensures Apply(env, s, Release(i, row)).Ok? ==>
              var t := Apply(env, s, Release(i, row)).value;
              && OnlyRow(s, t, i)
              && var r, q := s.reqs[i], t.reqs[i];
                 && q == r.(rows := r.rows[row := r.rows[row].(released := true)], assignedQty := Max(0, r.assignedQty - 1),
                            events := q.events, status := q.status)
                 && Logs(r, q, EventKind.ASSIGNMENT_RELEASED, 1, {row}, if r.assignedQty > 1 then PARTIALLY_ASSIGNED else ReqStatus.RESERVED)
  {
    RowSteps(env, s, Release(i, row));
    hide Apply;
  }

  // ------------------------------------------------------------------ Preparing and handing over

  /** A confirmed booking's row is prepared while nothing is handed out; it is ready with every piece assigned. */
  lemma PrepareIff(env: Catalogue, s: Tenant, i: nat, ready: bool, reason: string, key: string)
    requires (EventTable, key) !in s.keys
    ensures AcceptedIff(env, s, Prepare(i, ready, reason, key),
              && Known(s, i) && s.bookings[s.reqs[i].booking] == Confirmed && s.reqs[i].status != PLANNED
              && s.reqs[i].handedOutQty <= 0 && (ready ==> s.reqs[i].assignedQty == s.reqs[i].quantity))
    ensures Apply(env, s, Prepare(i, ready, reason, key)).Ok? ==>
              var t := Apply(env, s, Prepare(i, ready, reason, key)).value;
              && OnlyRow(s, t, i)
              && var r, q := s.reqs[i], t.reqs[i];
                 && q == r.(prep := if ready then READY else IN_PROGRESS, events := q.events)
                 && Logs(r, q, if ready then EventKind.PREPARATION_COMPLETED else EventKind.PREPARATION_STARTED, r.quantity, {}, r.status)
  {
    RowSteps(env, s, Prepare(i, ready, reason, key));
    hide Apply;
  }

  /** Some event of the kind names the assignment. */
  ghost predicate Named(r: Requirement, kind: EventKind, a: nat) {
    exists k :: 0 <= k < |r.events| && r.events[k].kind == kind && a in r.events[k].ids
  }

  /** Handed out, and neither back nor lost. */
  ghost predicate StillOut(r: Requirement, a: nat) {
    Named(r, EventKind.HANDED_OUT, a) && !Named(r, EventKind.RETURNED, a) && !Named(r, EventKind.MARKED_LOST, a)
  }

  lemma {:induction false} NamedIffListed(events: seq<Event>, kind: EventKind, a: nat)
    ensures a in IdsOf(events, kind) <==> exists k :: 0 <= k < |events| && events[k].kind == kind && a in events[k].ids
  {
    if events != [] { NamedIffListed(events[..|events| - 1], kind, a); }
  }

  lemma OutIffListed(r: Requirement, a: nat)
    ensures a in HandedOutIds(r) - ResolvedIds(r) <==> StillOut(r, a)
  {
    NamedIffListed(r.events, EventKind.HANDED_OUT, a);
    NamedIffListed(r.events, EventKind.RETURNED, a);
    NamedIffListed(r.events, EventKind.MARKED_LOST, a);
  }

  /** The named assignments are active, one for each piece, and on the side that the event takes them from. */
  ghost predicate Movable(r: Requirement, kind: EventKind, quantity: int, ids: seq<nat>) {
    && |ToSet(ids)| == quantity
    && forall a | a in ids :: a < |r.rows| && !r.rows[a].released && (StillOut(r, a) <==> kind != EventKind.HANDED_OUT)
  }

  lemma MovableIff(r: Requirement, kind: EventKind, quantity: int, ids: seq<nat>)
    ensures ResolveAssignments(r, kind, quantity, ids) == Ok(ToSet(ids)) <==> Movable(r, kind, quantity, ids)
    ensures ResolveAssignments(r, kind, quantity, ids).Ok? ==> ResolveAssignments(r, kind, quantity, ids) == Ok(ToSet(ids))
  {
    forall a | a in ids ensures a in HandedOutIds(r) - ResolvedIds(r) <==> StillOut(r, a) { OutIffListed(r, a); }
    MembersOf(ids, HandedOutIds(r) - ResolvedIds(r));
    MembersOf(ids, ActiveRows(r.rows));
    hide StillOut, HandedOutIds, ResolvedIds, ToSet;
  }

  /** A handover, return or loss that the counters and the stock tables allow. */
  predicate Countable(r: Requirement, booking: BookingStatus, kind: EventKind, quantity: int, checks: UnitChecks) {
    && quantity >= 1 && checks.lifecycleAllows
    && match kind
       case HANDED_OUT => booking == Confirmed && r.prep == READY && checks.inspected && r.handedOutQty + quantity <= r.quantity
       case RETURNED => (booking == Delivered || booking == Overdue) && quantity <= r.handedOutQty - r.returnedQty - r.lostQty
       case MARKED_LOST => (booking == Delivered || booking == Overdue) && quantity <= r.handedOutQty - r.returnedQty - r.lostQty && checks.actor
       case _ => false
  }

  /** An event under a new key is recorded exactly when it is allowed and its assignments can move. */
  lemma RecordIff(env: Catalogue, s: Tenant, i: nat, kind: EventKind, quantity: int, ids: seq<nat>, reason: string, key: string,
                  checks: UnitChecks)
    requires (EventTable, key) !in s.keys
    ensures AcceptedIff(env, s, Record(i, kind, quantity, ids, reason, key, checks),
              && Known(s, i) && Countable(s.reqs[i], s.bookings[s.reqs[i].booking], kind, quantity, checks)
              && Movable(s.reqs[i], kind, quantity, ids))
  {
    RowSteps(env, s, Record(i, kind, quantity, ids, reason, key, checks));
    if Known(s, i) { MovableIff(s.reqs[i], kind, quantity, ids); }
    hide Apply, ResolveAssignments, Movable;
  }

  /** Counters, status, assignments and log after an event. */
  predicate Moves(r: Requirement, q: Requirement, kind: EventKind, n: int, ids: set<nat>) {
    && Logs(r, q, kind, n, ids, q.status) && |q.rows| == |r.rows|
    && q.handedOutQty == r.handedOutQty + (if kind == EventKind.HANDED_OUT then n else 0)
    && q.returnedQty == r.returnedQty + (if kind == EventKind.RETURNED then n else 0)
    && q.lostQty == r.lostQty + (if kind == EventKind.MARKED_LOST then n else 0)
    && q.assignedQty == (if kind == EventKind.HANDED_OUT then r.assignedQty else Max(0, r.assignedQty - n))
    && q.status == (if kind == EventKind.HANDED_OUT then (if q.handedOutQty == r.quantity then ReqStatus.HANDED_OUT else PARTIALLY_HANDED_OUT)
                    else if q.returnedQty + q.lostQty != r.quantity then PARTIALLY_RETURNED
                    else if q.lostQty > 0 then LOST else ReqStatus.RETURNED)
    && (forall a :: 0 <= a < |r.rows| ==>
          q.rows[a] == if kind != EventKind.HANDED_OUT && a in ids then r.rows[a].(released := true) else r.rows[a])
    && q == r.(status := q.status, events := q.events, rows := q.rows, handedOutQty := q.handedOutQty,
               returnedQty := q.returnedQty, lostQty := q.lostQty, assignedQty := q.assignedQty)
  }

  lemma RecordedMoves(r: Requirement, kind: EventKind, quantity: int, ids: set<nat>, checks: UnitChecks)
    requires IsHandover(kind) && Recorded(r, kind, quantity, ids, checks).Ok?
    ensures Moves(r, Recorded(r, kind, quantity, ids, checks).value, kind, quantity, ids)
  {
  }

  /** An event under a new key moves the named pieces, and says so in the log. */
  lemma RecordMoves(env: Catalogue, s: Tenant, i: nat, kind: EventKind, quantity: int, ids: seq<nat>, reason: string, key: string,
                    checks: UnitChecks)
    requires (EventTable, key) !in s.keys && Apply(env, s, Record(i, kind, quantity, ids, reason, key, checks)).Ok?
    ensures var t := Apply(env, s, Record(i, kind, quantity, ids, reason, key, checks)).value;
            i < |s.reqs| && OnlyRow(s, t, i) && Moves(s.reqs[i], t.reqs[i], kind, quantity, ToSet(ids))
  {
    RowSteps(env, s, Record(i, kind, quantity, ids, reason, key, checks));
    MovableIff(s.reqs[i], kind, quantity, ids);
    hide Apply, ResolveAssignments, Movable, Recorded, Moves;
    RecordedMoves(s.reqs[i], kind, quantity, ToSet(ids), checks);
  }

  // ------------------------------------------------------------------ Substitution

  /** Another SKU takes over when none of the row is out, assigned or done with, it is allowed, and the check at its location passes. */
  lemma SubstituteIff(env: Catalogue, s: Tenant, i: nat, pool: Pool, allowed: bool, impact: int, reason: string, key: string)
    requires (SubstitutionTable, key) !in s.keys
    ensures AcceptedIff(env, s, Substitute(i, pool, allowed, impact, reason, key),
              && Known(s, i)
              && var r := s.reqs[i];
                 && (r.status == PLANNED || r.status == ReqStatus.RESERVED || r.status == PARTIALLY_ASSIGNED
                     || r.status == ReqStatus.ASSIGNED || r.status == ReqStatus.OVERDUE)
                 && pool.sku != r.pool.sku && Held(r) == 0 && allowed
                 && Check(env, s.reqs, pool, r.hold.start, r.hold.end, r.quantity, s.now, Some(i), false).Ok?)
    ensures Apply(env, s, Substitute(i, pool, allowed, impact, reason, key)).Ok? ==>
              var t := Apply(env, s, Substitute(i, pool, allowed, impact, reason, key)).value;
              && OnlyRow(s, t, i)
              && var r, q := s.reqs[i], t.reqs[i];
                 && q == r.(pool := pool, status := ReqStatus.RESERVED, prep := NOT_STARTED, hold := r.hold.(blocked := q.hold.blocked))
                 && Check(env, s.reqs, pool, r.hold.start, r.hold.end, r.quantity, s.now, Some(i), false) == Ok(q.hold.blocked)
  {
    RowSteps(env, s, Substitute(i, pool, allowed, impact, reason, key));
    hide Apply, Check;
  }
}
