/**
 The availability check in terms of stored rows, and the transactions that rest on it: opening
 a booking and extending one.
 */
module RentalChecks {
  import opened Common
  import opened RentalModel
  import opened RentalMachine
  import opened RentalGates
  import opened RentalWork

  // ------------------------------------------------------------------ The check

  /** Ranges meet exactly when some day lies in both. */
  lemma MeetIff(a: Span, b: Span)
    ensures Meet(a, b) <==> exists d :: Within(Day(d), a) && Within(Day(d), b)
    ensures Overlaps(a, b) <==> Meet(a, b)
  {
    if Meet(a, b) {
      var d := Max(a.first, b.first);
      assert Within(Day(d), a) && Within(Day(d), b);
    }
  }

  /** No row counts for nothing; one more row counts its quantity, if its reservation is valid and meets the dates. */
  lemma LoadCounts(reqs: seq<Requirement>, r: Requirement, pool: Pool, w: Range, now: int, skip: Option<nat>)
    ensures Load([], pool, w, now, skip) == 0
    ensures Load(reqs + [r], pool, w, now, skip) - Load(reqs, pool, w, now, skip)
            == if skip != Some(|reqs|) && r.pool == pool && Valid(r.hold, now) && Meet(r.hold.blocked, w) then r.quantity else 0
  {
    assert (reqs + [r])[..|reqs|] == reqs;
  }

  /** The units whose SKU and location are the pool's and that no block of their own keeps away on those days. */
  ghost predicate Usable(c: PoolConfig, w: Range, u: nat) {
    u in c.units && (u in c.unitBlocks ==> forall b | b in c.unitBlocks[u] :: !Meet(b, w))
  }

  lemma CapacityCounts(c: PoolConfig, w: Range)
    ensures Capacity(c, w) == |set u | u in c.units && Usable(c, w, u)|
  {
    assert forall a: Range :: Meet(a, w) <==> Overlaps(a, w);
    assert CountedUnits(c, w) == set u | u in c.units && Usable(c, w, u);
  }

  /** Room for `quantity` pieces over `w`, next to what other valid reservations take. */
  ghost predicate Room(c: PoolConfig, reqs: seq<Requirement>, pool: Pool, w: Range, quantity: int, now: int, skip: Option<nat>) {
    && (forall b | b in c.fullBlocks :: !Meet(b, w))
    && Load(reqs, pool, w, now, skip) + quantity <= |set u | u in c.units && Usable(c, w, u)| + c.shortage
  }

  /** The product may be rented from `start` on: offered, published unless staff ask, released, and in time. */
  predicate Rentable(c: PoolConfig, start: int, now: int, enforce: bool) {
    && c.offered && (c.published || !enforce) && (match c.availableFrom case None => true case Some(day) => day <= start)
    && now + c.noticeMinutes <= start * 1440 - c.utcOffset <= now + c.maxAdvanceDays * 1440
  }

  /** The days a rental blocks: its own, and the whole days that its buffers reach into. */
  predicate Blocks(c: PoolConfig, start: int, end: int, w: Range) {
    && (start - w.first - 1) * 1440 < c.beforeMinutes <= (start - w.first) * 1440
    && (w.last - end - 1) * 1440 < c.afterMinutes <= (w.last - end) * 1440
  }

  /** A check names `w` exactly when the product can be rented then, `w` are the days to block, and there is room on them. */
  lemma CheckIff(env: Catalogue, reqs: seq<Requirement>, pool: Pool, start: int, end: int, quantity: int, now: int,
                 skip: Option<nat>, enforce: bool, w: Range)
    ensures Check(env, reqs, pool, start, end, quantity, now, skip, enforce) == Ok(w)
            <==> && quantity >= 1 && start <= end && pool in env && Rentable(env[pool], start, now, enforce)
                 && Blocks(env[pool], start, end, w) && Room(env[pool], reqs, pool, w, quantity, now, skip)
  {
    if pool in env {
      var c := env[pool];
      BlocksIff(c, start, end, w);
      assert forall a: Range :: Meet(a, w) <==> Overlaps(a, w);
      CapacityCounts(c, w);
      hide Load, Capacity, Blocks, BlockedRange, Overlaps, Meet, Usable;
    }
  }

  lemma BlocksIff(c: PoolConfig, start: int, end: int, w: Range)
    ensures Blocks(c, start, end, w) <==> w == BlockedRange(c, start, end)
  {
  }

  // ------------------------------------------------------------------ Extending a booking

  /** Row `i` is one that an extension of booking `b` rewrites. */
  predicate Runs(s: Tenant, b: nat, i: nat) {
    Open(s, b, i) && s.reqs[i].status != ReqStatus.RETURNED && s.reqs[i].status != LOST
  }

  /** The check that lets row `i` run until `end`: against all rows as they are, but not against itself. */
  ghost predicate MayRun(env: Catalogue, s: Tenant, i: nat, end: int, w: Range)
    requires i < |s.reqs|
  {
    var r := s.reqs[i];
    && r.hold.start < end && r.hold.end < end
    && Check(env, s.reqs, r.pool, r.hold.start, end, r.quantity, s.now, Some(i), false) == Ok(w)
  }

  /** An extension under a new key is accepted when the booking is not closed, some row still runs, and each of these can run longer. */
  lemma ExtendIff(env: Catalogue, s: Tenant, b: nat, end: int, charge: int, evidence: string, reason: string, key: string)
    requires (ExtensionTable, key) !in s.keys
    ensures AcceptedIff(env, s, Extend(b, end, charge, evidence, reason, key),
              && b < |s.bookings| && s.bookings[b] != Returned && s.bookings[b] != Inspected
              && s.bookings[b] != Completed && s.bookings[b] != Cancelled
              && (exists i: nat :: Runs(s, b, i)) && forall i: nat :: Runs(s, b, i) ==> exists w :: MayRun(env, s, i, end, w))
  {
    assert Apply(env, s, Extend(b, end, charge, evidence, reason, key)).Ok? <==> ExtendBooking(env, s, b, end).Ok? by {
      hide ExtendBooking;
    }
    hide Apply;
    TargetsRun(s, b);
    BookingRunsIff(env, s, b, end);
    hide Check, Targets, Runs, ExtendBooking, MayRun;
  }

  lemma BookingRunsIff(env: Catalogue, s: Tenant, b: nat, end: int)
    ensures ExtendBooking(env, s, b, end).Ok?
            <==> && b < |s.bookings| && s.bookings[b] != Returned && s.bookings[b] != Inspected
                 && s.bookings[b] != Completed && s.bookings[b] != Cancelled
                 && Targets(s, b) != {} && forall i | i in Targets(s, b) :: exists w :: MayRun(env, s, i, end, w)
  {
    hide Check, ExtendRows;
    forall i | i in Targets(s, b)
      ensures (exists w :: MayRun(env, s, i, end, w))
              <==> s.reqs[i].hold.start < end && s.reqs[i].hold.end < end && ExtensionCheck(env, s, i, end).Ok?
    {
      if ExtensionCheck(env, s, i, end).Ok? && s.reqs[i].hold.start < end && s.reqs[i].hold.end < end {
        assert MayRun(env, s, i, end, ExtensionCheck(env, s, i, end).value);
      }
    }
    hide ExtensionCheck, MayRun;
  }

  lemma TargetsRun(s: Tenant, b: nat)
    ensures forall i: nat :: i in Targets(s, b) <==> Runs(s, b, i)
    ensures Targets(s, b) == {} <==> !exists i: nat :: Runs(s, b, i)
    ensures forall i: nat :: Runs(s, b, i) ==> i < |s.reqs|
  {
    assert forall i: nat :: i in Targets(s, b) <==> Runs(s, b, i);
    if Targets(s, b) != {} { var i :| i in Targets(s, b); }
  }

  /** What an extension makes of a row that runs until `end`: its dates, and an overdue row is on time again. */
  predicate RunsUntil(r: Requirement, q: Requirement, end: int, w: Range) {
    && q == r.(hold := r.hold.(end := end, blocked := w), status := q.status, events := q.events)
    && if r.status != ReqStatus.OVERDUE then q.status == r.status && q.events == r.events
       else Logs(r, q, EventKind.OVERDUE_RESOLVED, Max(1, r.handedOutQty - r.returnedQty - r.lostQty), {},
                 if r.handedOutQty == r.quantity then ReqStatus.HANDED_OUT else ReqStatus.RESERVED)
  }

  /** An extension rewrites the rows that still run, each with the days its own check named, and no others. */
  lemma ExtendWrites(env: Catalogue, s: Tenant, b: nat, end: int, charge: int, evidence: string, reason: string, key: string)
    requires (ExtensionTable, key) !in s.keys && Apply(env, s, Extend(b, end, charge, evidence, reason, key)).Ok?
    ensures var t := Apply(env, s, Extend(b, end, charge, evidence, reason, key)).value;
            && t == s.(reqs := t.reqs, keys := t.keys) && |t.reqs| == |s.reqs|
            && forall i: nat :: i < |s.reqs| ==>
                 if Runs(s, b, i) then MayRun(env, s, i, end, t.reqs[i].hold.blocked)
                                       && RunsUntil(s.reqs[i], t.reqs[i], end, t.reqs[i].hold.blocked)
                 else t.reqs[i] == s.reqs[i]
  {
    TargetsRun(s, b);
    hide Check, Targets, Runs;
    var t := Apply(env, s, Extend(b, end, charge, evidence, reason, key)).value;
    assert ExtendBooking(env, s, b, end).Ok?;
    forall i: nat | i < |s.reqs| && Runs(s, b, i)
      ensures MayRun(env, s, i, end, t.reqs[i].hold.blocked) && RunsUntil(s.reqs[i], t.reqs[i], end, t.reqs[i].hold.blocked)
    {
      assert i in Targets(s, b);
      assert t.reqs[i] == Extended(s.reqs[i], end, ExtensionCheck(env, s, i, end).value);
    }
  }

  // ------------------------------------------------------------------ Opening a booking

  /** The row of a line: reserved until the request expires, with nothing assigned and one entry in its log. */
  predicate Opens(r: Requirement, b: nat, expiresAt: Option<int>, line: Line) {
    && r.booking == b && r.pool == line.pool && r.quantity == line.quantity
    && r.assignedQty == 0 && r.handedOutQty == 0 && r.returnedQty == 0 && r.lostQty == 0 && r.rows == []
    && r.status == ReqStatus.RESERVED && r.prep == NOT_STARTED
    && r.hold == Hold(HoldStatus.PENDING, expiresAt, line.start, line.end, r.hold.blocked)
    && r.events == [Event(EventKind.RESERVED, line.quantity, {}, PLANNED, ReqStatus.RESERVED)]
  }

  /** The rows in `reqs` from place `n` on are those of `lines`, each admitted next to all the rows before it. */
  ghost predicate Admitted(env: Catalogue, reqs: seq<Requirement>, n: nat, b: nat, expiresAt: Option<int>, lines: seq<Line>, now: int) {
    && |reqs| == n + |lines|
    && forall k :: 0 <= k < |lines| ==>
         && Opens(reqs[n + k], b, expiresAt, lines[k])
         && Check(env, reqs[..n + k], lines[k].pool, lines[k].start, lines[k].end, lines[k].quantity, now, None, true)
            == Ok(reqs[n + k].hold.blocked)
  }

  /** A booking is opened exactly when each of its lines passes the check next to the rows before it. */
  lemma CreateIff(env: Catalogue, s: Tenant, expiresAt: Option<int>, lines: seq<Line>)
    ensures AcceptedIff(env, s, Create(expiresAt, lines),
              exists reqs :: s.reqs <= reqs && Admitted(env, reqs, |s.reqs|, |s.bookings|, expiresAt, lines, s.now))
    ensures Apply(env, s, Create(expiresAt, lines)).Ok? ==>
              var t := Apply(env, s, Create(expiresAt, lines)).value;
              && t == s.(bookings := s.bookings + [Pending], reqs := t.reqs) && s.reqs <= t.reqs
              && Admitted(env, t.reqs, |s.reqs|, |s.bookings|, expiresAt, lines, s.now)
  {
    var start := s.(bookings := s.bookings + [Pending]);
    var outcome := AdmitAll(env, start, |s.bookings|, expiresAt, lines);
    if outcome.Ok? {
      AdmitAllAdmits(env, start, |s.bookings|, expiresAt, lines);
    } else if reqs :| s.reqs <= reqs && Admitted(env, reqs, |s.reqs|, |s.bookings|, expiresAt, lines, s.now) {
      AdmittedIsAccepted(env, start, |s.bookings|, expiresAt, lines, reqs);
    }
    hide AdmitAll, Admitted;
  }

  lemma {:induction false} AdmitAllAdmits(env: Catalogue, s: Tenant, b: nat, expiresAt: Option<int>, lines: seq<Line>)
    requires AdmitAll(env, s, b, expiresAt, lines).Ok?
    ensures var t := AdmitAll(env, s, b, expiresAt, lines).value;
            t == s.(reqs := t.reqs) && s.reqs <= t.reqs && Admitted(env, t.reqs, |s.reqs|, b, expiresAt, lines, s.now)
    decreases lines
  {
    if lines != [] {
      var line := lines[0];
      var w := Check(env, s.reqs, line.pool, line.start, line.end, line.quantity, s.now, None, true).value;
      var next := s.(reqs := s.reqs + [NewRow(b, expiresAt, line, w)]);
      AdmitAllAdmits(env, next, b, expiresAt, lines[1..]);
      var t := AdmitAll(env, next, b, expiresAt, lines[1..]).value;
      assert t.reqs[|s.reqs|] == next.reqs[|s.reqs|] && t.reqs[..|s.reqs|] == s.reqs;
      hide AdmitAll, Check, Admitted;
      AdmittedWithFirst(env, t.reqs, |s.reqs|, b, expiresAt, lines, s.now);
    }
  }

  lemma AdmittedWithFirst(env: Catalogue, reqs: seq<Requirement>, n: nat, b: nat, expiresAt: Option<int>, lines: seq<Line>, now: int)
    requires lines != [] && n < |reqs| && Admitted(env, reqs, n + 1, b, expiresAt, lines[1..], now)
    requires Opens(reqs[n], b, expiresAt, lines[0])
    requires Check(env, reqs[..n], lines[0].pool, lines[0].start, lines[0].end, lines[0].quantity, now, None, true) == Ok(reqs[n].hold.blocked)
    ensures Admitted(env, reqs, n, b, expiresAt, lines, now)
  {
    hide Check, Opens;
    forall k | 0 < k < |lines| ensures lines[k] == lines[1..][k - 1] { }
  }

  lemma {:induction false} AdmittedIsAccepted(env: Catalogue, s: Tenant, b: nat, expiresAt: Option<int>, lines: seq<Line>, reqs: seq<Requirement>)
    requires s.reqs <= reqs && Admitted(env, reqs, |s.reqs|, b, expiresAt, lines, s.now)
    ensures AdmitAll(env, s, b, expiresAt, lines).Ok?
    decreases lines
  {
    if lines != [] {
      var line, r := lines[0], reqs[|s.reqs|];
      assert reqs[..|s.reqs|] == s.reqs;
      assert Opens(r, b, expiresAt, line);
      assert r == NewRow(b, expiresAt, line, r.hold.blocked);
      var next := s.(reqs := s.reqs + [r]);
      forall k | 0 <= k < |lines[1..]| ensures lines[1..][k] == lines[k + 1] { }
      hide Check;
      AdmittedIsAccepted(env, next, b, expiresAt, lines[1..], reqs);
    }
  }
}
