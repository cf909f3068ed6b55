/**
 The invariant of one requirement row under its booking's status. No single guard
 states it; every transaction keeps it.
 */
module RentalInvariant {
  import opened Common
  import opened RentalModel

  /**
   With `h`, `back` and `lost` rebuilt from the log and `a` the active rows: the three
   counters are the three sizes, every resolved piece was handed out, and exactly the
   pieces still out are active.
   */
  ghost predicate LogShape(a: set<nat>, h: set<nat>, back: set<nat>, lost: set<nat>, rows: nat, r: Requirement) {
    && |h| == r.handedOutQty && |back| == r.returnedQty && |lost| == r.lostQty
    && back !! lost && back + lost <= h
    && (forall id | id in h :: id < rows)
    && a * h == h - (back + lost)
  }

  ghost predicate LogMatches(r: Requirement) {
    LogShape(ActiveRows(r.rows), HandedOutIds(r), ReturnedIds(r), LostIds(r), |r.rows|, r)
  }

  function Resolved(r: Requirement): int {
    r.returnedQty + r.lostQty
  }

  ghost predicate StatusMatches(r: Requirement) {
    match r.status
    case PLANNED => false
    case SUPERSEDED => false
    case RESERVED => r.handedOutQty == 0 && r.assignedQty == 0
    case PARTIALLY_ASSIGNED => r.handedOutQty == 0 && 0 < r.assignedQty < r.quantity
    case ASSIGNED => r.handedOutQty == 0 && r.assignedQty == r.quantity
    case PARTIALLY_HANDED_OUT => 0 < r.handedOutQty < r.quantity && Resolved(r) == 0
    case HANDED_OUT => r.handedOutQty == r.quantity && Resolved(r) < r.quantity
    case OVERDUE => r.handedOutQty == r.quantity && Resolved(r) < r.quantity
    case PARTIALLY_RETURNED => r.handedOutQty == r.quantity && 0 < Resolved(r) < r.quantity
    case RETURNED => r.returnedQty == r.quantity && r.lostQty == 0
    case LOST => Resolved(r) == r.quantity && r.lostQty > 0
    case CANCELLED => r.handedOutQty == 0 && !HoldLive(r.hold)
  }

  ghost predicate PreparationMatches(r: Requirement) {
    && (r.prep == READY ==> r.assignedQty + Resolved(r) == r.quantity)
    && (r.handedOutQty > 0 ==> r.prep == READY)
  }

  ghost predicate StageMatches(r: Requirement, b: BookingStatus) {
    match b
    case Pending =>
      r.handedOutQty == 0 && r.prep != READY && r.hold.status == HoldStatus.PENDING
    case Confirmed => Resolved(r) == 0 && r.hold.status == HoldStatus.CONFIRMED
    case Delivered => r.handedOutQty == r.quantity && r.hold.status == HoldStatus.CONFIRMED
    case Overdue => r.handedOutQty == r.quantity && r.hold.status == HoldStatus.CONFIRMED
    case Returned => Resolved(r) == r.quantity && r.hold.status == HoldStatus.CONFIRMED
    case Inspected => Resolved(r) == r.quantity && r.hold.status == HoldStatus.CONFIRMED
    case Completed => Resolved(r) == r.quantity && r.hold.status == RELEASED
    case Cancelled => r.handedOutQty == 0 && !HoldLive(r.hold)
  }

  /**
   The counters of a row with `active` assignments not yet released. `assignedQty` counts
   them, unless a cancellation released them all and left the counter behind.
   */
  ghost predicate CountersOk(r: Requirement, active: nat, b: BookingStatus) {
    && 1 <= r.quantity && active <= r.quantity
    && 0 <= r.assignedQty <= r.quantity && 0 <= r.returnedQty && 0 <= r.lostQty
    && Resolved(r) <= r.handedOutQty <= r.quantity
    && (r.assignedQty == active || (b == Cancelled && r.status == ReqStatus.CANCELLED && active == 0))
    && StatusMatches(r) && PreparationMatches(r) && StageMatches(r, b)
  }

  ghost predicate DatesOk(h: Hold) {
    h.blocked.first <= h.start <= h.end <= h.blocked.last
  }

  ghost predicate RowOk(r: Requirement, b: BookingStatus) {
    LogMatches(r) && CountersOk(r, |ActiveRows(r.rows)|, b) && DatesOk(r.hold)
  }

  // ------------------------------------------------------------------ Rows and logs

  lemma LogGrows(events: seq<Event>, e: Event, kind: EventKind)
    ensures e.kind == kind ==> IdsOf(events + [e], kind) == IdsOf(events, kind) + e.ids
    ensures e.kind != kind ==> IdsOf(events + [e], kind) == IdsOf(events, kind)
  {
    assert (events + [e])[..|events|] == events;
    assert IdsOf(events, kind) + {} == IdsOf(events, kind);
  }

  ghost predicate OneMoreEvent(r: Requirement, t: Requirement, e: Event) {
    t.events == r.events + [e]
  }

  /** How one more event changes the three rebuilt id sets. */
  lemma LogGrowsAll(r: Requirement, t: Requirement, e: Event)
    requires OneMoreEvent(r, t, e)
    ensures HandedOutIds(t) == if e.kind == EventKind.HANDED_OUT then HandedOutIds(r) + e.ids else HandedOutIds(r)
    ensures ReturnedIds(t) == if e.kind == EventKind.RETURNED then ReturnedIds(r) + e.ids else ReturnedIds(r)
    ensures LostIds(t) == if e.kind == EventKind.MARKED_LOST then LostIds(r) + e.ids else LostIds(r)
  {
    LogGrows(r.events, e, EventKind.HANDED_OUT);
    LogGrows(r.events, e, EventKind.RETURNED);
    LogGrows(r.events, e, EventKind.MARKED_LOST);
  }

  /** An event of another kind leaves the rebuilt ids alone. */
  lemma SameLog(r: Requirement, t: Requirement, e: Event)
    requires LogMatches(r) && t.rows == r.rows
    requires OneMoreEvent(r, t, e) && !IsHandover(e.kind)
    requires t.handedOutQty == r.handedOutQty && t.returnedQty == r.returnedQty && t.lostQty == r.lostQty
    ensures LogMatches(t)
  {
    LogGrowsAll(r, t, e);
  }

  lemma ReleasedActive(rows: seq<Assignment>, ids: set<nat>)
    ensures ActiveRows(ReleaseRows(rows, ids)) == ActiveRows(rows) - ids
  {
  }

  lemma GrownActive(rows: seq<Assignment>, added: seq<Assignment>)
    requires forall a | a in added :: !a.released
    ensures ActiveRows(rows + added) == ActiveRows(rows) + Block(|rows|, |added|)
    ensures |ActiveRows(rows + added)| == |ActiveRows(rows)| + |added|
  {
    assert ActiveRows(rows) !! Block(|rows|, |added|);
    forall i: nat ensures i in ActiveRows(rows + added) <==> i in ActiveRows(rows) + Block(|rows|, |added|) {
      if |rows| <= i < |rows| + |added| {
        assert (rows + added)[i] == added[i - |rows|];
      }
    }
  }

  // ------------------------------------------------------------------ One transaction on one row

  lemma AssignKeeps(r: Requirement, b: BookingStatus, units: seq<nat>, eligible: set<nat>, barred: set<nat>, taken: set<nat>)
    requires RowOk(r, b) && AssignTo(r, units, eligible, barred, taken).Ok?
    ensures RowOk(AssignTo(r, units, eligible, barred, taken).value, b)
  {
    var t := AssignTo(r, units, eligible, barred, taken).value;
    var added := t.rows[|r.rows|..];
    assert t.rows == r.rows + added;
    GrownActive(r.rows, added);
    LogGrowsAll(r, t, t.events[|r.events|]);
  }

  lemma ReleaseKeeps(r: Requirement, b: BookingStatus, row: nat)
    requires RowOk(r, b) && ReleaseFrom(r, row).Ok?
    ensures RowOk(ReleaseFrom(r, row).value, b)
    ensures r.assignedQty >= 1
  {
    var t := ReleaseFrom(r, row).value;
    ReleasedActive(r.rows, {row});
    LogGrowsAll(r, t, t.events[|r.events|]);
    assert HandedOutIds(r) == {};
  }

  lemma PrepareKeeps(r: Requirement, b: BookingStatus, ready: bool)
    requires RowOk(r, b) && PrepareIt(r, b, ready).Ok?
    ensures RowOk(PrepareIt(r, b, ready).value, b)
  {
    LogGrowsAll(r, PrepareIt(r, b, ready).value, PrepareIt(r, b, ready).value.events[|r.events|]);
  }

  /** The ids an event may name are active, and new to the log in the right way. */
  lemma ResolvedShape(r: Requirement, b: BookingStatus, kind: EventKind, quantity: int, ids: seq<nat>)
    requires RowOk(r, b) && IsHandover(kind) && ResolveAssignments(r, kind, quantity, ids).Ok?
    ensures var chosen := ResolveAssignments(r, kind, quantity, ids).value;
            && |chosen| == quantity && chosen <= ActiveRows(r.rows)
            && (kind == EventKind.HANDED_OUT ==> chosen !! HandedOutIds(r) && r.handedOutQty + quantity <= |ActiveRows(r.rows)| + Resolved(r))
            && (kind != EventKind.HANDED_OUT ==> chosen <= HandedOutIds(r) - ResolvedIds(r)
                                                 && quantity <= r.handedOutQty - Resolved(r))
  {
    var chosen := ResolveAssignments(r, kind, quantity, ids).value;
    var h, res, a := HandedOutIds(r), ResolvedIds(r), ActiveRows(r.rows);
    assert |res| == Resolved(r);
    assert |h - res| == |h| - |res|;
    if kind == EventKind.HANDED_OUT {
      assert chosen * h <= a * h;
      assert chosen !! h;
      SubsetSize((h - res) + chosen, a);
      assert |(h - res) + chosen| == |h - res| + |chosen|;
    } else {
      SubsetSize(chosen, h - res);
    }
  }

  lemma ShapeOut(a: set<nat>, h: set<nat>, back: set<nat>, lost: set<nat>, rows: nat, r: Requirement, t: Requirement, chosen: set<nat>)
    requires LogShape(a, h, back, lost, rows, r) && chosen <= a && chosen !! h && (forall i | i in a :: i < rows)
    requires t.handedOutQty == r.handedOutQty + |chosen| && t.returnedQty == r.returnedQty && t.lostQty == r.lostQty
    ensures LogShape(a, h + chosen, back, lost, rows, t)
  {
    forall x ensures x in a * (h + chosen) <==> x in (h + chosen) - (back + lost) {
      assert x in a * h <==> x in h - (back + lost);
    }
  }

  /** Resolving `chosen` takes exactly these out of the pieces still out. */
  lemma StillOut(a: set<nat>, h: set<nat>, resolved: set<nat>, chosen: set<nat>, resolved': set<nat>)
    requires a * h == h - resolved && resolved' == resolved + chosen
    ensures (a - chosen) * h == h - resolved'
  {
    forall x ensures x in (a - chosen) * h <==> x in h - resolved' {
      assert x in a * h <==> x in h - resolved;
    }
  }

  lemma DisjointSize(a: set<nat>, b: set<nat>)
    requires a !! b
    ensures |a + b| == |a| + |b|
  {
  }

  lemma SubtractSize(a: set<nat>, b: set<nat>)
    requires b <= a
    ensures |a - b| == |a| - |b|
  {
    DisjointSize(a - b, b);
    assert (a - b) + b == a;
  }

  lemma ShapeBack(a: set<nat>, h: set<nat>, back: set<nat>, lost: set<nat>, rows: nat, r: Requirement, chosen: set<nat>,
                  back': set<nat>, lost': set<nat>, t: Requirement)
    requires LogShape(a, h, back, lost, rows, r) && chosen <= a && chosen <= h - (back + lost)
    requires (back' == back + chosen && lost' == lost) || (back' == back && lost' == lost + chosen)
    requires t.handedOutQty == r.handedOutQty
    requires t.returnedQty == r.returnedQty + if back' == back then 0 else |chosen|
    requires t.lostQty == r.lostQty + if lost' == lost then 0 else |chosen|
    requires chosen != {}
    ensures LogShape(a - chosen, h, back', lost', rows, t)
    ensures |a - chosen| == |a| - |chosen|
  {
    SubtractSize(a, chosen);
    StillOut(a, h, back + lost, chosen, back' + lost');
    DisjointSize(back, chosen);
    DisjointSize(lost, chosen);
    Apart(h, back, lost, chosen);
    if back' == back + chosen {
      assert back' != back by { var x :| x in chosen; }
    } else {
      assert lost' != lost by { var x :| x in chosen; }
    }
  }

  lemma Apart(h: set<nat>, back: set<nat>, lost: set<nat>, chosen: set<nat>)
    requires back !! lost && back + lost <= h && chosen <= h - (back + lost)
    ensures back + chosen !! lost && back !! lost + chosen && back + lost + chosen <= h
    ensures back + chosen + lost == back + lost + chosen == back + (lost + chosen)
  {
  }

  lemma HandOutKeeps(r: Requirement, b: BookingStatus, quantity: int, ids: seq<nat>, checks: UnitChecks)
    requires RowOk(r, b) && RecordOn(r, b, EventKind.HANDED_OUT, quantity, ids, checks).Ok?
    ensures RowOk(RecordOn(r, b, EventKind.HANDED_OUT, quantity, ids, checks).value, b)
  {
    var t := RecordOn(r, b, EventKind.HANDED_OUT, quantity, ids, checks).value;
    var chosen := ResolveAssignments(r, EventKind.HANDED_OUT, quantity, ids).value;
    ResolvedShape(r, b, EventKind.HANDED_OUT, quantity, ids);
    LogGrowsAll(r, t, t.events[|r.events|]);
    ShapeOut(ActiveRows(r.rows), HandedOutIds(r), ReturnedIds(r), LostIds(r), |r.rows|, r, t, chosen);
  }

  lemma ReturnKeepsCounters(r: Requirement, active: nat, b: BookingStatus, kind: EventKind, quantity: int)
    requires CountersOk(r, active, b) && NextCounters(r, kind, quantity).Ok?
    requires 1 <= quantity <= active && kind in {EventKind.RETURNED, EventKind.MARKED_LOST} && EventAllowed(b, kind)
    ensures CountersOk(NextCounters(r, kind, quantity).value, active - quantity, b)
  {
  }

  lemma ReturnKeepsLog(r: Requirement, t: Requirement, e: Event, kind: EventKind, chosen: set<nat>)
    requires LogMatches(r) && kind in {EventKind.RETURNED, EventKind.MARKED_LOST}
    requires chosen != {} && chosen <= ActiveRows(r.rows) && chosen <= HandedOutIds(r) - ResolvedIds(r)
    requires OneMoreEvent(r, t, e) && e.kind == kind && e.ids == chosen
    requires t.rows == ReleaseRows(r.rows, chosen) && t.handedOutQty == r.handedOutQty
    requires t.returnedQty == r.returnedQty + if kind == EventKind.RETURNED then |chosen| else 0
    requires t.lostQty == r.lostQty + if kind == EventKind.MARKED_LOST then |chosen| else 0
    ensures LogMatches(t) && |ActiveRows(t.rows)| == |ActiveRows(r.rows)| - |chosen|
  {
    LogGrowsAll(r, t, e);
    var h, back, lost := HandedOutIds(r), ReturnedIds(r), LostIds(r);
    var back', lost' := ReturnedIds(t), LostIds(t);
    ReleasedActive(r.rows, chosen);
    ShapeBack(ActiveRows(r.rows), h, back, lost, |r.rows|, r, chosen, back', lost', t);
  }

  lemma ReturnKeeps(r: Requirement, b: BookingStatus, kind: EventKind, quantity: int, ids: seq<nat>, checks: UnitChecks)
    requires kind != EventKind.HANDED_OUT
    requires RowOk(r, b) && RecordOn(r, b, kind, quantity, ids, checks).Ok?
    ensures RowOk(RecordOn(r, b, kind, quantity, ids, checks).value, b)
  {
    hide LogMatches;
    hide CountersOk;
    var t := RecordOn(r, b, kind, quantity, ids, checks).value;
    var chosen := ResolveAssignments(r, kind, quantity, ids).value;
    ResolvedShape(r, b, kind, quantity, ids);
    ReturnKeepsLog(r, t, t.events[|r.events|], kind, chosen);
    assert CountersOk(t, |ActiveRows(t.rows)|, b) by {
      ReturnKeepsCounters(r, |ActiveRows(r.rows)|, b, kind, quantity);
      SameCounters(NextCounters(r, kind, quantity).value, t, |ActiveRows(t.rows)|, b);
    }
  }

  /** Only the counters, the statuses and the hold matter to `CountersOk`. */
  lemma SameCounters(r: Requirement, t: Requirement, active: nat, b: BookingStatus)
    requires CountersOk(r, active, b) && t == r.(rows := t.rows, events := t.events)
    ensures CountersOk(t, active, b)
  {
  }

  /** Closing releases every assignment; with nothing out, the log still matches. */
  lemma ClosedKeepsLog(r: Requirement, end: HoldStatus)
    requires LogMatches(r) && HandedOutIds(r) == ResolvedIds(r)
    ensures LogMatches(Closed(r, end)) && ActiveRows(Closed(r, end).rows) == {}
  {
    ReleasedActive(r.rows, ActiveRows(r.rows));
  }

  /** Moving a booking on leaves the rebuilt ids as they are. */
  lemma MoveKeepsLog(r: Requirement, to: BookingStatus)
    requires LogMatches(r)
    requires to == Cancelled || to == Completed ==> HandedOutIds(r) == ResolvedIds(r)
    ensures LogMatches(Moved(r, to))
    ensures ActiveRows(Moved(r, to).rows)
            == if to == Cancelled || to == Completed then {} else ActiveRows(r.rows)
  {
    hide LogMatches;
    if to == Cancelled && InPlay(r) {
      var c := Log(r, EventKind.CANCELLED, r.quantity, {}, ReqStatus.CANCELLED);
      SameLog(r, c, c.events[|r.events|]);
      LogGrowsAll(r, c, c.events[|r.events|]);
      ClosedKeepsLog(c, HoldStatus.CANCELLED);
    } else if to == Cancelled {
      ClosedKeepsLog(r, HoldStatus.CANCELLED);
    } else if to == Completed {
      ClosedKeepsLog(r, RELEASED);
    } else if to == Overdue && InPlay(r) && Unresolved(r) {
      SameLog(r, Moved(r, to), Moved(r, to).events[|r.events|]);
    } else {
      SameShape(r, Moved(r, to));
    }
  }

  lemma SameShape(r: Requirement, t: Requirement)
    requires LogMatches(r) && t == r.(hold := t.hold)
    ensures LogMatches(t)
  {
  }

  /** What the transition checks of a booking say about each of its rows. */
  ghost predicate Passes(r: Requirement, to: BookingStatus, now: int) {
    && (to == Confirmed ==> Counted(r.hold, now))
    && (to == Delivered && InPlay(r) ==> r.handedOutQty == r.quantity)
    && (to in {Returned, Inspected, Completed} && InPlay(r) ==> Resolved(r) == r.quantity)
    && (to == Cancelled && InPlay(r) ==> !Unresolved(r))
  }

  lemma MoveKeepsCounters(r: Requirement, active: nat, from: BookingStatus, to: BookingStatus, now: int)
    requires CountersOk(r, active, from) && Allowed(from, to) && Passes(r, to, now)
    requires to == Completed ==> r.assignedQty == 0
    ensures CountersOk(Moved(r, to), if to == Cancelled || to == Completed then 0 else active, to)
    ensures to == Cancelled || to == Completed ==> Resolved(r) == r.handedOutQty
  {
  }

  /** As many resolved as handed out: the log names the same pieces twice. */
  lemma AllResolved(r: Requirement)
    requires LogMatches(r) && Resolved(r) == r.handedOutQty
    ensures HandedOutIds(r) == ResolvedIds(r)
  {
    DisjointSize(ReturnedIds(r), LostIds(r));
    SubsetSize(ResolvedIds(r), HandedOutIds(r));
  }

  /** Once everything is returned or lost, no assignment is active. */
  lemma AllBack(r: Requirement, b: BookingStatus)
    requires RowOk(r, b) && Resolved(r) == r.quantity
    ensures ActiveRows(r.rows) == {} && r.assignedQty == 0
  {
    AllResolved(r);
    NothingActive(r, b);
  }

  /** A row whose pieces are all resolved was fully prepared, so what is active was handed out. */
  lemma NothingActive(r: Requirement, b: BookingStatus)
    requires CountersOk(r, |ActiveRows(r.rows)|, b) && Resolved(r) == r.quantity
    ensures ActiveRows(r.rows) == {} && r.assignedQty == 0
  {
  }

  lemma MoveKeeps(r: Requirement, from: BookingStatus, to: BookingStatus, now: int)
    requires RowOk(r, from) && Allowed(from, to) && Passes(r, to, now)
    ensures RowOk(Moved(r, to), to)
  {
    hide LogMatches, CountersOk, Passes, Allowed, Moved;
    MovedDates(r, to);
    if to == Completed {
      CompletesResolved(r, |ActiveRows(r.rows)|, from, now);
      AllBack(r, from);
    }
    MoveKeepsCounters(r, |ActiveRows(r.rows)|, from, to, now);
    if to == Cancelled || to == Completed {
      AllResolved(r);
    }
    MoveKeepsLog(r, to);
  }

  lemma MovedDates(r: Requirement, to: BookingStatus)
    requires DatesOk(r.hold)
    ensures DatesOk(Moved(r, to).hold)
  {
  }

  lemma CompletesResolved(r: Requirement, active: nat, from: BookingStatus, now: int)
    requires CountersOk(r, active, from) && Allowed(from, Completed) && Passes(r, Completed, now)
    ensures Resolved(r) == r.quantity
  {
  }

  /** A lapsed row is swept together with its booking, and its assignments stay. */
  lemma SweepKeeps(r: Requirement, now: int)
    requires RowOk(r, Pending) && Lapsed(r, now)
    ensures RowOk(Swept(r, now), Cancelled)
  {
    hide LogMatches;
    assert CountersOk(Swept(r, now), |ActiveRows(r.rows)|, Cancelled);
    SameLog(r, Swept(r, now), Swept(r, now).events[|r.events|]);
  }

  /** Rejecting a request releases everything and writes no event. */
  lemma RejectKeeps(r: Requirement)
    requires RowOk(r, Pending)
    ensures RowOk(Rejected(r), Cancelled) && ActiveRows(Rejected(r).rows) == {}
    ensures Reviewable(r) && Rejected(r).status == ReqStatus.CANCELLED
  {
    assert Reviewable(r) && Resolved(r) == r.handedOutQty;
    AllResolved(r);
    var c := r.(status := ReqStatus.CANCELLED);
    assert LogMatches(c);
    ClosedKeepsLog(c, HoldStatus.CANCELLED);
  }

  lemma ExtendKeepsCounters(r: Requirement, active: nat, b: BookingStatus, end: int, w: Range)
    requires CountersOk(r, active, b)
    ensures CountersOk(Extended(r, end, w), active, b)
    ensures r.status == ReqStatus.OVERDUE ==> Extended(r, end, w).status == ReqStatus.HANDED_OUT
  {
  }

  lemma ExtendKeeps(r: Requirement, b: BookingStatus, end: int, w: Range)
    requires RowOk(r, b) && w.first <= r.hold.start <= end <= w.last
    ensures RowOk(Extended(r, end, w), b)
  {
    hide LogMatches;
    hide CountersOk;
    var t := Extended(r, end, w);
    ExtendKeepsCounters(r, |ActiveRows(r.rows)|, b, end, w);
    if r.status == ReqStatus.OVERDUE {
      SameLog(r, t, t.events[|r.events|]);
    } else {
      SameShape(r, t);
    }
  }
}
