/**
 A shipment and its event log. Couriers report by webhook and by polling, late, twice and
 out of order; staff and the system move the shipment as well.
 */
module Shipment {
  import opened Common

  datatype Status =
    | PrepareParcel | PickupPending | PickupAssigned | PickupFailed | PickedUp | AtHub | InTransit | AtDestination
    | OutForDelivery | Delivered | PartialDelivered | ReturnedToSender | Cancelled | OnHold | Error | Unknown

  datatype Source = System | Manual | Provider

  /** `ignored` is the label of an update that was recorded without being applied. */
  datatype Event = Event(status: Status, source: Source, key: string, at: int, ignored: bool)

  datatype Parcel = Parcel(status: Status, events: seq<Event>)

  /** Statuses that no courier update may leave. */
  predicate Terminal(s: Status) {
    s == Delivered || s == ReturnedToSender || s == Cancelled
  }

  function Rank(s: Status): Option<nat> {
    match s
    case PrepareParcel => Some(0)
    case PickupPending => Some(10)
    case PickupAssigned => Some(20)
    case PickedUp => Some(30)
    case AtHub => Some(40)
    case InTransit => Some(50)
    case AtDestination => Some(60)
    case OutForDelivery => Some(70)
    case PartialDelivered => Some(80)
    case ReturnedToSender => Some(90)
    case Delivered => Some(100)
    case Cancelled => Some(100)
    case PickupFailed => None
    case OnHold => None
    case Error => None
    case Unknown => None
  }

  /** `b` does not fall behind `a`, as far as both are ranked. */
  predicate NotBehind(a: Status, b: Status) {
    Rank(a).Some? && Rank(b).Some? ==> Rank(a).value <= Rank(b).value
  }

  /** A new shipment, with its creation event. */
  function Start(status: Status, key: string, at: int): Parcel {
    Parcel(status, [Event(status, System, key, at, false)])
  }

  predicate KnownKey(p: Parcel, key: string) {
    exists e | e in p.events :: e.key == key
  }

  /** Appends an event and moves to its status, unless the key has been used. */
  function Transition(p: Parcel, status: Status, source: Source, key: string, at: int, ignored: bool): Parcel {
    if KnownKey(p, key) then p
    else Parcel(status, p.events + [Event(status, source, key, at, ignored)])
  }

  /** The latest time that a courier event carries. */
  function LatestProvider(events: seq<Event>): Option<int> {
    if events == [] then None
    else
      var e := events[|events| - 1];
      var before := LatestProvider(events[..|events| - 1]);
      if e.source != Provider then before
      else if before.Some? && before.value > e.at then before
      else Some(e.at)
  }

  predicate Stale(p: Parcel, at: int) {
    LatestProvider(p.events).Some? && LatestProvider(p.events).value > at
  }

  predicate Regresses(p: Parcel, status: Status) {
    (Terminal(p.status) && status != p.status) || !NotBehind(p.status, status)
  }

  function ApplyProvider(p: Parcel, status: Status, key: string, at: int): Parcel {
    if Stale(p, at) || Regresses(p, status) then Transition(p, p.status, Provider, key, at, true)
    else Transition(p, status, Provider, key, at, false)
  }

  datatype Move =
    | Report(status: Status, key: string, at: int)
    | Set(status: Status, staff: bool, key: string, at: int)

  /** Who moved the shipment when it was not the courier. */
  function SourceFor(staff: bool): Source {
    if staff then Manual else System
  }

  function Next(p: Parcel, m: Move): Parcel {
    match m
    case Report(status, key, at) => ApplyProvider(p, status, key, at)
    case Set(status, staff, key, at) => Transition(p, status, SourceFor(staff), key, at, false)
  }

  function Run(p: Parcel, moves: seq<Move>): Parcel {
    if moves == [] then p else Next(Run(p, moves[..|moves| - 1]), moves[|moves| - 1])
  }

  // ------------------------------------------------------------------ What every log keeps

  /** What the event at place `j` says about the ones before it. */
  ghost predicate GoodEvent(events: seq<Event>, j: nat)
    requires 0 < j < |events|
  {
    var e, before := events[j], events[j - 1];
    && (forall i :: 0 <= i < j ==> events[i].key != e.key)
    && (e.source == Provider ==>
          && (Terminal(before.status) ==> e.status == before.status)
          && NotBehind(before.status, e.status)
          && (e.ignored ==> e.status == before.status)
          && (!e.ignored ==> forall i :: 0 <= i < j && events[i].source == Provider ==> events[i].at <= e.at))
  }

  ghost predicate LogOk(p: Parcel) {
    && p.events != [] && p.status == p.events[|p.events| - 1].status
    && forall j: nat :: 0 < j < |p.events| ==> GoodEvent(p.events, j)
  }

  lemma {:induction false} LatestIsLatest(events: seq<Event>, i: nat)
    requires i < |events| && events[i].source == Provider
    ensures LatestProvider(events).Some? && events[i].at <= LatestProvider(events).value
  {
    if i < |events| - 1 { LatestIsLatest(events[..|events| - 1], i); }
  }

  lemma AppendKeeps(p: Parcel, e: Event)
    requires LogOk(p) && !KnownKey(p, e.key)
    requires e.source == Provider ==>
               && (Terminal(p.status) ==> e.status == p.status) && NotBehind(p.status, e.status)
               && (e.ignored ==> e.status == p.status) && (!e.ignored ==> !Stale(p, e.at))
    ensures LogOk(Parcel(e.status, p.events + [e]))
  {
    var next := p.events + [e];
    forall j: nat | 0 < j < |next| ensures GoodEvent(next, j) {
      if j < |p.events| {
        assert GoodEvent(p.events, j);
      } else if e.source == Provider && !e.ignored {
        forall i: nat | i < |p.events| && p.events[i].source == Provider ensures p.events[i].at <= e.at {
          LatestIsLatest(p.events, i);
        }
      }
    }
  }

  lemma NextKeeps(p: Parcel, m: Move)
    requires LogOk(p)
    ensures LogOk(Next(p, m))
  {
    if Next(p, m) != p { AppendKeeps(p, Next(p, m).events[|p.events|]); }
  }

  /** Over any run: the status is the last event's, keys are unique, and each courier event is in order. */
  lemma {:induction false} RunKeeps(status: Status, key: string, at: int, moves: seq<Move>)
    ensures LogOk(Run(Start(status, key, at), moves))
  {
    if moves != [] {
      RunKeeps(status, key, at, moves[..|moves| - 1]);
      hide LogOk;
      NextKeeps(Run(Start(status, key, at), moves[..|moves| - 1]), moves[|moves| - 1]);
    }
  }

  /** Applied courier updates carry non-decreasing times. */
  lemma AppliedInOrder(status: Status, key: string, at: int, moves: seq<Move>, i: nat, j: nat)
    requires var events := Run(Start(status, key, at), moves).events;
             i < j < |events| && events[i].source == Provider && events[j].source == Provider && !events[j].ignored
    ensures var events := Run(Start(status, key, at), moves).events; events[i].at <= events[j].at
  {
    RunKeeps(status, key, at, moves);
    hide Run;
    assert GoodEvent(Run(Start(status, key, at), moves).events, j);
  }

  /** While only the courier reports, and only ranked statuses, the rank never drops. */
  lemma {:induction false} RankNeverDrops(status: Status, key: string, at: int, moves: seq<Move>, i: nat, j: nat)
    requires var events := Run(Start(status, key, at), moves).events;
             i <= j < |events| && (forall k :: i < k <= j ==> events[k].source == Provider)
             && (forall k :: i <= k <= j ==> Rank(events[k].status).Some?)
    ensures var events := Run(Start(status, key, at), moves).events;
            Rank(events[i].status).value <= Rank(events[j].status).value
    decreases j
  {
    hide Run;
    if i < j {
      RunKeeps(status, key, at, moves);
      var events := Run(Start(status, key, at), moves).events;
      assert GoodEvent(events, j);
      RankNeverDrops(status, key, at, moves, i, j - 1);
    }
  }

  /** With an unranked status in between, it can. */
  lemma RankDropsAcrossHold(key: string, a: string, b: string, c: string)
    requires a != key && b != key && c != key && a != b && b != c && a != c
    ensures var p := Run(Start(PrepareParcel, key, 0), [Report(InTransit, a, 1), Report(OnHold, b, 2), Report(PickedUp, c, 3)]);
            |p.events| == 4 && p.events[1].status == InTransit && p.events[3].status == PickedUp && p.status == PickedUp
    ensures !NotBehind(InTransit, PickedUp)
  {
    hide ApplyProvider, LatestProvider, Next;
    var m1, m2, m3 := Report(InTransit, a, 1), Report(OnHold, b, 2), Report(PickedUp, c, 3);
    var p0 := Start(PrepareParcel, key, 0);
    NoReportYet(PrepareParcel, key, 0);
    var p1 := Fresh(p0, m1, None);
    var p2 := Fresh(p1, m2, Some(1));
    var p3 := Fresh(p2, m3, Some(2));
    RunOfThree(p0, m1, m2, m3);
  }

  /** After a manual step back, it can as well. */
  lemma RankDropsAcrossManualUpdate(key: string, a: string, b: string, c: string)
    requires a != key && b != key && c != key && a != b && b != c && a != c
    ensures var p := Run(Start(PrepareParcel, key, 0), [Report(InTransit, a, 1), Set(PickupPending, true, b, 2), Report(PickedUp, c, 3)]);
            |p.events| == 4 && p.events[1].status == InTransit && p.events[3].status == PickedUp && p.status == PickedUp
  {
    hide ApplyProvider, LatestProvider, Next;
    var m1, m2, m3 := Report(InTransit, a, 1), Set(PickupPending, true, b, 2), Report(PickedUp, c, 3);
    var p0 := Start(PrepareParcel, key, 0);
    NoReportYet(PrepareParcel, key, 0);
    var p1 := Fresh(p0, m1, None);
    var p2 := Moved(p1, m2);
    var p3 := Fresh(p2, m3, Some(1));
    RunOfThree(p0, m1, m2, m3);
  }

  /** A manual update is applied whatever it says, and no courier event is newer for it. */
  lemma Moved(p: Parcel, m: Move) returns (q: Parcel)
    requires m.Set? && forall e | e in p.events :: e.key != m.key
    ensures q == Next(p, m) == Parcel(m.status, p.events + [Event(m.status, SourceFor(m.staff), m.key, m.at, false)])
    ensures LatestProvider(q.events) == LatestProvider(p.events)
  {
    q := Next(p, m);
    assert q.events[..|p.events|] == p.events;
  }

  // ------------------------------------------------------------------ Exactly when the rank drops

  predicate Applied(p: Parcel, m: Move)
    requires m.Report?
  {
    Next(p, m) == Parcel(m.status, p.events + [Event(m.status, Provider, m.key, m.at, false)])
  }

  /** An event that lets the courier fall back to `status`: an unranked one, or a step back by someone else. */
  predicate Break(e: Event, status: Status)
    requires Rank(status).Some?
  {
    Rank(e.status) == None || (e.source != Provider && Rank(e.status).value <= Rank(status).value)
  }

  predicate Above(e: Event, status: Status)
    requires Rank(status).Some?
  {
    Rank(e.status).Some? && Rank(e.status).value > Rank(status).value
  }

  /** Until such an event, the log stays above `status`. */
  lemma {:induction false} StaysAbove(p: Parcel, status: Status, i: nat, j: nat)
    requires LogOk(p) && Rank(status).Some? && i <= j < |p.events| && Above(p.events[i], status)
    requires forall k :: i < k <= j ==> !Break(p.events[k], status)
    ensures Above(p.events[j], status)
  {
    if i < j {
      StaysAbove(p, status, i, j - 1);
      assert GoodEvent(p.events, j) && !Break(p.events[j], status);
    }
  }

  /**
   A new and timely report that would take the parcel below an earlier courier report is
   applied exactly when the current status is unranked or ranks no higher than the report;
   and there is always an event in between that explains it.
   */
  lemma RankDropsIff(status: Status, key: string, at: int, moves: seq<Move>, m: Move, i: nat)
    requires m.Report? && Rank(m.status).Some?
    requires var p := Run(Start(status, key, at), moves);
             && !KnownKey(p, m.key) && !Stale(p, m.at)
             && i < |p.events| && p.events[i].source == Provider && Above(p.events[i], m.status)
    ensures var p := Run(Start(status, key, at), moves);
            && (Applied(p, m) <==> Rank(p.status) == None || Rank(p.status).value <= Rank(m.status).value)
            && (Applied(p, m) <==> Next(p, m).status == m.status)
            && (Applied(p, m) ==> exists k :: i < k < |p.events| && Break(p.events[k], m.status))
  {
    RunKeeps(status, key, at, moves);
    var p := Run(Start(status, key, at), moves);
    hide Run;
    if forall k :: i < k < |p.events| ==> !Break(p.events[k], m.status) {
      StaysAbove(p, m.status, i, |p.events| - 1);
    }
    hide LogOk, LatestProvider;
  }

  lemma NoReportYet(status: Status, key: string, at: int)
    ensures LatestProvider(Start(status, key, at).events) == None
  {
  }

  lemma RunOfThree(p: Parcel, m1: Move, m2: Move, m3: Move)
    ensures Run(p, [m1, m2, m3]) == Next(Next(Next(p, m1), m2), m3)
  {
    hide Next;
    assert [m1, m2, m3][..2] == [m1, m2] && [m1, m2][..1] == [m1];
    assert Run(p, [m1]) == Next(p, m1);
    assert Run(p, [m1, m2]) == Next(Next(p, m1), m2);
  }

  /** A report that is neither stale, nor a step back, nor a repeat is applied. */
  lemma Fresh(p: Parcel, m: Move, latest: Option<int>) returns (q: Parcel)
    requires m.Report? && LatestProvider(p.events) == latest && (latest.Some? ==> latest.value <= m.at)
    requires !Terminal(p.status) && NotBehind(p.status, m.status) && forall e | e in p.events :: e.key != m.key
    ensures q == Next(p, m) == Parcel(m.status, p.events + [Event(m.status, Provider, m.key, m.at, false)])
    ensures LatestProvider(q.events) == Some(m.at)
  {
    q := Next(p, m);
    assert q.events[..|p.events|] == p.events;
  }

  // ------------------------------------------------------------------ Repeats

  lemma {:induction false} KeysStay(p: Parcel, moves: seq<Move>, key: string)
    requires KnownKey(p, key)
    ensures KnownKey(Run(p, moves), key)
  {
    if moves != [] {
      KeysStay(p, moves[..|moves| - 1], key);
    }
  }

  /** A message whose key was seen changes neither status nor log, whenever it comes again and whatever it says. */
  lemma ReplayIsHarmless(p: Parcel, m: Move, between: seq<Move>, again: Move)
    requires again.key == m.key
    ensures var later := Run(Next(p, m), between); Next(later, again) == later
  {
    var key := m.key;
    var q := Next(p, m);
    assert KnownKey(q, key) by {
      if q != p { assert q.events[|p.events|].key == key; }
    }
    KeysStay(q, between, key);
  }

  // ------------------------------------------------------------------ Arrival order

  /** `m` is the courier's last word: every other report is older, ranks no higher, and none closes the parcel differently. */
  ghost predicate LastWord(moves: seq<Move>, m: Move) {
    && m in moves && m.Report? && Rank(m.status).Some?
    && forall o | o in moves :: o.Report? && Rank(o.status).Some? && (o == m || Yields(o, m))
  }

  predicate Yields(o: Move, m: Move)
    requires o.Report? && m.Report?
  {
    o.at < m.at && NotBehind(o.status, m.status) && (Terminal(o.status) ==> o.status == m.status)
  }

  /** The keys of the reports are new and differ from one another. */
  ghost predicate FreshKeys(p: Parcel, moves: seq<Move>) {
    && (forall o | o in moves :: !KnownKey(p, o.key))
    && (forall i, j :: 0 <= i < j < |moves| ==> moves[i].key != moves[j].key)
  }

  lemma {:induction false} KeysComeFromMoves(p: Parcel, moves: seq<Move>, key: string)
    requires KnownKey(Run(p, moves), key)
    ensures KnownKey(p, key) || exists o | o in moves :: o.key == key
  {
    if moves != [] {
      var last := moves[|moves| - 1];
      var mid := Run(p, moves[..|moves| - 1]);
      if key != last.key {
        KeyFromBefore(mid, last, key);
        KeysComeFromMoves(p, moves[..|moves| - 1], key);
      }
    }
  }

  lemma KeyFromBefore(p: Parcel, m: Move, key: string)
    requires KnownKey(Next(p, m), key) && key != m.key
    ensures KnownKey(p, key)
  {
  }

  /** Before the last word arrives, nothing stands in its way; afterwards, nothing gets past it. */
  lemma {:induction false} LastWordStands(p: Parcel, moves: seq<Move>, m: Move, n: nat)
    requires LastWord(moves, m) && FreshKeys(p, moves) && n <= |moves|
    requires LatestProvider(p.events) == None && !Terminal(p.status) && Rank(p.status).Some? && NotBehind(p.status, m.status)
    ensures var q := Run(p, moves[..n]);
            if m in moves[..n] then q.status == m.status && LatestProvider(q.events) == Some(m.at)
            else && Rank(q.status).Some? && NotBehind(q.status, m.status) && (Terminal(q.status) ==> q.status == m.status)
                 && (LatestProvider(q.events).Some? ==> LatestProvider(q.events).value < m.at)
  {
    if n > 0 {
      LastWordStands(p, moves, m, n - 1);
      var q := Run(p, moves[..n - 1]);
      var o := moves[n - 1];
      assert moves[..n][..n - 1] == moves[..n - 1];
      assert o in moves;
      assert !KnownKey(q, o.key) by {
        if KnownKey(q, o.key) {
          KeysComeFromMoves(p, moves[..n - 1], o.key);
        }
      }
      hide Run, KnownKey;
      assert m in moves[..n] <==> m in moves[..n - 1] || o == m;
      Reported(q, o, m, m in moves[..n - 1]);
    }
  }

  lemma Reported(q: Parcel, o: Move, m: Move, seen: bool)
    requires o.Report? && m.Report? && Rank(o.status).Some? && Rank(m.status).Some? && (o == m || Yields(o, m)) && !KnownKey(q, o.key)
    requires if seen then o != m && q.status == m.status && LatestProvider(q.events) == Some(m.at)
             else && Rank(q.status).Some? && NotBehind(q.status, m.status) && (Terminal(q.status) ==> q.status == m.status)
                  && (LatestProvider(q.events).Some? ==> LatestProvider(q.events).value < m.at)
    ensures var r := Next(q, o);
            if seen || o == m then r.status == m.status && LatestProvider(r.events) == Some(m.at)
            else && Rank(r.status).Some? && NotBehind(r.status, m.status) && (Terminal(r.status) ==> r.status == m.status)
                 && (LatestProvider(r.events).Some? ==> LatestProvider(r.events).value < m.at)
  {
    var r := Next(q, o);
    assert r.events[..|q.events|] == q.events;
  }

  /**
   In whatever order the courier's reports arrive, the parcel ends where the last word
   says: the order is harmless.
   */
  lemma ArrivalOrderIsHarmless(p: Parcel, moves: seq<Move>, m: Move)
    requires LastWord(moves, m) && FreshKeys(p, moves)
    requires LatestProvider(p.events) == None && !Terminal(p.status) && Rank(p.status).Some? && NotBehind(p.status, m.status)
    ensures Run(p, moves).status == m.status
  {
    LastWordStands(p, moves, m, |moves|);
    assert moves[..|moves|] == moves;
  }

  // ------------------------------------------------------------------ The service

  function WebhookKey(payload: string): string {
    "webhook:" + payload
  }

  /** A shipment row with its event rows, and the webhook payloads received for it. */
  class Tracker {
    var status: Status
    var events: seq<Event>
    var receipts: set<string>

    ghost function State(): Parcel
      reads this
    {
      Parcel(status, events)
    }

    ghost predicate Valid()
      reads this
    {
      LogOk(State())
    }

    constructor (status: Status, key: string, at: int)
      ensures Valid() && State() == Start(status, key, at) && receipts == {}
    {
      this.status := status;
      events := [Event(status, System, key, at, false)];
      receipts := {};
    }

    method TransitionShipment(status: Status, source: Source, key: string, at: int, ignored: bool)
      modifies `status, `events
      ensures State() == Transition(old(State()), status, source, key, at, ignored)
    {
      if !(exists e | e in events :: e.key == key) {
        events := events + [Event(status, source, key, at, ignored)];
        this.status := status;
      }
    }

    /** A courier's report: recorded in any case, applied unless it is stale or a step back. */
    method ApplyProviderStatus(status: Status, key: string, at: int)
      requires Valid()
      modifies `status, `events
      ensures State() == Next(old(State()), Report(status, key, at)) && Valid()
    {
      NextKeeps(State(), Report(status, key, at));
      hide LogOk;
      var latest := LatestProvider(events);
      var staleByTime := latest.Some? && latest.value > at;
      var terminalRegression := Terminal(this.status) && status != this.status;
      var current, incoming := Rank(this.status), Rank(status);
      var progressRegression := current.Some? && incoming.Some? && incoming.value < current.value;
      if staleByTime || terminalRegression || progressRegression {
        TransitionShipment(this.status, Provider, key, at, true);
      } else {
        TransitionShipment(status, Provider, key, at, false);
      }
    }

    /** One courier callback; a payload that was received before is dropped. */
    method ProcessWebhook(payload: string, status: Status, at: int)
      requires Valid()
      modifies this
      ensures Valid() && receipts == old(receipts) + {payload}
      ensures State() == if payload in old(receipts) then old(State())
                         else Next(old(State()), Report(status, WebhookKey(payload), at))
    {
      if payload !in receipts {
        receipts := receipts + {payload};
        ApplyProviderStatus(status, WebhookKey(payload), at);
      }
    }

    /** Staff and system updates are not ranked. */
    method SetStatus(status: Status, staff: bool, key: string, at: int)
      requires Valid()
      modifies `status, `events
      ensures State() == Next(old(State()), Set(status, staff, key, at)) && Valid()
    {
      NextKeeps(State(), Set(status, staff, key, at));
      hide LogOk;
      TransitionShipment(status, SourceFor(staff), key, at, false);
    }
  }
}
