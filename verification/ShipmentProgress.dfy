/** The journey of a parcel, status by status: which reports move it on, and which are only recorded. */
module ShipmentProgress {
  import opened Common
  import opened Shipment

  /** The way from the desk to the customer, or back; a cancellation is no part of it. */
  function Journey(): (statuses: seq<Status>)
    ensures |statuses| == 11
  {
    [PrepareParcel, PickupPending, PickupAssigned, PickedUp, AtHub, InTransit, AtDestination, OutForDelivery,
     PartialDelivered, ReturnedToSender, Delivered]
  }

  /** Statuses that say nothing about how far the parcel has come. */
  predicate OffTheWay(s: Status) {
    s == PickupFailed || s == OnHold || s == Error || s == Unknown
  }

  /** Statuses that end the journey. */
  predicate Ends(s: Status) {
    s == ReturnedToSender || s == Delivered || s == Cancelled
  }

  ghost predicate NoEarlier(a: Status, b: Status) {
    exists i, j :: 0 <= i <= j < |Journey()| && Journey()[i] == a && Journey()[j] == b
  }

  /** A report of `b` moves a parcel at `a`. */
  ghost predicate MovesOn(a: Status, b: Status) {
    if Ends(a) then a == b else OffTheWay(a) || OffTheWay(b) || b == Cancelled || NoEarlier(a, b)
  }

  /** No courier event in the log is later than `at`. */
  predicate Timely(events: seq<Event>, at: int) {
    forall e | e in events && e.source == Provider :: e.at <= at
  }

  /** The place of a status on the journey. */
  lemma PlaceOf(s: Status) returns (i: nat)
    requires !OffTheWay(s) && s != Cancelled
    ensures i < |Journey()| && Journey()[i] == s && Rank(s) == Some(10 * i)
  {
    i := 10;
    match s
    case PrepareParcel => i := 0;
    case PickupPending => i := 1;
    case PickupAssigned => i := 2;
    case PickedUp => i := 3;
    case AtHub => i := 4;
    case InTransit => i := 5;
    case AtDestination => i := 6;
    case OutForDelivery => i := 7;
    case PartialDelivered => i := 8;
    case ReturnedToSender => i := 9;
    case _ =>
  }

  lemma PlaceRanks(i: nat)
    requires i < |Journey()|
    ensures Rank(Journey()[i]) == Some(10 * i) && !OffTheWay(Journey()[i]) && Journey()[i] != Cancelled
  {
  }

  lemma RankedIff(s: Status)
    ensures Rank(s).Some? <==> !OffTheWay(s)
  {
  }

  lemma NoEarlierIff(a: Status, b: Status)
    requires !OffTheWay(a) && a != Cancelled
    ensures NoEarlier(a, b) <==> !OffTheWay(b) && b != Cancelled && Rank(a).Some? && Rank(b).Some? && Rank(a).value <= Rank(b).value
  {
    if NoEarlier(a, b) {
      var i, j :| 0 <= i <= j < |Journey()| && Journey()[i] == a && Journey()[j] == b;
      hide *;
      PlaceRanks(i);
      PlaceRanks(j);
    }
    hide Journey, Rank, OffTheWay;
    if !OffTheWay(b) && b != Cancelled {
      var i := PlaceOf(a);
      var j := PlaceOf(b);
      if Rank(a).value <= Rank(b).value { PlacesInOrder(a, b, i, j); }
    }
  }

  lemma PlacesInOrder(a: Status, b: Status, i: nat, j: nat)
    requires i <= j < |Journey()| && Journey()[i] == a && Journey()[j] == b
    ensures NoEarlier(a, b)
  {
    hide Journey;
  }

  lemma MovesOnIff(p: Parcel, status: Status)
    ensures MovesOn(p.status, status) <==> !Regresses(p, status)
  {
    if !Ends(p.status) && !OffTheWay(p.status) { NoEarlierIff(p.status, status); }
    hide NoEarlier;
  }

  lemma {:induction false} TimelyIff(events: seq<Event>, at: int)
    ensures Timely(events, at) <==> LatestProvider(events) == None || LatestProvider(events).value <= at
  {
    if events != [] {
      var n := |events| - 1;
      TimelyIff(events[..n], at);
      assert events == events[..n] + [events[n]];
    }
  }

  /** Every new report is recorded; it moves the parcel exactly when it is timely and its status moves it on. */
  lemma ReportIff(p: Parcel, m: Move)
    requires m.Report? && forall e | e in p.events :: e.key != m.key
    ensures var q, applied := Next(p, m), Timely(p.events, m.at) && MovesOn(p.status, m.status);
            && q.status == (if applied then m.status else p.status)
            && q.events == p.events + [Event(q.status, Provider, m.key, m.at, !applied)]
  {
    TimelyIff(p.events, m.at);
    MovesOnIff(p, m.status);
    hide MovesOn, Timely, LatestProvider, Regresses;
  }

  /** An update by staff or by the system always moves the parcel, when its key is new. */
  lemma SetMoves(p: Parcel, m: Move)
    requires m.Set? && forall e | e in p.events :: e.key != m.key
    ensures Next(p, m) == Parcel(m.status, p.events + [Event(m.status, if m.staff then Manual else System, m.key, m.at, false)])
  {
  }

  // ------------------------------------------------------------------ Whole journeys

  /** Report `k` of `moves`: new, no earlier than any courier event, and moving the parcel on from where the last one took it. */
  ghost predicate Orderly(p: Parcel, moves: seq<Move>, k: nat)
    requires k < |moves|
  {
    && moves[k].Report? && Timely(p.events, moves[k].at)
    && (forall e | e in p.events :: e.key != moves[k].key)
    && (forall i :: 0 <= i < k ==> moves[i].Report? && moves[i].key != moves[k].key && moves[i].at <= moves[k].at)
    && MovesOn(if k == 0 then p.status else moves[k - 1].status, moves[k].status)
  }

  /** What the log says of a report that was applied. */
  function Taken(moves: seq<Move>): seq<Event>
    requires forall m | m in moves :: m.Report?
  {
    seq(|moves|, k requires 0 <= k < |moves| => Event(moves[k].status, Provider, moves[k].key, moves[k].at, false))
  }

  /** A run of orderly reports is taken one by one, and ends where the last of them says. */
  lemma {:induction false} OrderlyIsTaken(p: Parcel, moves: seq<Move>)
    requires forall k: nat :: k < |moves| ==> Orderly(p, moves, k)
    ensures forall m | m in moves :: m.Report?
    ensures Run(p, moves) == Parcel(if moves == [] then p.status else moves[|moves| - 1].status, p.events + Taken(moves))
  {
    assert forall m | m in moves :: m.Report? by {
      forall m | m in moves ensures m.Report? {
        var k: nat :| k < |moves| && moves[k] == m;
        assert Orderly(p, moves, k);
      }
    }
    if moves == [] {
      assert p.events + Taken(moves) == p.events;
    } else {
      hide MovesOn, Timely, Next;
      var n := |moves| - 1;
      forall k: nat | k < n ensures Orderly(p, moves[..n], k) { assert Orderly(p, moves, k); }
      OrderlyIsTaken(p, moves[..n]);
      assert Orderly(p, moves, n);
      var q := Run(p, moves[..n]);
      NextIsTaken(p, moves, q);
      assert Taken(moves) == Taken(moves[..n]) + [Event(moves[n].status, Provider, moves[n].key, moves[n].at, false)];
      assert p.events + Taken(moves) == q.events + [Event(moves[n].status, Provider, moves[n].key, moves[n].at, false)];
    }
  }

  lemma NextIsTaken(p: Parcel, moves: seq<Move>, q: Parcel)
    requires moves != [] && Orderly(p, moves, |moves| - 1) && forall m | m in moves[..|moves| - 1] :: m.Report?
    requires var before := moves[..|moves| - 1];
             q == Parcel(if before == [] then p.status else before[|before| - 1].status, p.events + Taken(before))
    ensures var m := moves[|moves| - 1];
            m.Report? && Next(q, m) == Parcel(m.status, q.events + [Event(m.status, Provider, m.key, m.at, false)])
  {
    var n := |moves| - 1;
    var m := moves[n];
    hide MovesOn, Next;
    forall e | e in q.events ensures e.key != m.key && (e.source == Provider ==> e.at <= m.at) {
      if e !in p.events { assert e in Taken(moves[..n]); }
    }
    hide Orderly, Taken;
    ReportIff(q, m);
  }

  /** The status before stage `k`, and what it moves on to. */
  lemma NextStage(k: nat)
    requires k < |Journey()| - 1
    ensures var from := Journey()[if k == 0 then 0 else k - 1];
            MovesOn(from, Journey()[k]) && MovesOn(from, Delivered) && MovesOn(from, Cancelled)
    ensures Journey()[0] == PrepareParcel
  {
    assert Journey()[10] == Delivered;
  }

  /**
   The whole journey: reports in the order of its statuses, each new and no earlier than the one
   before, are all taken, whether the parcel comes back or is delivered.
   */
  lemma JourneyIsTaken(key: string, at: int, moves: seq<Move>)
    requires 0 < |moves| < |Journey()| && forall k :: 0 <= k < |moves| ==> moves[k].Report? && moves[k].key != key
    requires forall i, k :: 0 <= i < k < |moves| ==> moves[i].key != moves[k].key && moves[i].at <= moves[k].at
    requires forall k :: 0 <= k < |moves| - 1 ==> moves[k].status == Journey()[k]
    requires var last := moves[|moves| - 1].status; last == Journey()[|moves| - 1] || last == Delivered || last == Cancelled
    ensures var p := Start(PrepareParcel, key, at);
            Run(p, moves) == Parcel(moves[|moves| - 1].status, p.events + Taken(moves))
  {
    var p := Start(PrepareParcel, key, at);
    hide Journey, MovesOn;
    assert Journey()[0] == PrepareParcel by { NextStage(0); }
    forall k: nat | k < |moves| ensures Orderly(p, moves, k) {
      NextStage(k);
    }
    hide Orderly, Run;
    OrderlyIsTaken(p, moves);
  }

  /** A parcel that was delivered, returned or cancelled stays so, whatever the courier reports. */
  lemma {:induction false} EndsStay(p: Parcel, moves: seq<Move>)
    requires Ends(p.status) && forall m | m in moves :: m.Report?
    ensures Run(p, moves).status == p.status
  {
    if moves != [] {
      var n := |moves| - 1;
      EndsStay(p, moves[..n]);
      var q, m := Run(p, moves[..n]), moves[n];
      assert m in moves;
      if !KnownKey(q, m.key) { ReportIff(q, m); }
      hide ApplyProvider, MovesOn;
    }
  }

  /** Different payloads have different keys, so that none passes for another. */
  lemma PayloadsDiffer(a: string, b: string)
    ensures WebhookKey(a) == WebhookKey(b) <==> a == b
  {
    if WebhookKey(a) == WebhookKey(b) {
      assert WebhookKey(a)[8..] == a && WebhookKey(b)[8..] == b;
    }
  }
}
