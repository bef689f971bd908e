/** One stream as the gateway's Connect handler sees it: sequence bookkeeping,
    cumulative acknowledgements, and the counters logged at disconnect. */
module Ingest {
  import opened Options

  /** What the rate limiter and the event backbone answer when asked about a detection
      that is not a duplicate. */
  datatype Verdict = Accepted | RateLimited | PublishFailed

  datatype Delivery = Delivery(number: nat, verdict: Verdict)

  datatype AgentMessage =
    | Hello(deviceId: string, lastAcked: nat, durable: bool)
    | Detection(delivery: Delivery)
    | Heartbeat
    | NoPayload

  datatype Status = Ok | InvalidArgument | FailedPrecondition

  datatype Session = Session(
    lastSeq: nat,
    received: nat,
    duplicates: nat,
    gapEvents: nat,
    rateLimited: nat,
    publishFailed: nat,
    awaitingResync: bool)

  const FRESH: Session := Session(0, 0, 0, 0, 0, 0, false)

  function OnHello(s: Session, lastAcked: nat, durable: bool): Session {
    s.(lastSeq := lastAcked, awaitingResync := !durable)
  }

  function OnDetection(s: Session, d: Delivery): Session {
    if d.number <= s.lastSeq then s.(duplicates := s.duplicates + 1) else
    match d.verdict
    case RateLimited => s.(rateLimited := s.rateLimited + 1)
    case PublishFailed => s.(publishFailed := s.publishFailed + 1)
    case Accepted =>
      var gap := if s.awaitingResync then 0 else d.number - s.lastSeq - 1;
      s.(awaitingResync := false, gapEvents := s.gapEvents + gap, lastSeq := d.number, received := s.received + 1)
  }

  /** The acknowledgement written after a detection; none after a refusal. */
  function Ack(s: Session, d: Delivery): Option<nat> {
    if d.number > s.lastSeq && d.verdict != Accepted then None else Some(OnDetection(s, d).lastSeq)
  }

  /** The number logged as lost when the stream ends. */
  function ReportedLost(s: Session): nat {
    if s.gapEvents > s.rateLimited then s.gapEvents - s.rateLimited else 0
  }

  // ----- Whole streams -----

  /** A stream that has just said hello. */
  function Greeted(lastAcked: nat, durable: bool): Session {
    OnHello(FRESH, lastAcked, durable)
  }

  function Deliver(s: Session, ds: seq<Delivery>): Session {
    if ds == [] then s else OnDetection(Deliver(s, ds[..|ds| - 1]), ds[|ds| - 1])
  }

  function Acks(s: Session, ds: seq<Delivery>): seq<nat> {
    if ds == [] then [] else
    var before := ds[..|ds| - 1];
    match Ack(Deliver(s, before), ds[|ds| - 1])
    case None => Acks(s, before)
    case Some(a) => Acks(s, before) + [a]
  }

  /** How the handler ends: its status, who said hello, its counters, and the
      acknowledgements written. */
  datatype Outcome = Outcome(status: Status, deviceId: string, session: Session, acks: seq<nat>)

  function Handle(o: Outcome, m: AgentMessage): Outcome {
    var s := o.session;
    match m
    case Hello(id, acked, durable) =>
      if id == "" then o.(status := InvalidArgument) else
      o.(deviceId := id, session := OnHello(s, acked, durable))
    case Detection(d) =>
      if o.deviceId == "" then o.(status := FailedPrecondition) else
      o.(session := OnDetection(s, d), acks := o.acks + (if Ack(s, d).Some? then [Ack(s, d).value] else []))
    case Heartbeat => if o.deviceId == "" then o.(status := FailedPrecondition) else o
    case NoPayload => o.(status := InvalidArgument)
  }

  /** The read loop stops at the first message that ends the stream with an error. */
  function HandleAll(messages: seq<AgentMessage>): Outcome {
    if messages == [] then Outcome(Ok, "", FRESH, []) else
    var before := HandleAll(messages[..|messages| - 1]);
    if before.status != Ok then before else Handle(before, messages[|messages| - 1])
  }

  /** The handler: locals updated message by message.  A stream that ends with an error
      reports no loss. */
  method Connect(messages: seq<AgentMessage>) returns (outcome: Outcome, lost: Option<nat>)
    ensures outcome == HandleAll(messages)
    ensures lost == if outcome.status == Ok then Some(ReportedLost(outcome.session)) else None
  {
    var deviceId: string := "";
    var lastSeq: nat, received: nat, duplicates: nat, gapEvents: nat := 0, 0, 0, 0;
    var rateLimited: nat, publishFailed: nat := 0, 0;
    var awaitingResync := false;
    var acks: seq<nat> := [];
    var status := Ok;
    var i := 0;
    while i < |messages| && status == Ok
      invariant i <= |messages|
      invariant var s := Session(lastSeq, received, duplicates, gapEvents, rateLimited, publishFailed, awaitingResync);
                Outcome(status, deviceId, s, acks) == HandleAll(messages[..i])
      invariant status != Ok ==> HandleAll(messages) == HandleAll(messages[..i])
      decreases |messages| - i
    {
      assert messages[..i + 1][..i] == messages[..i];
      match messages[i] {
        case Hello(id, lastAcked, durable) =>
          if id == "" {
            status := InvalidArgument;
          } else {
            deviceId, lastSeq, awaitingResync := id, lastAcked, !durable;
          }
        case Detection(d) =>
          if deviceId == "" {
            status := FailedPrecondition;
          } else if d.number <= lastSeq {
            duplicates := duplicates + 1;
            acks := acks + [lastSeq];
          } else if d.verdict == RateLimited {
            rateLimited := rateLimited + 1;
          } else if d.verdict == PublishFailed {
            publishFailed := publishFailed + 1;
          } else {
            if awaitingResync {
              awaitingResync := false;
            } else if d.number != lastSeq + 1 {
              gapEvents := gapEvents + (d.number - lastSeq - 1);
            }
            lastSeq, received := d.number, received + 1;
            acks := acks + [lastSeq];
          }
        case Heartbeat =>
          if deviceId == "" {
            status := FailedPrecondition;
          }
        case NoPayload =>
          status := InvalidArgument;
      }
      i := i + 1;
      if status != Ok {
        ErrorIsFinal(messages, i);
      }
    }
    if i == |messages| {
      assert messages[..i] == messages;
    }
    var s := Session(lastSeq, received, duplicates, gapEvents, rateLimited, publishFailed, awaitingResync);
    outcome := Outcome(status, deviceId, s, acks);
    if status != Ok {
      return outcome, None;
    }
    lost := Some(if gapEvents > rateLimited then gapEvents - rateLimited else 0);
  }

  lemma {:induction false} ErrorIsFinal(messages: seq<AgentMessage>, i: nat)
    requires i <= |messages| && HandleAll(messages[..i]).status != Ok
    ensures HandleAll(messages) == HandleAll(messages[..i])
    decreases |messages|
  {
    if i < |messages| {
      var before := messages[..|messages| - 1];
      assert before[..i] == messages[..i];
      ErrorIsFinal(before, i);
    } else {
      assert messages[..i] == messages;
    }
  }

  /** The detections of a stream, in order. */
  function Deliveries(messages: seq<AgentMessage>): seq<Delivery> {
    if messages == [] then [] else
    var m := messages[|messages| - 1];
    Deliveries(messages[..|messages| - 1]) + (if m.Detection? then [m.delivery] else [])
  }

  lemma DeliverOneMore(s: Session, ds: seq<Delivery>, d: Delivery)
    ensures Deliver(s, ds + [d]) == OnDetection(Deliver(s, ds), d)
    ensures Acks(s, ds + [d])
         == Acks(s, ds) + (if Ack(Deliver(s, ds), d).Some? then [Ack(Deliver(s, ds), d).value] else [])
  {
    hide OnDetection, Ack;
    var more := ds + [d];
    assert more[..|more| - 1] == ds && more[|more| - 1] == d;
  }

  lemma HandleOneMore(messages: seq<AgentMessage>, m: AgentMessage)
    ensures HandleAll(messages + [m])
         == if HandleAll(messages).status != Ok then HandleAll(messages) else Handle(HandleAll(messages), m)
  {
    hide Handle;
    var more := messages + [m];
    assert more[..|more| - 1] == messages && more[|more| - 1] == m;
  }

  /** After one hello, a stream of detections and heartbeats leaves the handler where
      its detections alone would, with exactly their acknowledgements. */
  lemma {:induction false} StreamIsItsDeliveries(id: string, h: nat, durable: bool, messages: seq<AgentMessage>)
    requires id != ""
    requires forall m | m in messages :: m.Detection? || m.Heartbeat?
    ensures var s := Greeted(h, durable);
            var ds := Deliveries(messages);
            HandleAll([Hello(id, h, durable)] + messages) == Outcome(Ok, id, Deliver(s, ds), Acks(s, ds))
    decreases |messages|
  {
    hide Deliver, Acks, HandleAll, OnDetection, Ack;
    var hello := [Hello(id, h, durable)];
    if messages == [] {
      HelloAlone(id, h, durable);
      assert hello + messages == hello;
    } else {
      var before, m := messages[..|messages| - 1], messages[|messages| - 1];
      StreamIsItsDeliveries(id, h, durable, before);
      HandleOneMore(hello + before, m);
      assert hello + messages == hello + before + [m];
      if m.Detection? {
        DeliverOneMore(Greeted(h, durable), Deliveries(before), m.delivery);
      } else {
        assert Deliveries(messages) == Deliveries(before);
      }
    }
  }

  lemma HelloAlone(id: string, h: nat, durable: bool)
    requires id != ""
    ensures HandleAll([Hello(id, h, durable)]) == Outcome(Ok, id, Greeted(h, durable), [])
    ensures Deliver(Greeted(h, durable), []) == Greeted(h, durable)
    ensures Acks(Greeted(h, durable), []) == []
  {
    HandleOneMore([], Hello(id, h, durable));
    assert [] + [Hello(id, h, durable)] == [Hello(id, h, durable)];
  }

  // ----- Conservation -----

  /** On a stream with a durable hello, every sequence number passed over is counted
      exactly once, as received or as a gap. */
  lemma {:induction false} Conservation(h: nat, ds: seq<Delivery>)
    ensures var s := Deliver(Greeted(h, true), ds);
            && !s.awaitingResync
            && s.lastSeq == h + s.received + s.gapEvents
            && |ds| == s.received + s.duplicates + s.rateLimited + s.publishFailed
  {
    if ds != [] {
      Conservation(h, ds[..|ds| - 1]);
    }
  }

  lemma {:induction false} LastSeqNeverFalls(s: Session, ds: seq<Delivery>, i: nat)
    requires i <= |ds|
    ensures s.lastSeq <= Deliver(s, ds[..i]).lastSeq <= Deliver(s, ds).lastSeq
    decreases |ds|
  {
    if i < |ds| {
      var before := ds[..|ds| - 1];
      assert before[..i] == ds[..i];
      LastSeqNeverFalls(s, before, i);
    } else {
      assert ds[..i] == ds;
      if ds != [] {
        LastSeqNeverFalls(s, ds[..|ds| - 1], |ds| - 1);
      }
    }
  }

  /** Acknowledgements never decrease, and the last one is the handler's position. */
  lemma {:induction false} AcksAscend(s: Session, ds: seq<Delivery>)
    ensures var acks := Acks(s, ds);
            && (forall i, j :: 0 <= i < j < |acks| ==> acks[i] <= acks[j])
            && (forall i :: 0 <= i < |acks| ==> s.lastSeq <= acks[i] <= Deliver(s, ds).lastSeq)
            && (acks != [] ==> acks[|acks| - 1] == Deliver(s, ds).lastSeq)
            && (acks == [] ==> Deliver(s, ds).lastSeq == s.lastSeq)
  {
    if ds != [] {
      var before := ds[..|ds| - 1];
      AcksAscend(s, before);
      LastSeqNeverFalls(s, before, 0);
    }
  }

  // ----- What is reported as lost -----

  predicate Ascending(ds: seq<Delivery>) {
    forall i, j :: 0 <= i < j < |ds| ==> ds[i].number < ds[j].number
  }

  predicate Arrived(ds: seq<Delivery>, n: nat) {
    exists i :: 0 <= i < |ds| && ds[i].number == n
  }

  /** How many of the numbers h + 1 .. upTo never arrived. */
  ghost function Missing(h: nat, upTo: nat, ds: seq<Delivery>): nat
    decreases upTo
  {
    if upTo <= h then 0 else (if Arrived(ds, upTo) then 0 else 1) + Missing(h, upTo - 1, ds)
  }

  /** How many deliveries with this verdict carry a number in (low, high]. */
  function Count(ds: seq<Delivery>, v: Verdict, low: nat, high: nat): nat {
    if ds == [] then 0 else
    var d := ds[|ds| - 1];
    Count(ds[..|ds| - 1], v, low, high) + (if d.verdict == v && low < d.number <= high then 1 else 0)
  }

  lemma {:induction false} MissingAfterArrival(h: nat, upTo: nat, ds: seq<Delivery>, d: Delivery)
    requires !Arrived(ds, d.number)
    ensures Missing(h, upTo, ds + [d]) + (if h < d.number <= upTo then 1 else 0) == Missing(h, upTo, ds)
    decreases upTo
  {
    if upTo > h {
      MissingAfterArrival(h, upTo - 1, ds, d);
      var more := ds + [d];
      if Arrived(ds, upTo) {
        var i :| 0 <= i < |ds| && ds[i].number == upTo;
        assert more[i].number == upTo;
      } else if d.number == upTo {
        assert more[|ds|].number == upTo;
      } else {
        assert !Arrived(more, upTo);
      }
    }
  }

  lemma {:induction false} NothingArrived(h: nat, upTo: nat)
    ensures Missing(h, upTo, []) == if upTo <= h then 0 else upTo - h
    decreases upTo
  {
    if upTo > h {
      NothingArrived(h, upTo - 1);
    }
  }

  /** Every number in (h, upTo] is missing, accepted or refused, and only one of these. */
  lemma {:induction false} EveryNumberOnce(h: nat, upTo: nat, ds: seq<Delivery>)
    requires h <= upTo && Ascending(ds)
    ensures upTo - h == Missing(h, upTo, ds) + Count(ds, Accepted, h, upTo) + Count(ds, RateLimited, h, upTo)
                        + Count(ds, PublishFailed, h, upTo)
    decreases |ds|
  {
    if ds == [] {
      NothingArrived(h, upTo);
    } else {
      var before, d := ds[..|ds| - 1], ds[|ds| - 1];
      EveryNumberOnce(h, upTo, before);
      assert ds == before + [d];
      MissingAfterArrival(h, upTo, before, d);
    }
  }

  lemma {:induction false} CountSplits(ds: seq<Delivery>, v: Verdict, low: nat, mid: nat, high: nat)
    requires low <= mid <= high
    ensures Count(ds, v, low, high) == Count(ds, v, low, mid) + Count(ds, v, mid, high)
  {
    if ds != [] {
      CountSplits(ds[..|ds| - 1], v, low, mid, high);
    }
  }

  /** On an ascending stream the counters count exactly the verdicts given above h. */
  lemma {:induction false} CountersCount(h: nat, ds: seq<Delivery>, top: nat)
    requires Ascending(ds)
    requires h <= top && forall i :: 0 <= i < |ds| ==> ds[i].number <= top
    ensures var s := Deliver(Greeted(h, true), ds);
            && s.received == Count(ds, Accepted, h, top)
            && s.rateLimited == Count(ds, RateLimited, h, top)
            && s.publishFailed == Count(ds, PublishFailed, h, top)
            && s.received == Count(ds, Accepted, h, s.lastSeq)
            && h <= s.lastSeq <= top
            && (s.lastSeq > h ==> Arrived(ds, s.lastSeq))
    decreases |ds|
  {
    if ds != [] {
      var before, d := ds[..|ds| - 1], ds[|ds| - 1];
      CountersCount(h, before, top);
      var s := Deliver(Greeted(h, true), before);
      if s.lastSeq > h {
        var i :| 0 <= i < |before| && before[i].number == s.lastSeq;
        assert ds[i].number == s.lastSeq;
      }
      if d.number > s.lastSeq && d.verdict == Accepted {
        NoneAbove(before, Accepted, d.number, top);
        CountSplits(before, Accepted, h, d.number, top);
      }
    }
  }

  lemma {:induction false} NoneAbove(ds: seq<Delivery>, v: Verdict, low: nat, high: nat)
    requires forall i :: 0 <= i < |ds| ==> ds[i].number <= low
    ensures Count(ds, v, low, high) == 0
    decreases |ds|
  {
    if ds != [] {
      NoneAbove(ds[..|ds| - 1], v, low, high);
    }
  }

  /** The exact account of a stream with ascending numbers.  Up to the last accepted
      number, a gap is a number that never arrived or one that was refused; the
      report then takes away all rate-limited deliveries, so it is too low by those
      after the last accepted number and too high by the publish failures before it. */
  lemma ReportedLostExactly(h: nat, ds: seq<Delivery>, top: nat)
    requires Ascending(ds)
    requires h <= top && forall i :: 0 <= i < |ds| ==> ds[i].number <= top
    ensures var s := Deliver(Greeted(h, true), ds);
            var missing := Missing(h, s.lastSeq, ds);
            var failedBefore := Count(ds, PublishFailed, h, s.lastSeq);
            var limitedAfter := Count(ds, RateLimited, s.lastSeq, top);
            && s.gapEvents == missing + failedBefore + Count(ds, RateLimited, h, s.lastSeq)
            && ReportedLost(s) == (if missing + failedBefore > limitedAfter then missing + failedBefore - limitedAfter
                                   else 0)
  {
    var s := Deliver(Greeted(h, true), ds);
    Conservation(h, ds);
    CountersCount(h, ds, top);
    EveryNumberOnce(h, s.lastSeq, ds);
    CountSplits(ds, RateLimited, h, s.lastSeq, top);
  }

  /** The report equals what is missing exactly when the failed publishes before the last
      accepted number and the rate-limited deliveries after it are equally many, or nothing
      is missing and the failed publishes are no more. */
  lemma ReportedLostIsMissingIff(h: nat, ds: seq<Delivery>, top: nat)
    requires Ascending(ds)
    requires h <= top && forall i :: 0 <= i < |ds| ==> ds[i].number <= top
    ensures var s := Deliver(Greeted(h, true), ds);
            var missing := Missing(h, s.lastSeq, ds);
            var failedBefore := Count(ds, PublishFailed, h, s.lastSeq);
            var limitedAfter := Count(ds, RateLimited, s.lastSeq, top);
            ReportedLost(s) == missing <==>
              failedBefore == limitedAfter || (missing == 0 && failedBefore <= limitedAfter)
  {
    hide Deliver, Missing, Count, ReportedLost;
    ReportedLostExactly(h, ds, top);
  }

  lemma DeliverTwo(s: Session, c: Delivery, d: Delivery)
    ensures Deliver(s, [c, d]) == OnDetection(OnDetection(s, c), d)
  {
    assert [c, d][..1] == [c] && [c][..0] == [];
    assert Deliver(s, [c]) == OnDetection(Deliver(s, [c][..0]), c);
  }

  /** A failed publish is reported as lost although its number arrived. */
  lemma FailedPublishReportedLost()
    ensures var ds := [Delivery(1, PublishFailed), Delivery(2, Accepted)];
            var s := Deliver(Greeted(0, true), ds);
            Ascending(ds) && ReportedLost(s) == 1 && Missing(0, s.lastSeq, ds) == 0
  {
    var ds := [Delivery(1, PublishFailed), Delivery(2, Accepted)];
    DeliverTwo(Greeted(0, true), ds[0], ds[1]);
    hide Deliver;
    NoneMissing(0, 2, ds);
  }

  /** A rate-limited delivery at the end hides a number that never arrived. */
  lemma TrailingRefusalHidesLoss()
    ensures var ds := [Delivery(2, Accepted), Delivery(3, RateLimited)];
            var s := Deliver(Greeted(0, true), ds);
            Ascending(ds) && ReportedLost(s) == 0 && Missing(0, s.lastSeq, ds) == 1
  {
    var ds := [Delivery(2, Accepted), Delivery(3, RateLimited)];
    DeliverTwo(Greeted(0, true), ds[0], ds[1]);
    hide Deliver;
    assert !Arrived(ds, 1) && Arrived(ds, 2) by {
      assert ds[0].number == 2;
    }
    assert Missing(0, 2, ds) == 1;
  }

  /** Without publish failures the report never exceeds what is truly missing, and is
      exact when the last delivery was accepted. */
  lemma ReportedLostIsSound(h: nat, ds: seq<Delivery>)
    requires Ascending(ds)
    requires forall i :: 0 <= i < |ds| ==> ds[i].verdict != PublishFailed
    ensures var s := Deliver(Greeted(h, true), ds);
            && ReportedLost(s) <= Missing(h, s.lastSeq, ds)
            && (ds != [] && ds[|ds| - 1].verdict == Accepted ==> ReportedLost(s) == Missing(h, s.lastSeq, ds))
  {
    var s := Deliver(Greeted(h, true), ds);
    var top := if ds == [] || ds[|ds| - 1].number < h then h else ds[|ds| - 1].number;
    ReportedLostExactly(h, ds, top);
    NoVerdict(ds, PublishFailed, h, s.lastSeq);
    if ds != [] && ds[|ds| - 1].verdict == Accepted {
      LastSeqNeverFalls(Greeted(h, true), ds[..|ds| - 1], 0);
      assert s.lastSeq >= ds[|ds| - 1].number;
      NoneAbove(ds, RateLimited, s.lastSeq, top);
    }
  }

  lemma {:induction false} NoVerdict(ds: seq<Delivery>, v: Verdict, low: nat, high: nat)
    requires forall i :: 0 <= i < |ds| ==> ds[i].verdict != v
    ensures Count(ds, v, low, high) == 0
    decreases |ds|
  {
    if ds != [] {
      NoVerdict(ds[..|ds| - 1], v, low, high);
    }
  }

  // ----- Contiguous streams -----

  /** The numbers an agent sends after resuming at h. */
  predicate Contiguous(h: nat, ds: seq<Delivery>) {
    forall i :: 0 <= i < |ds| ==> ds[i].number == h + 1 + i
  }

  lemma {:induction false} NoneMissing(h: nat, upTo: nat, ds: seq<Delivery>)
    requires Contiguous(h, ds) && upTo <= h + |ds|
    ensures Missing(h, upTo, ds) == 0
    decreases upTo
  {
    if upTo > h {
      assert ds[upTo - h - 1].number == upTo;
      NoneMissing(h, upTo - 1, ds);
    }
  }

  /** A device that is throttled but loses nothing is never reported as losing. */
  lemma ContiguousReportsNothingLost(h: nat, ds: seq<Delivery>)
    requires Contiguous(h, ds)
    requires forall i :: 0 <= i < |ds| ==> ds[i].verdict != PublishFailed
    ensures ReportedLost(Deliver(Greeted(h, true), ds)) == 0
    ensures Deliver(Greeted(h, true), ds).duplicates == 0
  {
    ReportedLostIsSound(h, ds);
    CountersCount(h, ds, h + |ds|);
    NoneMissing(h, Deliver(Greeted(h, true), ds).lastSeq, ds);
    ContiguousHasNoDuplicates(h, ds);
  }

  lemma {:induction false} ContiguousHasNoDuplicates(h: nat, ds: seq<Delivery>)
    requires Contiguous(h, ds)
    ensures Deliver(Greeted(h, true), ds).duplicates == 0
    ensures Deliver(Greeted(h, true), ds).lastSeq <= h + |ds|
    decreases |ds|
  {
    if ds != [] {
      ContiguousHasNoDuplicates(h, ds[..|ds| - 1]);
    }
  }

  /** Once something is refused, nothing after it is accepted. */
  predicate RefusalsAreFinal(ds: seq<Delivery>) {
    forall i, j :: 0 <= i < j < |ds| && ds[i].verdict != Accepted ==> ds[j].verdict != Accepted
  }

  /** Every number the handler has acknowledged beyond h was accepted on this stream. */
  predicate AckedWereAccepted(h: nat, ds: seq<Delivery>) {
    forall i :: 0 <= i < |ds| && ds[i].number <= Deliver(Greeted(h, true), ds).lastSeq ==> ds[i].verdict == Accepted
  }

  /** The handler stands at the last accepted delivery. */
  lemma {:induction false} LastAccepted(h: nat, ds: seq<Delivery>)
    requires Contiguous(h, ds)
    ensures var last := Deliver(Greeted(h, true), ds).lastSeq;
            && h <= last <= h + |ds|
            && (last > h ==> ds[last - h - 1].verdict == Accepted)
            && forall i :: last - h <= i < |ds| ==> ds[i].verdict != Accepted
    decreases |ds|
  {
    if ds != [] {
      LastAccepted(h, ds[..|ds| - 1]);
    }
  }

  /** A cumulative acknowledgement covers only accepted events exactly when no
      acceptance follows a refusal, which is exactly when no gap is counted. */
  lemma AckCoversAcceptedIff(h: nat, ds: seq<Delivery>)
    requires Contiguous(h, ds)
    ensures AckedWereAccepted(h, ds) <==> RefusalsAreFinal(ds)
    ensures AckedWereAccepted(h, ds) <==> Deliver(Greeted(h, true), ds).gapEvents == 0
  {
    var s := Deliver(Greeted(h, true), ds);
    LastAccepted(h, ds);
    if AckedWereAccepted(h, ds) {
      forall i, j | 0 <= i < j < |ds| && ds[i].verdict != Accepted
        ensures ds[j].verdict != Accepted
      {
        assert ds[i].number > s.lastSeq;
      }
      AllAccepted(ds, h, s.lastSeq);
    }
    if RefusalsAreFinal(ds) && s.lastSeq > h {
      assert ds[s.lastSeq - h - 1].verdict == Accepted;
    }
    GapsAreRefusals(h, ds);
    if s.gapEvents == 0 {
      NoRefusalCounted(ds, h, s.lastSeq);
    }
  }

  lemma GapsAreRefusals(h: nat, ds: seq<Delivery>)
    requires Contiguous(h, ds)
    ensures var s := Deliver(Greeted(h, true), ds);
            s.gapEvents == Count(ds, RateLimited, h, s.lastSeq) + Count(ds, PublishFailed, h, s.lastSeq)
  {
    ReportedLostExactly(h, ds, h + |ds|);
    LastAccepted(h, ds);
    NoneMissing(h, Deliver(Greeted(h, true), ds).lastSeq, ds);
  }

  lemma {:induction false} AllAccepted(ds: seq<Delivery>, low: nat, high: nat)
    requires forall i :: 0 <= i < |ds| && ds[i].number <= high ==> ds[i].verdict == Accepted
    ensures Count(ds, RateLimited, low, high) == 0 && Count(ds, PublishFailed, low, high) == 0
    decreases |ds|
  {
    if ds != [] {
      AllAccepted(ds[..|ds| - 1], low, high);
    }
  }

  lemma {:induction false} NoRefusalCounted(ds: seq<Delivery>, low: nat, high: nat)
    requires Count(ds, RateLimited, low, high) == 0 && Count(ds, PublishFailed, low, high) == 0
    ensures forall i :: 0 <= i < |ds| && low < ds[i].number <= high ==> ds[i].verdict == Accepted
    decreases |ds|
  {
    if ds != [] {
      NoRefusalCounted(ds[..|ds| - 1], low, high);
    }
  }

  // ----- Streams without durable resume state -----

  /** A hello without durable resume state forgives the jump to the first accepted
      detection and nothing else: from there on the stream is counted exactly as one
      that resumed at that detection. */
  lemma {:induction false} ResyncForgivesFirstJump(h: nat, first: nat, ds: seq<Delivery>)
    requires h < first
    ensures var resumed := Deliver(Greeted(first, true), ds);
            Deliver(Greeted(h, false), [Delivery(first, Accepted)] + ds) == resumed.(received := resumed.received + 1)
    decreases |ds|
  {
    var all := [Delivery(first, Accepted)] + ds;
    if ds == [] {
      assert all[..0] == [];
    } else {
      ResyncForgivesFirstJump(h, first, ds[..|ds| - 1]);
      assert all[..|all| - 1] == [Delivery(first, Accepted)] + ds[..|ds| - 1];
    }
  }

  /** The same stream after a durable hello counts the jump as well, and only the jump. */
  lemma {:induction false} DurableCountsFirstJump(h: nat, first: nat, ds: seq<Delivery>)
    requires h < first
    ensures var resumed := Deliver(Greeted(first, true), ds);
            Deliver(Greeted(h, true), [Delivery(first, Accepted)] + ds)
            == resumed.(received := resumed.received + 1, gapEvents := resumed.gapEvents + (first - h - 1))
    decreases |ds|
  {
    var all := [Delivery(first, Accepted)] + ds;
    if ds == [] {
      assert all[..0] == [];
    } else {
      DurableCountsFirstJump(h, first, ds[..|ds| - 1]);
      assert all[..|all| - 1] == [Delivery(first, Accepted)] + ds[..|ds| - 1];
    }
  }
}
