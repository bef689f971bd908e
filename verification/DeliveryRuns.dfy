/** What the delivery protocol guarantees over every run, and runs on which it fails
    when a hypothesis is dropped. */
module DeliveryRuns {
  import opened Options
  import opened Octets
  import opened WalRecordCodec
  import opened WalLog
  import opened Delivery
  import opened DeliverySafety
  import Outbox
  import Ingest
  import Crc32

  // ----- At-least-once delivery -----

  /** After any run of safe steps, replay returns exactly the committed events above
      the checkpoint, and every event at or below it has been read by a gateway with
      the payload it was committed with. */
  lemma AtLeastOnce(steps: seq<Step>)
    requires SafeRun(steps)
    ensures After(steps).Some?
    ensures var s := After(steps).value;
            && s.acked <= |s.committed|
            && Replay(s.log, s.acked) == s.committed[s.acked..]
            && (forall r | r in s.committed[..s.acked] :: r in s.received)
            && (forall r | r in s.committed :: r in s.received || r in Replay(s.log, s.acked))
            && (forall r | r in s.received :: r in s.committed)
  {
    hide After, DiskInv, WriterInv, AgentInv, Replay;
    RunKeeps(steps);
    var s := After(steps).value;
    DiskBounds(s);
    assert s.committed == s.committed[..s.acked] + s.committed[s.acked..];
  }

  /** The only way to lose an event to acknowledgement is for a gateway to overtake it:
      to refuse it and then accept a later one on the same stream. */
  lemma LostOnlyIfOvertaken(steps: seq<Step>)
    requires SafeRun(steps)
    ensures After(steps).Some?
    ensures var s := After(steps).value;
            forall r | r in s.committed :: r in s.accepted || r in s.overtaken || r in Replay(s.log, s.acked)
  {
    hide After, DiskInv, WriterInv, AgentInv, Replay;
    RunKeeps(steps);
    var s := After(steps).value;
    DiskBounds(s);
    assert s.committed == s.committed[..s.acked] + s.committed[s.acked..];
  }

  /** The gateway would count a gap: the detection it is about to read is not the next
      one after its position. */
  predicate GapAhead(s: State)
    requires Linked(s) && DetectionNext(s.agent.link.value)
  {
    s.agent.link.value.uplink[0].event.number != s.agent.link.value.session.value.lastSeq + 1
  }

  lemma BetweenIffGap(c: seq<Record>, low: nat, high: nat)
    requires Numbered(c) && low < high <= |c| + 1
    ensures Between(c, low, high) == {} <==> high == low + 1
  {
    if high != low + 1 {
      assert c[low] in Between(c, low, high);
    }
  }

  /** Accepting a detection overtakes something exactly when a gap is counted. */
  lemma OvertakesIffGap(s: State)
    requires Inv(s) && Enabled(s, ReadDetection(Ingest.Accepted))
    ensures var l := s.agent.link.value;
            Between(s.committed, l.session.value.lastSeq, l.uplink[0].event.number) != {} <==> GapAhead(s)
  {
    hide DiskInv, WriterInv, HistoryInv, SenderInv, GatewayInv, ReadOne;
    var l := s.agent.link.value;
    DiskBounds(s);
    SentNumbers(s.committed, Queued(s.agent, s.committed), l);
    ReadGateway(l, Ingest.Accepted);
    GatewayPosition(l);
    BetweenIffGap(s.committed, Position(l), l.uplink[0].event.number);
  }

  /** A run in which no gateway ever accepts across a gap. */
  ghost predicate GapFree(steps: seq<Step>) {
    steps != [] ==>
      && GapFree(steps[..|steps| - 1])
      && var before := After(steps[..|steps| - 1]);
         before.Some? && steps[|steps| - 1] == ReadDetection(Ingest.Accepted)
         && Enabled(before.value, steps[|steps| - 1])
         ==> !GapAhead(before.value)
  }

  lemma OvertakenGrowsOnlyAtGaps(s: State, step: Step)
    requires Enabled(s, step)
    ensures step != ReadDetection(Ingest.Accepted) ==> Apply(s, step).overtaken == s.overtaken
    ensures step == ReadDetection(Ingest.Accepted) ==>
              var l := s.agent.link.value;
              Apply(s, step).overtaken
              <= s.overtaken + Between(s.committed, l.session.value.lastSeq, l.uplink[0].event.number)
  {
    hide Replay, EncodeAll, Encode, Decode, Left, Greet, ReadOne, Between, Outbox.PopAcked;
  }

  /** Without gaps nothing is lost: every committed event is accepted with its exact
      payload or still in the replay set. */
  lemma {:induction false} GapFreeLosesNothing(steps: seq<Step>)
    requires SafeRun(steps) && GapFree(steps)
    ensures After(steps).Some? && After(steps).value.overtaken == {}
    ensures var s := After(steps).value;
            forall r | r in s.committed :: r in s.accepted || r in Replay(s.log, s.acked)
    decreases |steps|
  {
    hide Enabled, Apply, Inv, Replay, SafeStep, Between, GapAhead;
    if steps != [] {
      var s, step := After(steps[..|steps| - 1]), steps[|steps| - 1];
      GapFreeLosesNothing(steps[..|steps| - 1]);
      OvertakenGrowsOnlyAtGaps(s.value, step);
      if step == ReadDetection(Ingest.Accepted) {
        RunKeeps(steps[..|steps| - 1]);
        OvertakesIffGap(s.value);
      }
    }
    LostOnlyIfOvertaken(steps);
  }

  // ----- Numbering -----

  /** Across any crashes and restarts no number is given to two committed events, so the
      events a gateway sees under one number are all the same; the outbox always holds
      consecutive numbers. */
  lemma NoNumberReused(steps: seq<Step>)
    requires SafeRun(steps)
    ensures After(steps).Some?
    ensures var s := After(steps).value;
            && (forall i :: 0 <= i < |s.committed| ==> s.committed[i].number == i + 1)
            && (forall r, q | r in s.received && q in s.received && r.number == q.number :: r == q)
            && (s.agent.Running? ==> Outbox.Consecutive(s.agent.outbox))
  {
    hide After, DiskInv, WriterInv, LinkInv, LateInv, GotUpTo, TookUpTo, OnlyCommitted, Outbox.Consecutive, Numbered;
    RunKeeps(steps);
    var s := After(steps).value;
    DiskBounds(s);
    CountsUp(s.committed);
    SameNumberSameEvent(s.committed, s.received);
    if s.agent.Running? {
      SliceIsConsecutive(s.committed, Popped(s.agent, s.acked), Queued(s.agent, s.committed));
    }
  }

  lemma CountsUp(c: seq<Record>)
    requires Numbered(c)
    ensures forall i :: 0 <= i < |c| ==> c[i].number == i + 1
  {
  }

  lemma SameNumberSameEvent(c: seq<Record>, rs: set<Record>)
    requires Numbered(c) && OnlyCommitted(c, rs)
    ensures forall r, q | r in rs && q in rs && r.number == q.number :: r == q
  {
    forall r, q | r in rs && q in rs && r.number == q.number
      ensures r == q
    {
      var i :| 0 <= i < |c| && c[i] == r;
      var j :| 0 <= j < |c| && c[j] == q;
      assert i == j;
    }
  }

  lemma SliceIsConsecutive(c: seq<Record>, from: nat, end: int)
    requires Numbered(c) && from <= end <= |c|
    ensures Outbox.Consecutive(c[from..end])
  {
  }

  // ----- Each connection -----

  /** The agent sends exactly the numbers after its hello, without a gap or a repeat, and the
      handler reads them so; it counts no duplicate, and no gap if it refused nothing. */
  ghost predicate ContiguousStream(l: Link) {
    && (forall i :: 0 <= i < |l.sent| ==> l.sent[i].number == l.hello + 1 + i)
    && (forall i :: 0 <= i < |l.deliveries| ==> l.deliveries[i].number == l.hello + 1 + i)
    && (l.session.Some? ==> l.session.value.duplicates == 0)
    && (l.session.Some? && (forall d | d in l.deliveries :: d.verdict == Ingest.Accepted)
        ==> l.session.value.gapEvents == 0 && Ingest.ReportedLost(l.session.value) == 0)
  }

  /** Every connection is contiguous, however pushes and acknowledgements interleave with
      snapshots: the agent's own, and each one it gave up whose handler is still reading. */
  lemma ConnectionIsContiguous(steps: seq<Step>)
    requires SafeRun(steps)
    ensures After(steps).Some?
    ensures var s := After(steps).value;
            && (Linked(s) ==> ContiguousStream(s.agent.link.value))
            && (forall i | 0 <= i < |s.abandoned| :: ContiguousStream(s.abandoned[i]))
  {
    hide After, ContiguousStream, WriterInv, GatewayInv, GotUpTo, TookUpTo, OnlyCommitted;
    RunKeeps(steps);
    var s := After(steps).value;
    if Linked(s) {
      StreamIsContiguous(s.committed, s.agent.link.value);
    }
    forall i | 0 <= i < |s.abandoned|
      ensures ContiguousStream(s.abandoned[i])
    {
      StreamIsContiguous(s.committed, s.abandoned[i]);
    }
  }

  lemma StreamIsContiguous(c: seq<Record>, l: Link)
    requires Numbered(c) && StreamInv(c, l)
    ensures ContiguousStream(l)
  {
    hide Ingest.Deliver;
    StreamNumbers(c, l);
    if l.session.Some? {
      Ingest.ContiguousHasNoDuplicates(l.hello, l.deliveries);
      if forall d | d in l.deliveries :: d.verdict == Ingest.Accepted {
        Ingest.AckCoversAcceptedIff(l.hello, l.deliveries);
      }
    }
  }

  /** On no connection is an event read twice: one that was refused is not tried again there. */
  lemma RefusedIsNotRetried(steps: seq<Step>, i: nat, j: nat)
    requires SafeRun(steps) && i < j
    ensures After(steps).Some?
    ensures var s := After(steps).value;
            && (Linked(s) && j < |s.agent.link.value.deliveries| ==>
                  s.agent.link.value.deliveries[i].number < s.agent.link.value.deliveries[j].number)
            && (forall k | 0 <= k < |s.abandoned| && j < |s.abandoned[k].deliveries| ::
                  s.abandoned[k].deliveries[i].number < s.abandoned[k].deliveries[j].number)
  {
    hide After;
    ConnectionIsContiguous(steps);
  }

  // ----- When steps are safe -----

  /** Finishing an append adds its event to what replay returns exactly when the log was not
      replaced since the append opened it. */
  lemma AppendReachesReplayIff(s: State)
    requires Inv(s) && Enabled(s, FinishAppend)
    ensures var r := s.writer.appending.value.event;
            Replay(Apply(s, FinishAppend).log, s.acked) == Replay(s.log, s.acked) + [r] <==> SafeStep(s, FinishAppend)
  {
    hide HistoryInv, CompactInv, Replay, Clean, Encode, SenderInv, GatewayInv;
    DiskBounds(s);
    if !s.writer.appending.value.orphaned {
      AppendDisk(s);
      DiskBounds(DoFinishAppend(s));
      var r := s.writer.appending.value.event;
      assert (s.committed + [r])[s.acked..] == s.committed[s.acked..] + [r];
    }
  }

  /** Where numbering would resume after a crash now. */
  function Resumes(log: Bytes, acked: nat): nat {
    Outbox.NextNumber(acked, Replay(log, acked))
  }

  /** After a replace, a restart would resume above every committed event exactly when every
      event appended since the compaction's read has been acknowledged.  Otherwise the next
      event gets the number of the first one erased. */
  lemma ReplaceKeepsNumberingIff(s: State)
    requires Inv(s) && Enabled(s, Replace)
    ensures Resumes(DoReplace(s).log, s.acked) == |s.committed| + 1 <==> SafeStep(s, Replace)
    ensures !SafeStep(s, Replace) ==>
              Resumes(DoReplace(s).log, s.acked) == Max(s.acked, s.writer.compacting.value.seen) + 1 <= |s.committed|
  {
    hide AgentInv, HistoryInv, AppendInv, Replay, CompactInv, DiskInv, Numbered, Decode, EncodeAll, Outbox.Highest;
    var m, c := s.writer.compacting.value, s.committed;
    DiskBounds(s);
    KeptIsReplayed(m, c, s.acked);
    SeenBound(m, c, s.acked);
    UnackedPrefix(c, m.seen, s.acked);
    if s.acked <= m.seen {
      HighestOfSlice(c, s.acked, m.seen);
    } else {
      HighestOfSlice(c, s.acked, s.acked);
      assert c[s.acked..s.acked] == [];
    }
  }

  /** After an append, a restart would resume above its event exactly when the log was not
      replaced since the append opened it.  Otherwise the next event gets its number. */
  lemma AppendKeepsNumberingIff(s: State)
    requires Inv(s) && Enabled(s, FinishAppend)
    ensures var t := DoFinishAppend(s);
            && (Resumes(t.log, t.acked) == |t.committed| + 1 <==> SafeStep(s, FinishAppend))
            && (!SafeStep(s, FinishAppend) ==> Resumes(t.log, t.acked) == s.writer.appending.value.event.number)
  {
    hide HistoryInv, CompactInv, DiskInv, Numbered, Replay, Clean, Encode, SenderInv, GatewayInv, Outbox.Highest;
    var t := DoFinishAppend(s);
    DiskBounds(s);
    if s.writer.appending.value.orphaned {
      HighestOfSlice(s.committed, s.acked, |s.committed|);
      assert s.committed[s.acked..|s.committed|] == s.committed[s.acked..];
    } else {
      AppendDisk(s);
      DiskBounds(t);
      HighestOfSlice(t.committed, t.acked, |t.committed|);
      assert t.committed[t.acked..|t.committed|] == t.committed[t.acked..];
    }
  }

  /** One thread owns the log: no append opens it during a compaction, and no compaction
      reads it during an append.  Nor is an append cut short, and every event fits. */
  predicate Orderly(s: State, step: Step)
    requires Enabled(s, step)
  {
    match step
    case OpenLog(payload) => s.writer.compacting.None? && Record(s.agent.next, payload).Valid()
    case ReadLog(_) => s.writer.appending.None?
    case TornCrash(_) => false
    case _ => true
  }

  ghost predicate OrderlyRun(steps: seq<Step>) {
    steps != [] ==>
      && OrderlyRun(steps[..|steps| - 1])
      && After(steps).Some?
      && Orderly(After(steps[..|steps| - 1]).value, steps[|steps| - 1])
  }

  /** What a single owner keeps. */
  ghost predicate Owned(s: State) {
    && Clean(s.log)
    && (s.writer.appending.Some? ==> s.writer.compacting.None? && !s.writer.appending.value.orphaned)
    && (s.writer.compacting.Some? ==> s.writer.compacting.value.seen == |s.committed|)
  }

  lemma StaysOwned(s: State, step: Step)
    requires Inv(s) && Owned(s) && Enabled(s, step) && Orderly(s, step)
    ensures SafeStep(s, step) && Owned(Apply(s, step))
  {
    hide DiskInv, HistoryInv, AgentInv, CompactInv, Clean, Encode, EncodeAll, Decode, Replay, Left, ReadOne, Between,
      Outbox.PopAcked;
    if step.FinishAppend? {
      AppendToClean(s.log, s.writer.appending.value.event);
    } else if step.Replace? {
      KeptIsReplayed(s.writer.compacting.value, s.committed, s.acked);
    }
  }

  /** If one thread owns the log and no crash tears an append, every step is safe: all of the
      above holds with any number of crashes, restarts and compactions. */
  lemma {:induction false} OrderlyRunIsSafe(steps: seq<Step>)
    requires OrderlyRun(steps)
    ensures SafeRun(steps) && After(steps).Some? && Owned(After(steps).value)
    decreases |steps|
  {
    hide Apply, Clean, Inv, SafeStep, Orderly;
    if steps == [] {
      EmptyIsClean();
    } else {
      var before, step := steps[..|steps| - 1], steps[|steps| - 1];
      OrderlyRunIsSafe(before);
      RunKeeps(before);
      StaysOwned(After(before).value, step);
    }
  }

  lemma EmptyIsClean()
    ensures Clean([])
  {
    EmptyDoesNotDecode();
  }

  // ----- Runs that fail without a hypothesis -----

  lemma OneMoreStep(steps: seq<Step>, step: Step)
    requires After(steps).Some? && Enabled(After(steps).value, step)
    ensures After(steps + [step]) == Some(Apply(After(steps).value, step))
  {
    hide Enabled, Apply;
    var more := steps + [step];
    assert more[..|more| - 1] == steps && more[|more| - 1] == step;
  }

  lemma NothingLogged()
    ensures Records([]) == [] && Replay([], 0) == []
  {
    EmptyDoesNotDecode();
  }

  /** Byte 1 followed by the record numbered 1 reads as an empty record numbered 257. */
  lemma MisreadTail()
    ensures Records(Encode(PROBE)[..1]) == []
    ensures Records(Encode(PROBE)[..1] + Encode(PROBE)) == [Record(257, [])]
  {
    hide Decode, Encode, LittleEndian, CrcBytes, Crc32.Checksum;
    EmptyIsClean();
    NothingLogged();
    TornAppend([], PROBE, 1);
    assert [] + Encode(PROBE)[..1] == Encode(PROBE)[..1];
    ProbeBytes();
    var log := Encode(PROBE)[..1] + Encode(PROBE);
    var bogus := Record(257, []);
    BogusBytes();
    assert Encode(bogus) == log[..HEADER_BYTES];
    DecodeIff(log, bogus);
    var rest := log[HEADER_BYTES..];
    assert |rest| == 1;
    ShortDoesNotDecode(rest);
  }

  lemma ShortDoesNotDecode(b: Bytes)
    requires |b| < HEADER_BYTES
    ensures Decode(b) == None
  {
  }

  lemma BogusBytes()
    ensures |Encode(Record(257, []))| == HEADER_BYTES
    ensures Encode(Record(257, []))[0] == 1 && Encode(Record(257, []))[1] == 1
    ensures forall k :: 2 <= k < HEADER_BYTES ==> Encode(Record(257, []))[k] == 0
  {
    hide LittleEndian, CrcBytes, Crc32.Checksum, ByteOf;
    ByteOne();
    LittleEndianStep(257, 8);
    LittleEndianStep(1, 7);
    ZeroBytes(6);
    ZeroBytes(4);
    ChecksumOfNothing();
    assert Encode(Record(257, [])) == LittleEndian(257, 8) + LittleEndian(0, 4) + CrcBytes(Crc32.Checksum([]));
  }

  const AT_REST: Agent := Running([], 1, None, None, None)
  const RESTED: State := State([], 0, AT_REST, IDLE, [], [], {}, {}, {})

  lemma FirstStart()
    ensures After([] + [Start]) == Some(RESTED)
  {
    hide Records;
    NothingLogged();
    Then([], INIT, Start, RESTED);
  }

  const OPEN: Writer := Writer(Some(Appending(PROBE, false)), None)

  /** A crash that tears an append, followed by a restart and one more event: the event
      is committed, but neither received nor in the replay set. */
  lemma AppendAfterTornTailLoses()
    ensures var s := After([] + [Start] + [OpenLog([])] + [TornCrash(1)] + [Start] + [OpenLog([])] + [FinishAppend]);
            && s.Some?
            && PROBE in s.value.committed
            && PROBE !in s.value.received
            && PROBE !in Replay(s.value.log, s.value.acked)
  {
    hide After, Records, Encode;
    NothingLogged();
    MisreadTail();
    var torn := Encode(PROBE)[..1];
    assert [] + torn == torn;
    var s1 := RESTED;
    var s2 := State([], 0, AT_REST, OPEN, [], [], {}, {}, {});
    var s3 := State(torn, 0, Down, IDLE, [], [], {}, {}, {});
    var s4 := State(torn, 0, AT_REST, IDLE, [], [], {}, {}, {});
    var s5 := State(torn, 0, AT_REST, OPEN, [], [], {}, {}, {});
    var s6 := State(torn + Encode(PROBE), 0, AT_REST.(pushing := Some(PROBE)), IDLE, [], [PROBE], {}, {}, {});
    FirstStart();
    Then([] + [Start], s1, OpenLog([]), s2);
    Then([] + [Start] + [OpenLog([])], s2, TornCrash(1), s3);
    Then([] + [Start] + [OpenLog([])] + [TornCrash(1)], s3, Start, s4);
    Then([] + [Start] + [OpenLog([])] + [TornCrash(1)] + [Start], s4, OpenLog([]), s5);
    Then([] + [Start] + [OpenLog([])] + [TornCrash(1)] + [Start] + [OpenLog([])], s5, FinishAppend, s6);
    assert PROBE !in Unacked([Record(257, [])], 0);
  }

  const ERASED: seq<Step> := [] + [Start] + [ReadLog(0)] + [OpenLog([])] + [FinishAppend] + [Replace]

  /** The log is empty and the event in it was erased. */
  const AFTER_ERASURE: State :=
    State([], 0, AT_REST.(pushing := Some(PROBE)), IDLE, [], [PROBE], {}, {}, {})

  lemma EraseOne()
    ensures After(ERASED) == Some(AFTER_ERASURE)
  {
    hide After, Records, Encode, Decode;
    NothingLogged();
    EmptyDoesNotDecode();
    var m := Compaction([], [], 0);
    var s1 := RESTED;
    var s2 := s1.(writer := Writer(None, Some(m)));
    var s3 := s1.(writer := Writer(Some(Appending(PROBE, false)), Some(m)));
    var s4 := State([] + Encode(PROBE), 0, AT_REST.(pushing := Some(PROBE)), Writer(None, Some(m)), [], [PROBE],
                    {}, {}, {});
    assert [] + [] == m.rest;
    FirstStart();
    Then([] + [Start], s1, ReadLog(0), s2);
    Then([] + [Start] + [ReadLog(0)], s2, OpenLog([]), s3);
    Then([] + [Start] + [ReadLog(0)] + [OpenLog([])], s3, FinishAppend, s4);
    Then([] + [Start] + [ReadLog(0)] + [OpenLog([])] + [FinishAppend], s4, Replace, AFTER_ERASURE);
  }

  /** An append that lands between a compaction's read and its replace: the event is
      committed, but neither received nor in the replay set. */
  lemma CompactionErasesAppend()
    ensures var s := After(ERASED);
            && s.Some?
            && PROBE in s.value.committed
            && PROBE !in s.value.received
            && PROBE !in Replay(s.value.log, s.value.acked)
  {
    hide After, Records;
    EraseOne();
    NothingLogged();
  }

  const OTHER: Record := Record(1, [7])

  /** After a crash the erased event's number goes to another event. */
  lemma ErasureReusesNumber()
    ensures var s := After(ERASED + [Crash] + [Start] + [OpenLog([7])] + [FinishAppend]);
            && s.Some?
            && PROBE in s.value.committed && OTHER in s.value.committed
            && PROBE != OTHER && PROBE.number == OTHER.number
  {
    hide After, Records, Encode;
    EraseOne();
    NothingLogged();
    var s1 := State([], 0, Down, IDLE, [], [PROBE], {}, {}, {});
    var s2 := s1.(agent := AT_REST);
    var s3 := s2.(writer := Writer(Some(Appending(OTHER, false)), None));
    var s4 := State([] + Encode(OTHER), 0, AT_REST.(pushing := Some(OTHER)), IDLE, [], [PROBE, OTHER], {}, {}, {});
    Then(ERASED, AFTER_ERASURE, Crash, s1);
    Then(ERASED + [Crash], s1, Start, s2);
    Then(ERASED + [Crash] + [Start], s2, OpenLog([7]), s3);
    Then(ERASED + [Crash] + [Start] + [OpenLog([7])], s3, FinishAppend, s4);
    assert s4.committed[0] == PROBE && s4.committed[1] == OTHER;
  }

  /** An append that opened the log before it was replaced finishes in the old file. */
  lemma ReplacedLogMissesAppend()
    ensures var s := After([] + [Start] + [OpenLog([])] + [ReadLog(0)] + [Replace] + [FinishAppend]);
            && s.Some?
            && PROBE in s.value.committed
            && PROBE !in s.value.received
            && PROBE !in Replay(s.value.log, s.value.acked)
  {
    hide After, Records, Encode, Decode;
    NothingLogged();
    EmptyDoesNotDecode();
    var m := Compaction([], [], 0);
    var s1 := RESTED;
    var s2 := s1.(writer := OPEN);
    var s3 := s1.(writer := OPEN.(compacting := Some(m)));
    var s4 := s1.(writer := Writer(Some(Appending(PROBE, true)), None));
    assert [] + [] == m.rest;
    FirstStart();
    Then([] + [Start], s1, OpenLog([]), s2);
    Then([] + [Start] + [OpenLog([])], s2, ReadLog(0), s3);
    Then([] + [Start] + [OpenLog([])] + [ReadLog(0)], s3, Replace, s4);
    Then([] + [Start] + [OpenLog([])] + [ReadLog(0)] + [Replace], s4, FinishAppend, AFTER_ERASURE);
  }

  lemma Then(done: seq<Step>, s: State, step: Step, t: State)
    requires After(done) == Some(s) && Enabled(s, step) && Apply(s, step) == t
    ensures After(done + [step]) == Some(t)
  {
    hide Enabled, Apply;
    OneMoreStep(done, step);
  }

  const SECOND: Record := Record(2, [])

  /** Two events logged and queued. */
  function TwoQueued(link: Option<Link>): State {
    State([] + Encode(PROBE) + Encode(SECOND), 0, Running([PROBE, SECOND], 3, None, None, link), IDLE, [],
          [PROBE, SECOND], {}, {}, {})
  }

  /** A greeted stream with both events in flight. */
  const BOTH_IN_FLIGHT: Link :=
    Link(0, 2, [], [Detection(PROBE), Detection(SECOND)], [], Some(Ingest.Greeted(0, true)), false, [PROBE, SECOND], [])

  const QUEUED_TWO: seq<Step> :=
    [] + [Start] + [OpenLog([])] + [FinishAppend] + [Push] + [OpenLog([])] + [FinishAppend] + [Push]

  lemma QueueTwo()
    ensures After(QUEUED_TWO) == Some(TwoQueued(None))
  {
    hide After, Records, Encode;
    var log1 := [] + Encode(PROBE);
    var s1 := RESTED;
    var s2 := s1.(writer := OPEN);
    var s3 := State(log1, 0, AT_REST.(pushing := Some(PROBE)), IDLE, [], [PROBE], {}, {}, {});
    var s4 := State(log1, 0, Running([PROBE], 2, None, None, None), IDLE, [], [PROBE], {}, {}, {});
    FirstStart();
    Then([] + [Start], s1, OpenLog([]), s2);
    Then([] + [Start] + [OpenLog([])], s2, FinishAppend, s3);
    Then([] + [Start] + [OpenLog([])] + [FinishAppend], s3, Push, s4);
    QueueSecond([] + [Start] + [OpenLog([])] + [FinishAppend] + [Push], s4);
  }

  lemma QueueSecond(done: seq<Step>, s: State)
    requires s == State([] + Encode(PROBE), 0, Running([PROBE], 2, None, None, None), IDLE, [], [PROBE], {}, {}, {})
    requires After(done) == Some(s)
    ensures After(done + [OpenLog([])] + [FinishAppend] + [Push]) == Some(TwoQueued(None))
  {
    hide After, Encode;
    var s1 := s.(writer := Writer(Some(Appending(SECOND, false)), None));
    var s2 := State(s.log + Encode(SECOND), 0, s.agent.(pushing := Some(SECOND)), IDLE, [], [PROBE, SECOND],
                    {}, {}, {});
    Then(done, s, OpenLog([]), s1);
    Then(done + [OpenLog([])], s1, FinishAppend, s2);
    Then(done + [OpenLog([])] + [FinishAppend], s2, Push, TwoQueued(None));
  }

  lemma SendTwo(done: seq<Step>)
    requires After(done) == Some(TwoQueued(None))
    ensures After(done + [Connect] + [Snapshot] + [Send] + [Send] + [ReadHello])
         == Some(TwoQueued(Some(BOTH_IN_FLIGHT)))
  {
    hide Encode, Ingest.Greeted, After;
    var l0 := Link(0, 0, [], [Hello(0)], [], None, false, [], []);
    var l1 := l0.(todo := [PROBE, SECOND]);
    var l2 := Link(0, 1, [SECOND], [Hello(0), Detection(PROBE)], [], None, false, [PROBE], []);
    var l3 := Link(0, 2, [], [Hello(0), Detection(PROBE), Detection(SECOND)], [], None, false, [PROBE, SECOND], []);
    assert SendNext(l1) == l2 && SendNext(l2) == l3;
    assert l3.uplink[1..] == [Detection(PROBE), Detection(SECOND)];
    Then(done, TwoQueued(None), Connect, TwoQueued(Some(l0)));
    Then(done + [Connect], TwoQueued(Some(l0)), Snapshot, TwoQueued(Some(l1)));
    Then(done + [Connect] + [Snapshot], TwoQueued(Some(l1)), Send, TwoQueued(Some(l2)));
    Then(done + [Connect] + [Snapshot] + [Send], TwoQueued(Some(l2)), Send, TwoQueued(Some(l3)));
    Then(done + [Connect] + [Snapshot] + [Send] + [Send], TwoQueued(Some(l3)), ReadHello,
         TwoQueued(Some(BOTH_IN_FLIGHT)));
  }

  const REFUSED: Link :=
    Link(0, 2, [], [Detection(SECOND)], [], Some(Ingest.Session(0, 0, 0, 0, 1, 0, false)), false, [PROBE, SECOND],
         [Ingest.Delivery(1, Ingest.RateLimited)])

  const OVERTOOK: Link :=
    Link(0, 2, [], [], [2], Some(Ingest.Session(2, 1, 0, 1, 1, 0, false)), false, [PROBE, SECOND],
         [Ingest.Delivery(1, Ingest.RateLimited), Ingest.Delivery(2, Ingest.Accepted)])

  lemma RefuseFirst()
    ensures Enabled(TwoQueued(Some(BOTH_IN_FLIGHT)), ReadDetection(Ingest.RateLimited))
    ensures Apply(TwoQueued(Some(BOTH_IN_FLIGHT)), ReadDetection(Ingest.RateLimited))
         == TwoQueued(Some(REFUSED)).(received := {PROBE})
  {
    hide Encode;
    var s := TwoQueued(Some(BOTH_IN_FLIGHT));
    var t := ReadNext(s, BOTH_IN_FLIGHT, Ingest.RateLimited);
    assert BOTH_IN_FLIGHT.uplink[1..] == [Detection(SECOND)];
    assert t.agent.link.value == REFUSED;
    assert t.received == {PROBE};
  }

  lemma AcceptSecond()
    ensures var s := TwoQueued(Some(REFUSED)).(received := {PROBE});
            && Enabled(s, ReadDetection(Ingest.Accepted))
            && Apply(s, ReadDetection(Ingest.Accepted))
               == TwoQueued(Some(OVERTOOK)).(received := {PROBE, SECOND}, accepted := {SECOND}, overtaken := {PROBE})
  {
    hide Encode;
    var c := [PROBE, SECOND];
    var s := TwoQueued(Some(REFUSED)).(received := {PROBE});
    var t := ReadNext(s, REFUSED, Ingest.Accepted);
    assert REFUSED.uplink[1..] == [];
    assert c[0] in Between(c, 0, 2);
    assert Between(c, 0, 2) == {PROBE};
    assert t.agent.link.value == OVERTOOK;
    assert t.received == {PROBE, SECOND};
  }

  lemma AckSecond(s: State)
    requires s == TwoQueued(Some(OVERTOOK)).(received := {PROBE, SECOND}, accepted := {SECOND}, overtaken := {PROBE})
    ensures Enabled(s, ApplyAckToOutbox) && Enabled(Apply(s, ApplyAckToOutbox), ApplyAckToLog)
    ensures var t := Apply(Apply(s, ApplyAckToOutbox), ApplyAckToLog);
            t.log == s.log && t.acked == 2 && t.committed == [PROBE, SECOND] && t.accepted == {SECOND}
  {
    hide Encode, Outbox.PopAcked;
  }

  lemma BothAcknowledged()
    ensures Replay([] + Encode(PROBE) + Encode(SECOND), 2) == []
  {
    hide Encode, Records;
    EncodeAllConcat([PROBE], [SECOND]);
    EncodeAllOne(PROBE);
    EncodeAllOne(SECOND);
    assert [PROBE] + [SECOND] == [PROBE, SECOND];
    RecordsOfEncodeAll([PROBE, SECOND]);
    assert [] + Encode(PROBE) + Encode(SECOND) == EncodeAll([PROBE, SECOND]);
    assert [PROBE, SECOND][1..] == [SECOND];
    assert Unacked([PROBE, SECOND], 2) == Unacked([SECOND], 2) == [];
  }

  const REFUSED_THEN_OVERTAKEN: seq<Step> :=
    QUEUED_TWO + [Connect] + [Snapshot] + [Send] + [Send] + [ReadHello]
    + [ReadDetection(Ingest.RateLimited)] + [ReadDetection(Ingest.Accepted)] + [ApplyAckToOutbox] + [ApplyAckToLog]

  /** A refusal followed by an acceptance on the same stream: the refused event is
      acknowledged, so replay no longer returns it, yet no gateway ever accepted it. */
  lemma RefusalThenAcceptanceLoses()
    ensures var s := After(REFUSED_THEN_OVERTAKEN);
            && s.Some?
            && PROBE in s.value.committed
            && PROBE !in s.value.accepted
            && PROBE !in Replay(s.value.log, s.value.acked)
  {
    hide After, Replay, Apply, Enabled, Encode;
    var queued := QUEUED_TWO;
    var sent := queued + [Connect] + [Snapshot] + [Send] + [Send] + [ReadHello];
    QueueTwo();
    SendTwo(queued);
    var s0 := TwoQueued(Some(BOTH_IN_FLIGHT));
    var s1 := TwoQueued(Some(REFUSED)).(received := {PROBE});
    var s2 := TwoQueued(Some(OVERTOOK)).(received := {PROBE, SECOND}, accepted := {SECOND}, overtaken := {PROBE});
    RefuseFirst();
    Then(sent, s0, ReadDetection(Ingest.RateLimited), s1);
    AcceptSecond();
    Then(sent + [ReadDetection(Ingest.RateLimited)], s1, ReadDetection(Ingest.Accepted), s2);
    AckSecond(s2);
    var read := sent + [ReadDetection(Ingest.RateLimited)] + [ReadDetection(Ingest.Accepted)];
    var s3 := Apply(s2, ApplyAckToOutbox);
    Then(read, s2, ApplyAckToOutbox, s3);
    Then(read + [ApplyAckToOutbox], s3, ApplyAckToLog, Apply(s3, ApplyAckToLog));
    BothAcknowledged();
  }
}
