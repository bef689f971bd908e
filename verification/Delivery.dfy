/** The delivery protocol as a step system: an agent that numbers events, logs them,
    sends them from an outbox and applies cumulative acknowledgements, and a gateway
    that remembers nothing beyond the streams it is serving.  The agent's producer,
    sender and reader threads, the network, crashes on either side, and the parts of an
    append and of a compaction are separate steps that interleave in any order. */
module Delivery {
  import opened Options
  import opened WalRecordCodec
  import opened WalLog
  import Outbox
  import Ingest

  datatype Uplink = Hello(lastAcked: nat) | Detection(event: Record)

  /** One connection.  `sent` and `deliveries` record its history: the events the
      sender has written, and those the gateway has read with its verdicts. */
  datatype Link = Link(
    hello: nat,
    lastSent: nat,
    todo: seq<Record>,
    uplink: seq<Uplink>,
    downlink: seq<nat>,
    session: Option<Ingest.Session>,
    cut: bool,
    sent: seq<Record>,
    deliveries: seq<Ingest.Delivery>)

  /** The agent's volatile state.  `pushing` is an event logged but not yet queued,
      `acking` an acknowledgement applied to the outbox but not yet to the log. */
  datatype Agent =
    | Down
    | Running(outbox: seq<Record>, next: nat, pushing: Option<Record>, acking: Option<nat>, link: Option<Link>)

  /** An append between the open and the end of its write.  A log replaced in between
      leaves it writing to a file that no longer has a name. */
  datatype Appending = Appending(event: Record, orphaned: bool)

  /** A compaction between its read and its replace: the bytes left to filter and the
      records kept so far.  `seen` is how many events were committed at the read. */
  datatype Compaction = Compaction(rest: Bytes, kept: seq<Record>, seen: nat)

  /** The file operations in progress, lost in a crash. */
  datatype Writer = Writer(appending: Option<Appending>, compacting: Option<Compaction>)

  const IDLE: Writer := Writer(None, None)

  /** `log` and `acked` are on disk.  The last group is history: `committed` lists every
      event whose append completed, `received` the events any gateway has read, `accepted`
      those it took in, and `overtaken` those it passed over by accepting a later one on
      the agent's stream.  `abandoned` holds the streams the agent has given up, which
      their handlers may go on reading. */
  datatype State = State(
    log: Bytes,
    acked: nat,
    agent: Agent,
    writer: Writer,
    abandoned: seq<Link>,
    committed: seq<Record>,
    received: set<Record>,
    accepted: set<Record>,
    overtaken: set<Record>)

  datatype Step =
    | Start
    | OpenLog(payload: Bytes)
    | FinishAppend
    | Push
    | Connect
    | Snapshot
    | Send
    | ReadHello
    | ReadDetection(verdict: Ingest.Verdict)
    | ApplyAckToOutbox
    | ApplyAckToLog
    | ReadLog(partial: nat)
    | FilterNext
    | Replace
    | CutStream
    | Disconnect
    | ReadLateHello(stream: nat)
    | ReadLate(stream: nat, verdict: Ingest.Verdict)
    | GatewayRestart
    | Crash
    | TornCrash(written: nat)

  const INIT: State := State([], 0, Down, IDLE, [], [], {}, {}, {})

  /** What the gateway goes on serving when the agent gives up its stream. */
  function Left(a: Agent): seq<Link> {
    if a.Down? || a.link.None? || a.link.value.cut then [] else [a.link.value]
  }

  predicate Linked(s: State) {
    s.agent.Running? && s.agent.link.Some?
  }

  predicate HelloNext(l: Link) {
    l.session.None? && l.uplink != [] && l.uplink[0].Hello?
  }

  predicate DetectionNext(l: Link) {
    l.session.Some? && l.uplink != [] && l.uplink[0].Detection?
  }

  predicate Enabled(s: State, step: Step) {
    var a := s.agent;
    match step
    case Start => a.Down?
    case OpenLog(_) => a.Running? && a.pushing.None? && s.writer.appending.None?
    case FinishAppend => a.Running? && a.pushing.None? && s.writer.appending.Some?
    case Push => a.Running? && a.pushing.Some?
    case Connect => a.Running? && a.link.None?
    case Snapshot => Linked(s) && a.link.value.todo == []
    case Send => Linked(s) && a.link.value.todo != []
    case ReadHello => Linked(s) && !a.link.value.cut && HelloNext(a.link.value)
    case ReadDetection(_) => Linked(s) && !a.link.value.cut && DetectionNext(a.link.value)
    case ApplyAckToOutbox => Linked(s) && a.acking.None? && a.link.value.downlink != []
    case ApplyAckToLog => a.Running? && a.acking.Some?
    case ReadLog(partial) => a.Running? && s.writer.compacting.None? && partial <= Partial(s.writer)
    case FilterNext => s.writer.compacting.Some? && Decode(s.writer.compacting.value.rest).Some?
    case Replace => a.Running? && s.writer.compacting.Some? && Decode(s.writer.compacting.value.rest).None?
    case CutStream => Linked(s)
    case Disconnect => Linked(s) && a.acking.None?
    case ReadLateHello(i) => i < |s.abandoned| && HelloNext(s.abandoned[i])
    case ReadLate(i, _) => i < |s.abandoned| && DetectionNext(s.abandoned[i])
    case GatewayRestart => true
    case Crash => a.Running?
    case TornCrash(written) =>
      a.Running? && s.writer.appending.Some? && written < s.writer.appending.value.event.Size()
  }

  /** How much of an unfinished append a reader of the log may see. */
  function Partial(w: Writer): nat {
    if w.appending.None? || w.appending.value.orphaned then 0 else w.appending.value.event.Size() - 1
  }

  function Max(a: nat, b: nat): nat {
    if a < b then b else a
  }

  function WithLink(s: State, l: Link): State
    requires s.agent.Running?
  {
    s.(agent := s.agent.(link := Some(l)))
  }

  /** One pass of the send loop over the next snapshot entry: entries already sent on
      this connection are skipped. */
  function SendNext(l: Link): Link
    requires l.todo != []
  {
    var r := l.todo[0];
    if r.number <= l.lastSent then l.(todo := l.todo[1..]) else
    l.(todo := l.todo[1..], uplink := l.uplink + [Detection(r)], lastSent := Max(l.lastSent, r.number),
       sent := l.sent + [r])
  }

  /** A handler reads the hello. */
  function Greet(l: Link): Link
    requires HelloNext(l)
  {
    l.(uplink := l.uplink[1..], session := Some(Ingest.Greeted(l.uplink[0].lastAcked, true)))
  }

  /** A handler reads one detection. */
  function ReadOne(l: Link, v: Ingest.Verdict): Link
    requires DetectionNext(l)
  {
    var before, d := l.session.value, Ingest.Delivery(l.uplink[0].event.number, v);
    var ack := Ingest.Ack(before, d);
    l.(uplink := l.uplink[1..],
       session := Some(Ingest.OnDetection(before, d)),
       downlink := l.downlink + (if ack.Some? then [ack.value] else []),
       deliveries := l.deliveries + [d])
  }

  /** Whether that takes the event in. */
  predicate Takes(l: Link, v: Ingest.Verdict)
    requires DetectionNext(l)
  {
    l.uplink[0].event.number > l.session.value.lastSeq && v == Ingest.Accepted
  }

  /** The gateway reads one detection of the agent's stream. */
  function ReadNext(s: State, l: Link, v: Ingest.Verdict): State
    requires s.agent.Running? && DetectionNext(l)
  {
    var r := l.uplink[0].event;
    WithLink(s, ReadOne(l, v))
    .(received := s.received + {r},
      accepted := if Takes(l, v) then s.accepted + {r} else s.accepted,
      overtaken := if Takes(l, v) then s.overtaken + Between(s.committed, l.session.value.lastSeq, r.number)
                   else s.overtaken)
  }

  /** The committed events numbered strictly between two others. */
  function Between(committed: seq<Record>, low: nat, high: nat): set<Record> {
    set i | 0 <= i < |committed| && low < committed[i].number < high :: committed[i]
  }

  // ----- The steps -----

  function DoStart(s: State): State {
    var replayed := Replay(s.log, s.acked);
    s.(agent := Running(replayed, Outbox.NextNumber(s.acked, replayed), None, None, None), writer := IDLE)
  }

  function DoOpenLog(s: State, payload: Bytes): State
    requires s.agent.Running?
  {
    s.(writer := s.writer.(appending := Some(Appending(Record(s.agent.next, payload), false))))
  }

  /** The event is committed; it is in the log unless the log was replaced meanwhile. */
  function DoFinishAppend(s: State): State
    requires s.agent.Running? && s.writer.appending.Some?
  {
    var a := s.writer.appending.value;
    s.(log := if a.orphaned then s.log else s.log + Encode(a.event),
       committed := s.committed + [a.event],
       agent := s.agent.(pushing := Some(a.event)),
       writer := s.writer.(appending := None))
  }

  function DoPush(s: State): State
    requires s.agent.Running? && s.agent.pushing.Some?
  {
    var a := s.agent;
    s.(agent := a.(outbox := a.outbox + [a.pushing.value], next := a.next + 1, pushing := None))
  }

  function DoConnect(s: State): State
    requires s.agent.Running?
  {
    WithLink(s, Link(s.acked, 0, [], [Hello(s.acked)], [], None, false, [], []))
  }

  function DoApplyAckToOutbox(s: State): State
    requires Linked(s) && s.agent.link.value.downlink != []
  {
    var a, l := s.agent, s.agent.link.value;
    var upTo := l.downlink[0];
    s.(agent := a.(outbox := Outbox.PopAcked(a.outbox, upTo), acking := Some(upTo),
                   link := Some(l.(downlink := l.downlink[1..]))))
  }

  function DoApplyAckToLog(s: State): State
    requires s.agent.Running? && s.agent.acking.Some?
  {
    s.(acked := Max(s.acked, s.agent.acking.value), agent := s.agent.(acking := None))
  }

  function DoReadLog(s: State, partial: nat): State
    requires partial <= Partial(s.writer)
  {
    var tail := if partial == 0 then [] else Encode(s.writer.appending.value.event)[..partial];
    s.(writer := s.writer.(compacting := Some(Compaction(s.log + tail, [], |s.committed|))))
  }

  /** One turn of the filter loop, against the checkpoint of that moment. */
  function DoFilterNext(s: State): State
    requires s.writer.compacting.Some? && Decode(s.writer.compacting.value.rest).Some?
  {
    var m := s.writer.compacting.value;
    var r := Decode(m.rest).value;
    s.(writer := s.writer.(compacting := Some(
         m.(rest := m.rest[r.Size()..], kept := m.kept + (if r.number > s.acked then [r] else [])))))
  }

  function DoReplace(s: State): State
    requires s.writer.compacting.Some?
  {
    var open := s.writer.appending;
    s.(log := EncodeAll(s.writer.compacting.value.kept),
       writer := Writer(if open.Some? then Some(open.value.(orphaned := true)) else None, None))
  }

  function DoCut(s: State): State
    requires Linked(s)
  {
    WithLink(s, s.agent.link.value.(cut := true)).(abandoned := s.abandoned + Left(s.agent))
  }

  function DoDisconnect(s: State): State
    requires Linked(s)
  {
    s.(agent := s.agent.(link := None), abandoned := s.abandoned + Left(s.agent))
  }

  function DoReadLateHello(s: State, i: nat): State
    requires i < |s.abandoned| && HelloNext(s.abandoned[i])
  {
    s.(abandoned := s.abandoned[i := Greet(s.abandoned[i])])
  }

  function DoReadLate(s: State, i: nat, v: Ingest.Verdict): State
    requires i < |s.abandoned| && DetectionNext(s.abandoned[i])
  {
    var l := s.abandoned[i];
    var r := l.uplink[0].event;
    s.(abandoned := s.abandoned[i := ReadOne(l, v)],
       received := s.received + {r},
       accepted := if Takes(l, v) then s.accepted + {r} else s.accepted)
  }

  function DoGatewayRestart(s: State): State {
    (if Linked(s) then WithLink(s, s.agent.link.value.(cut := true)) else s).(abandoned := [])
  }

  function DoCrash(s: State): State {
    s.(agent := Down, writer := IDLE, abandoned := s.abandoned + Left(s.agent))
  }

  function DoTornCrash(s: State, written: nat): State
    requires s.writer.appending.Some? && written < s.writer.appending.value.event.Size()
  {
    var a := s.writer.appending.value;
    DoCrash(s).(log := if a.orphaned then s.log else s.log + Encode(a.event)[..written])
  }

  function Apply(s: State, step: Step): State
    requires Enabled(s, step)
  {
    match step
    case Start => DoStart(s)
    case OpenLog(payload) => DoOpenLog(s, payload)
    case FinishAppend => DoFinishAppend(s)
    case Push => DoPush(s)
    case Connect => DoConnect(s)
    case Snapshot => WithLink(s, s.agent.link.value.(todo := s.agent.outbox))
    case Send => WithLink(s, SendNext(s.agent.link.value))
    case ReadHello => WithLink(s, Greet(s.agent.link.value))
    case ReadDetection(v) => ReadNext(s, s.agent.link.value, v)
    case ApplyAckToOutbox => DoApplyAckToOutbox(s)
    case ApplyAckToLog => DoApplyAckToLog(s)
    case ReadLog(partial) => DoReadLog(s, partial)
    case FilterNext => DoFilterNext(s)
    case Replace => DoReplace(s)
    case CutStream => DoCut(s)
    case Disconnect => DoDisconnect(s)
    case ReadLateHello(i) => DoReadLateHello(s, i)
    case ReadLate(i, v) => DoReadLate(s, i, v)
    case GatewayRestart => DoGatewayRestart(s)
    case Crash => DoCrash(s)
    case TornCrash(written) => DoTornCrash(s, written)
  }

  // ----- Runs -----

  function After(steps: seq<Step>): Option<State> {
    if steps == [] then Some(INIT) else
    var before := After(steps[..|steps| - 1]);
    if before.Some? && Enabled(before.value, steps[|steps| - 1])
    then Some(Apply(before.value, steps[|steps| - 1]))
    else None
  }

  /** Everything appended since the compaction's read has been acknowledged. */
  predicate NothingNewUnacked(s: State)
    requires s.writer.compacting.Some?
  {
    |s.committed| == s.writer.compacting.value.seen || |s.committed| <= s.acked
  }

  /** What the log needs of its callers: an append opens a log that ends cleanly and writes a
      record the framing can carry, it does not finish in a file that has been replaced, and
      a compaction does not replace a log that has gained an unacknowledged event. */
  predicate SafeStep(s: State, step: Step)
    requires Enabled(s, step)
  {
    match step
    case OpenLog(payload) => Clean(s.log) && Record(s.agent.next, payload).Valid()
    case FinishAppend => !s.writer.appending.value.orphaned
    case Replace => NothingNewUnacked(s)
    case _ => true
  }

  /** A run, in any interleaving, whose every step was safe. */
  ghost predicate SafeRun(steps: seq<Step>) {
    steps != [] ==>
      && SafeRun(steps[..|steps| - 1])
      && After(steps).Some?
      && SafeStep(After(steps[..|steps| - 1]).value, steps[|steps| - 1])
  }
}
