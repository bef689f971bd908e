/** Safety of the delivery protocol over every run whose steps are safe. */
module DeliverySafety {
  import opened Options
  import opened WalRecordCodec
  import opened WalLog
  import opened Delivery
  import Outbox
  import Ingest

  // ----- The invariant -----

  /** The n-th committed event carries number n. */
  ghost predicate Numbered(c: seq<Record>) {
    forall i :: 0 <= i < |c| ==> c[i].number == i + 1
  }

  /** Disk: replay returns exactly the committed events above the checkpoint. */
  ghost predicate DiskInv(log: Bytes, c: seq<Record>, acked: nat) {
    && Numbered(c)
    && acked <= |c|
    && Replay(log, acked) == c[acked..]
  }

  /** An append in progress carries the next number, and the log it opened, if it is still
      the log, ends cleanly. */
  ghost predicate AppendInv(open: Option<Appending>, a: Agent, log: Bytes) {
    open.Some? ==>
      && a.Running? && a.pushing.None?
      && open.value.event.number == a.next && open.value.event.Valid()
      && (open.value.orphaned || Clean(log))
  }

  /** A compaction in progress still holds every unacknowledged event committed before it
      read the log. */
  ghost predicate CompactInv(m: Compaction, c: seq<Record>, acked: nat) {
    && m.seen <= |c|
    && AllValid(m.kept)
    && Unacked(m.kept + Records(m.rest), acked) == Unacked(c[..m.seen], acked)
  }

  ghost predicate WriterInv(w: Writer, a: Agent, log: Bytes, c: seq<Record>, acked: nat) {
    && AppendInv(w.appending, a, log)
    && (w.compacting.Some? ==> CompactInv(w.compacting.value, c, acked))
  }

  /** How many committed events have reached the outbox. */
  function Queued(a: Agent, c: seq<Record>): int
    requires a.Running?
  {
    |c| - (if a.pushing.Some? then 1 else 0)
  }

  /** How many events have been acknowledged out of the outbox. */
  function Popped(a: Agent, acked: nat): nat
    requires a.Running?
  {
    if a.acking.Some? then Max(acked, a.acking.value) else acked
  }

  /** Memory: the outbox is the committed events from the last acknowledged one to the
      last queued one. */
  ghost predicate AgentInv(a: Agent, c: seq<Record>, acked: nat) {
    a.Running? ==>
      && (a.pushing.Some? ==> c != [] && a.pushing.value == c[|c| - 1])
      && a.next == Queued(a, c) + 1
      && Popped(a, acked) <= Queued(a, c)
      && a.outbox == c[Popped(a, acked)..Queued(a, c)]
      && (a.acking.Some? ==> a.link.Some?)
      && (a.link.Some? ==> LinkInv(c, acked, Popped(a, acked), Queued(a, c), a.link.value))
  }

  ghost predicate LinkInv(c: seq<Record>, acked: nat, popped: nat, queued: int, l: Link) {
    && SenderInv(c, queued, l)
    && GatewayInv(l)
    && l.hello <= acked
    && popped <= Position(l)
  }

  /** Sender: what was written is the committed events from the hello on, without a gap
      or a repeat, and the rest of the snapshot overlaps or continues it. */
  ghost predicate SenderInv(c: seq<Record>, queued: int, l: Link) {
    var upTo := l.hello + |l.sent|;
    && upTo <= queued <= |c|
    && l.sent == c[l.hello..upTo]
    && l.lastSent == (if l.sent == [] then 0 else upTo)
    && (l.todo != [] ==> TodoInv(c, queued, l.hello, upTo, l.todo))
  }

  /** What remains of a snapshot is a run of committed events that starts no later than
      the first unsent one. */
  ghost predicate TodoInv(c: seq<Record>, queued: int, hello: nat, upTo: nat, todo: seq<Record>)
    requires todo != [] && queued <= |c|
  {
    var from := todo[0].number - 1;
    && hello <= from <= upTo <= from + |todo| <= queued
    && todo == c[from..from + |todo|]
  }

  function Detections(rs: seq<Record>): (us: seq<Uplink>)
    ensures |us| == |rs| && forall i :: 0 <= i < |us| ==> us[i] == Detection(rs[i])
  {
    seq(|rs|, i requires 0 <= i < |rs| => Detection(rs[i]))
  }

  /** Gateway: its session is that of a contiguous stream from the hello on, and what is
      in flight is exactly what it has yet to read. */
  ghost predicate GatewayInv(l: Link) {
    match l.session
    case None => l.uplink == [Hello(l.hello)] + Detections(l.sent) && l.downlink == [] && l.deliveries == []
    case Some(session) =>
      && |l.deliveries| <= |l.sent|
      && l.uplink == Detections(l.sent[|l.deliveries|..])
      && Ingest.Contiguous(l.hello, l.deliveries)
      && session == Ingest.Deliver(Ingest.Greeted(l.hello, true), l.deliveries)
      && (forall i :: 0 <= i < |l.downlink| ==> l.downlink[i] <= session.lastSeq)
  }

  /** The highest number the gateway could have acknowledged on a stream. */
  function Position(l: Link): nat {
    match l.session case None => l.hello case Some(session) => session.lastSeq
  }

  function ReadUpTo(l: Link): nat {
    l.hello + |l.deliveries|
  }

  /** History: everything acknowledged, and everything a live stream has passed, was read
      by a gateway, and was accepted unless it was overtaken. */
  ghost predicate HistoryInv(s: State) {
    && GotUpTo(s, s.acked)
    && TookUpTo(s, s.acked)
    && (Linked(s) ==> GotUpTo(s, ReadUpTo(s.agent.link.value)) && TookUpTo(s, Position(s.agent.link.value)))
    && OnlyCommitted(s.committed, s.received) && LateInv(s.committed, s.abandoned)
    && OnlyCommitted(s.committed, s.accepted) && OnlyCommitted(s.committed, s.overtaken)
  }

  ghost predicate GotUpTo(s: State, n: nat) {
    forall i :: 0 <= i < |s.committed| && i < n ==> s.committed[i] in s.received
  }

  ghost predicate TookUpTo(s: State, n: nat) {
    forall i :: 0 <= i < |s.committed| && i < n ==> s.committed[i] in s.accepted + s.overtaken
  }

  ghost predicate OnlyCommitted(c: seq<Record>, rs: set<Record>) {
    forall r | r in rs :: r in c
  }

  /** A stream carries the committed events from its hello on. */
  ghost predicate StreamInv(c: seq<Record>, l: Link) {
    && l.hello + |l.sent| <= |c|
    && l.sent == c[l.hello..l.hello + |l.sent|]
    && GatewayInv(l)
  }

  ghost predicate LateInv(c: seq<Record>, ls: seq<Link>) {
    forall i | 0 <= i < |ls| :: StreamInv(c, ls[i])
  }

  ghost predicate LinkInvOf(s: State, l: Link)
    requires s.agent.Running?
  {
    LinkInv(s.committed, s.acked, Popped(s.agent, s.acked), Queued(s.agent, s.committed), l)
  }

  ghost predicate Inv(s: State) {
    && DiskInv(s.log, s.committed, s.acked)
    && WriterInv(s.writer, s.agent, s.log, s.committed, s.acked)
    && AgentInv(s.agent, s.committed, s.acked)
    && HistoryInv(s)
  }

  /** What the history depends on. */
  lemma SameHistory(s: State, t: State)
    requires HistoryInv(s)
    requires (t.acked, t.committed, t.received) == (s.acked, s.committed, s.received)
    requires (t.accepted, t.overtaken) == (s.accepted, s.overtaken) && LateInv(t.committed, t.abandoned)
    requires Linked(t) ==> GotUpTo(s, ReadUpTo(t.agent.link.value)) && TookUpTo(s, Position(t.agent.link.value))
    ensures HistoryInv(t)
  {
  }

  /** An agent's memory survives any change to its link that keeps the link's own parts. */
  lemma SameAgent(a: Agent, c: seq<Record>, acked: nat, l: Link)
    requires AgentInv(a, c, acked) && a.Running? && LinkInv(c, acked, Popped(a, acked), Queued(a, c), l)
    ensures AgentInv(a.(link := Some(l)), c, acked)
  {
    hide LinkInv;
  }

  // ----- Facts about slices of the committed events -----

  lemma {:induction false} UnackedSuffix(c: seq<Record>, from: nat, acked: nat)
    requires Numbered(c) && from <= acked <= |c|
    ensures Unacked(c[from..], acked) == c[acked..]
    decreases |c| - from
  {
    if from < acked {
      UnackedSuffix(c, from + 1, acked);
      assert c[from..][1..] == c[from + 1..];
      assert [] + c[acked..] == c[acked..];
    } else {
      Outbox.NothingAcked(c[acked..], acked);
    }
  }

  lemma {:induction false} PopAckedSlice(c: seq<Record>, from: nat, end: nat, upTo: nat)
    requires Numbered(c) && from <= end <= |c| && upTo <= end
    ensures Outbox.PopAcked(c[from..end], upTo) == c[Max(from, upTo)..end]
    decreases end - from
  {
    if from < upTo {
      PopAckedSlice(c, from + 1, end, upTo);
      assert c[from..end][1..] == c[from + 1..end];
    }
  }

  lemma {:induction false} HighestOfSlice(c: seq<Record>, from: nat, end: nat)
    requires Numbered(c) && from <= end <= |c|
    ensures Outbox.Highest(from, c[from..end]) == end
    decreases end
  {
    if from < end {
      HighestOfSlice(c, from, end - 1);
      assert c[from..end][..end - from - 1] == c[from..end - 1];
    }
  }

  lemma GatewayPosition(l: Link)
    requires GatewayInv(l)
    ensures l.hello <= Position(l) <= ReadUpTo(l) <= l.hello + |l.sent|
  {
    if l.session.Some? {
      Ingest.LastAccepted(l.hello, l.deliveries);
    }
  }

  // ----- Every step keeps the invariant -----

  lemma StartKeeps(s: State)
    requires Inv(s) && s.agent.Down?
    ensures Inv(DoStart(s))
  {
    hide DiskInv, HistoryInv, GotUpTo, TookUpTo, Replay;
    var t := DoStart(s);
    SameHistory(s, t) by { assert HistoryInv(s); LateStreams(s); }
    DiskBounds(s);
    HighestOfSlice(s.committed, s.acked, |s.committed|);
    assert s.committed[s.acked..|s.committed|] == s.committed[s.acked..];
  }

  lemma DiskBounds(s: State)
    requires DiskInv(s.log, s.committed, s.acked)
    ensures Numbered(s.committed) && s.acked <= |s.committed|
    ensures Replay(s.log, s.acked) == s.committed[s.acked..]
  {
  }

  lemma LateStreams(s: State)
    requires HistoryInv(s)
    ensures LateInv(s.committed, s.abandoned)
  {
  }

  lemma LinkHistory(s: State)
    requires HistoryInv(s) && Linked(s)
    ensures GotUpTo(s, ReadUpTo(s.agent.link.value)) && TookUpTo(s, Position(s.agent.link.value))
    ensures LateInv(s.committed, s.abandoned)
  {
  }

  // ----- Appending -----

  lemma OpenLogKeeps(s: State, payload: Bytes)
    requires Inv(s) && Enabled(s, OpenLog(payload)) && SafeStep(s, OpenLog(payload))
    ensures Inv(DoOpenLog(s, payload))
  {
    hide DiskInv, AgentInv, HistoryInv, CompactInv, Clean;
    WriterStepKeeps(s, s.log, DoOpenLog(s, payload).writer);
  }

  lemma AppendDisk(s: State)
    requires DiskInv(s.log, s.committed, s.acked) && s.agent.Running? && s.agent.next == |s.committed| + 1
    requires s.writer.appending.Some? && !s.writer.appending.value.orphaned
    requires AppendInv(s.writer.appending, s.agent, s.log)
    ensures var t := DoFinishAppend(s); DiskInv(t.log, t.committed, t.acked)
  {
    hide Records, Encode, Clean;
    var r := s.writer.appending.value.event;
    AppendToClean(s.log, r);
    UnackedConcat(Records(s.log), [r], s.acked);
    assert Unacked([r], s.acked) == [r];
    assert (s.committed + [r])[s.acked..] == s.committed[s.acked..] + [r];
  }

  lemma CompactGrows(m: Compaction, c: seq<Record>, r: Record, acked: nat)
    requires CompactInv(m, c, acked)
    ensures CompactInv(m, c + [r], acked)
  {
    hide Records, AllValid;
    assert (c + [r])[..m.seen] == c[..m.seen];
  }

  lemma StreamGrows(c: seq<Record>, r: Record, l: Link)
    requires StreamInv(c, l)
    ensures StreamInv(c + [r], l)
  {
    hide GatewayInv;
    assert (c + [r])[l.hello..l.hello + |l.sent|] == c[l.hello..l.hello + |l.sent|];
  }

  lemma LateGrows(c: seq<Record>, r: Record, ls: seq<Link>)
    requires LateInv(c, ls)
    ensures LateInv(c + [r], ls)
  {
    hide StreamInv;
    forall i | 0 <= i < |ls|
      ensures StreamInv(c + [r], ls[i])
    {
      StreamGrows(c, r, ls[i]);
    }
  }

  lemma GrowOnlyCommitted(c: seq<Record>, r: Record, rs: set<Record>)
    requires OnlyCommitted(c, rs)
    ensures OnlyCommitted(c + [r], rs)
  {
  }

  lemma AppendHistory(s: State)
    requires HistoryInv(s) && s.agent.Running? && s.writer.appending.Some? && s.acked <= |s.committed|
    requires Linked(s) ==> Position(s.agent.link.value) <= ReadUpTo(s.agent.link.value) <= |s.committed|
    ensures HistoryInv(DoFinishAppend(s))
  {
    hide OnlyCommitted, LateInv, GotUpTo, TookUpTo, Encode, Position, ReadUpTo;
    var r, t := s.writer.appending.value.event, DoFinishAppend(s);
    GrowOnlyCommitted(s.committed, r, s.received);
    GrowOnlyCommitted(s.committed, r, s.accepted);
    GrowOnlyCommitted(s.committed, r, s.overtaken);
    LateGrows(s.committed, r, s.abandoned);
    GrowHistory(s, t, s.acked);
    if Linked(s) {
      GrowHistory(s, t, ReadUpTo(s.agent.link.value));
      GrowHistory(s, t, Position(s.agent.link.value));
    }
  }

  lemma GrowHistory(s: State, t: State, n: nat)
    requires s.committed <= t.committed && n <= |s.committed|
    requires (t.received, t.accepted, t.overtaken) == (s.received, s.accepted, s.overtaken)
    ensures GotUpTo(s, n) ==> GotUpTo(t, n)
    ensures TookUpTo(s, n) ==> TookUpTo(t, n)
  {
  }

  lemma AppendSender(c: seq<Record>, r: Record, l: Link)
    requires SenderInv(c, |c|, l)
    ensures SenderInv(c + [r], |c|, l)
  {
    var upTo := l.hello + |l.sent|;
    assert (c + [r])[l.hello..upTo] == c[l.hello..upTo];
    if l.todo != [] {
      var from := l.todo[0].number - 1;
      assert (c + [r])[from..from + |l.todo|] == c[from..from + |l.todo|];
    }
  }

  lemma AppendLink(c: seq<Record>, r: Record, acked: nat, popped: nat, l: Link)
    requires LinkInv(c, acked, popped, |c|, l)
    ensures LinkInv(c + [r], acked, popped, |c|, l)
  {
    hide SenderInv, GatewayInv, Position;
    AppendSender(c, r, l);
  }

  lemma AppendAgent(a: Agent, c: seq<Record>, acked: nat, r: Record)
    requires AgentInv(a, c, acked) && a.Running? && a.pushing.None?
    ensures AgentInv(a.(pushing := Some(r)), c + [r], acked)
  {
    hide LinkInv;
    var popped := Popped(a, acked);
    assert (c + [r])[popped..|c|] == c[popped..|c|];
    if a.link.Some? {
      AppendLink(c, r, acked, popped, a.link.value);
    }
  }

  lemma AppendWriter(s: State)
    requires WriterInv(s.writer, s.agent, s.log, s.committed, s.acked) && Enabled(s, FinishAppend)
    ensures var t := DoFinishAppend(s); WriterInv(t.writer, t.agent, t.log, t.committed, t.acked)
  {
    hide CompactInv, Encode, Clean;
    if s.writer.compacting.Some? {
      CompactGrows(s.writer.compacting.value, s.committed, s.writer.appending.value.event, s.acked);
    }
  }

  lemma AppendFrame(s: State)
    requires s.agent.Running? && s.writer.appending.Some?
    ensures var t, r := DoFinishAppend(s), s.writer.appending.value.event;
            (t.agent, t.committed, t.acked) == (s.agent.(pushing := Some(r)), s.committed + [r], s.acked)
  {
  }

  lemma FinishAppendKeeps(s: State)
    requires Inv(s) && Enabled(s, FinishAppend) && SafeStep(s, FinishAppend)
    ensures Inv(DoFinishAppend(s))
  {
    hide DiskInv, HistoryInv, DoFinishAppend, Clean, GatewayInv, CompactInv;
    AppendDisk(s);
    AppendWriter(s);
    AppendAgent(s.agent, s.committed, s.acked, s.writer.appending.value.event);
    AppendFrame(s);
    if Linked(s) {
      GatewayPosition(s.agent.link.value);
    }
    DiskBounds(s);
    AppendHistory(s);
  }

  lemma PushKeeps(s: State)
    requires Inv(s) && s.agent.Running? && s.agent.pushing.Some?
    ensures Inv(DoPush(s))
  {
    hide DiskInv, HistoryInv, GotUpTo, TookUpTo, GatewayInv, CompactInv, Clean, LateInv;
    var c, t := s.committed, DoPush(s);
    LateStreams(s);
    if Linked(s) {
      LinkHistory(s);
    }
    SameHistory(s, t);
    assert c[Popped(s.agent, s.acked)..|c|] == c[Popped(s.agent, s.acked)..|c| - 1] + [c[|c| - 1]];
  }

  lemma ConnectKeeps(s: State)
    requires Inv(s) && s.agent.Running? && s.agent.link.None?
    ensures Inv(DoConnect(s))
  {
    hide DiskInv, CompactInv, Clean, LateInv;
    var t := DoConnect(s);
    assert s.committed[s.acked..s.acked] == [];
    assert t.agent.link.value.uplink == [Hello(s.acked)] + Detections([]);
  }

  /** Steps of the sender and the network that only change the link. */
  lemma LinkStepKeeps(s: State, l: Link)
    requires Inv(s) && Linked(s) && LinkInvOf(s, l)
    requires ReadUpTo(l) == ReadUpTo(s.agent.link.value) && Position(l) == Position(s.agent.link.value)
    ensures Inv(WithLink(s, l))
  {
    hide DiskInv, HistoryInv, AgentInv, LinkInv, GotUpTo, TookUpTo, ReadUpTo, Position, CompactInv, Clean, LateInv;
    var t := WithLink(s, l);
    LinkHistory(s);
    SameHistory(s, t);
    SameAgent(s.agent, s.committed, s.acked, l);
  }

  lemma SnapshotSender(c: seq<Record>, queued: int, l: Link, popped: nat)
    requires Numbered(c) && SenderInv(c, queued, l) && l.hello <= popped <= l.hello + |l.sent|
    ensures SenderInv(c, queued, l.(todo := c[popped..queued]))
  {
    var todo := c[popped..queued];
    assert todo != [] ==> todo[0] == c[popped];
  }

  lemma SnapshotKeeps(s: State)
    requires Inv(s) && Linked(s) && s.agent.link.value.todo == []
    ensures Inv(WithLink(s, s.agent.link.value.(todo := s.agent.outbox)))
  {
    hide DiskInv, HistoryInv, WriterInv, GatewayInv, SenderInv, Position;
    var l := s.agent.link.value;
    GatewayPosition(l);
    TodoIrrelevant(l, s.agent.outbox);
    DiskBounds(s);
    SnapshotSender(s.committed, Queued(s.agent, s.committed), l, Popped(s.agent, s.acked));
    LinkStepKeeps(s, l.(todo := s.agent.outbox));
  }

  lemma TodoIrrelevant(l: Link, todo: seq<Record>)
    requires GatewayInv(l)
    ensures GatewayInv(l.(todo := todo)) && Position(l.(todo := todo)) == Position(l)
  {
  }

  lemma TodoTail(c: seq<Record>, queued: int, hello: nat, upTo: nat, todo: seq<Record>)
    requires Numbered(c) && todo != [] && queued <= |c| && TodoInv(c, queued, hello, upTo, todo)
    ensures var n := todo[0].number;
            && hello < n <= upTo + 1 && upTo <= n - 1 + |todo| && n <= queued && todo[0] == c[n - 1]
            && (todo[1..] != [] ==> TodoInv(c, queued, hello, if n == upTo + 1 then upTo + 1 else upTo, todo[1..]))
  {
    var from := todo[0].number - 1;
    var rest := todo[1..];
    assert todo[0] == c[from];
    if rest != [] {
      assert rest[0] == c[from + 1];
      assert rest == c[from + 1..from + 1 + |rest|];
    }
  }

  lemma SendSender(c: seq<Record>, queued: int, l: Link)
    requires Numbered(c) && l.todo != [] && SenderInv(c, queued, l)
    ensures SenderInv(c, queued, SendNext(l))
  {
    hide TodoInv;
    var upTo := l.hello + |l.sent|;
    TodoTail(c, queued, l.hello, upTo, l.todo);
    if l.todo[0].number > l.lastSent {
      assert l.sent == c[l.hello..upTo] && l.todo[0] == c[upTo];
      assert l.sent + [l.todo[0]] == c[l.hello..upTo + 1];
    }
  }

  lemma DetectionsOneMore(rs: seq<Record>, r: Record)
    ensures Detections(rs + [r]) == Detections(rs) + [Detection(r)]
  {
  }

  lemma SendGateway(l: Link)
    requires l.todo != [] && GatewayInv(l)
    ensures GatewayInv(SendNext(l))
  {
    hide Ingest.Deliver, Ingest.Contiguous, Detections;
    var r := l.todo[0];
    if l.session.Some? {
      var k := |l.deliveries|;
      assert (l.sent + [r])[k..] == l.sent[k..] + [r];
      DetectionsOneMore(l.sent[k..], r);
    } else {
      DetectionsOneMore(l.sent, r);
    }
  }

  lemma SendKeeps(s: State)
    requires Inv(s) && Linked(s) && s.agent.link.value.todo != []
    ensures Inv(WithLink(s, SendNext(s.agent.link.value)))
  {
    hide HistoryInv, WriterInv, SenderInv, GatewayInv;
    var l := s.agent.link.value;
    SendSender(s.committed, Queued(s.agent, s.committed), l);
    SendGateway(l);
    LinkStepKeeps(s, SendNext(l));
  }

  lemma ReadHelloGateway(l: Link)
    requires GatewayInv(l) && HelloNext(l)
    ensures GatewayInv(Greet(l)) && Position(Greet(l)) == Position(l)
  {
    assert l.uplink[1..] == Detections(l.sent);
    assert l.sent[0..] == l.sent;
  }

  lemma ReadHelloKeeps(s: State)
    requires Inv(s) && Enabled(s, ReadHello)
    ensures Inv(WithLink(s, Greet(s.agent.link.value)))
  {
    hide DiskInv, HistoryInv, WriterInv, GatewayInv, Position, Ingest.Greeted;
    var l := s.agent.link.value;
    ReadHelloGateway(l);
    assert SenderInv(s.committed, Queued(s.agent, s.committed), Greet(l));
    LinkStepKeeps(s, Greet(l));
  }

  /** What is in flight begins with the first event not yet read. */
  lemma NextInFlight(l: Link)
    requires GatewayInv(l) && DetectionNext(l)
    ensures |l.deliveries| < |l.sent| && l.uplink[0].event == l.sent[|l.deliveries|]
    ensures l.uplink[1..] == Detections(l.sent[|l.deliveries| + 1..])
  {
    hide Ingest.Deliver, Ingest.Contiguous;
    var k := |l.deliveries|;
    assert l.uplink[0] == Detection(l.sent[k..][0]);
    assert l.sent[k..][1..] == l.sent[k + 1..];
  }

  lemma SessionMoves(s: Ingest.Session, d: Ingest.Delivery)
    ensures s.lastSeq <= Ingest.OnDetection(s, d).lastSeq
    ensures Ingest.Ack(s, d).Some? ==> Ingest.Ack(s, d).value == Ingest.OnDetection(s, d).lastSeq
  {
  }

  /** The gateway reads the next committed event, and its session moves on as that of a
      contiguous stream. */
  lemma ReadGateway(l: Link, v: Ingest.Verdict)
    requires GatewayInv(l) && DetectionNext(l)
    requires forall i :: 0 <= i < |l.sent| ==> l.sent[i].number == l.hello + 1 + i
    ensures |l.deliveries| < |l.sent| && l.uplink[0].event == l.sent[|l.deliveries|]
    ensures GatewayInv(ReadOne(l, v))
    ensures Position(l) <= Position(ReadOne(l, v))
  {
    hide Ingest.Deliver, Ingest.OnDetection, Ingest.Ack, Detections;
    var d := Ingest.Delivery(l.uplink[0].event.number, v);
    NextInFlight(l);
    SessionMoves(l.session.value, d);
    Ingest.DeliverOneMore(Ingest.Greeted(l.hello, true), l.deliveries, d);
  }

  lemma SentNumbers(c: seq<Record>, queued: int, l: Link)
    requires Numbered(c) && SenderInv(c, queued, l)
    ensures forall i :: 0 <= i < |l.sent| ==> l.sent[i] == c[l.hello + i] && l.sent[i].number == l.hello + 1 + i
    ensures l.hello + |l.sent| <= |c|
  {
  }

  lemma ReadSender(c: seq<Record>, queued: int, l: Link, v: Ingest.Verdict)
    requires SenderInv(c, queued, l) && DetectionNext(l)
    ensures SenderInv(c, queued, ReadOne(l, v))
  {
  }

  lemma ReadHistory(s: State, l: Link, v: Ingest.Verdict)
    requires Numbered(s.committed) && HistoryInv(s) && Linked(s) && l == s.agent.link.value
    requires DetectionNext(l)
    requires Position(l) <= ReadUpTo(l) < |s.committed| && l.uplink[0].event == s.committed[ReadUpTo(l)]
    ensures HistoryInv(ReadNext(s, l, v))
  {
    hide LateInv, Between;
    var t := ReadNext(s, l, v);
    var l' := t.agent.link.value;
    assert l' == ReadOne(l, v);
    var r := l.uplink[0].event;
    BetweenHolds(s.committed, Position(l), r.number);
    assert ReadUpTo(l') == ReadUpTo(l) + 1;
    assert Position(l') == Position(l) || Position(l') == ReadUpTo(l) + 1;
    forall i | 0 <= i < |t.committed| && i < Position(l')
      ensures t.committed[i] in t.accepted + t.overtaken
    {
      if Position(l) <= i && i < ReadUpTo(l) {
        assert t.committed[i] in Between(s.committed, Position(l), r.number);
      }
    }
  }

  lemma BetweenHolds(c: seq<Record>, low: nat, high: nat)
    requires Numbered(c)
    ensures forall i | 0 <= i < |c| && low <= i < high - 1 :: c[i] in Between(c, low, high)
    ensures OnlyCommitted(c, Between(c, low, high))
  {
  }

  lemma ReadLink(c: seq<Record>, acked: nat, popped: nat, queued: int, l: Link, v: Ingest.Verdict)
    requires Numbered(c) && LinkInv(c, acked, popped, queued, l) && DetectionNext(l)
    ensures LinkInv(c, acked, popped, queued, ReadOne(l, v))
    ensures Position(l) <= ReadUpTo(l) < |c| && l.uplink[0].event == c[ReadUpTo(l)]
  {
    hide SenderInv, GatewayInv, Position;
    SentNumbers(c, queued, l);
    ReadGateway(l, v);
    ReadSender(c, queued, l, v);
    GatewayPosition(l);
  }

  lemma SameWriter(w: Writer, a: Agent, log: Bytes, c: seq<Record>, acked: nat, l: Option<Link>)
    requires WriterInv(w, a, log, c, acked) && a.Running?
    ensures WriterInv(w, a.(link := l), log, c, acked)
  {
    hide CompactInv, Clean;
  }

  lemma ReadDetectionKeeps(s: State, v: Ingest.Verdict)
    requires Inv(s) && Enabled(s, ReadDetection(v))
    ensures Inv(ReadNext(s, s.agent.link.value, v))
  {
    hide DiskInv, WriterInv, HistoryInv, LinkInv, ReadNext, ReadOne, Position, ReadUpTo;
    var l := s.agent.link.value;
    DiskBounds(s);
    ReadLink(s.committed, s.acked, Popped(s.agent, s.acked), Queued(s.agent, s.committed), l, v);
    ReadFrame(s, l, v);
    ReadHistory(s, l, v);
    SameAgent(s.agent, s.committed, s.acked, ReadOne(l, v));
    SameWriter(s.writer, s.agent, s.log, s.committed, s.acked, Some(ReadOne(l, v)));
  }

  lemma ReadFrame(s: State, l: Link, v: Ingest.Verdict)
    requires s.agent.Running? && DetectionNext(l)
    ensures var t := ReadNext(s, l, v);
            && (t.log, t.acked, t.committed, t.writer) == (s.log, s.acked, s.committed, s.writer)
            && t.agent == s.agent.(link := Some(ReadOne(l, v)))
    ensures ReadOne(l, v).hello == l.hello && ReadUpTo(l) == l.hello + |l.deliveries|
  {
  }

  lemma AckGateway(l: Link)
    requires GatewayInv(l) && l.downlink != []
    ensures l.downlink[0] <= Position(l)
    ensures GatewayInv(l.(downlink := l.downlink[1..]))
  {
    hide Ingest.Deliver, Ingest.Contiguous;
  }

  lemma DownlinkIrrelevant(c: seq<Record>, queued: int, l: Link)
    requires SenderInv(c, queued, l) && l.downlink != []
    ensures var l' := l.(downlink := l.downlink[1..]);
            && SenderInv(c, queued, l') && Position(l') == Position(l)
            && l.hello + |l.sent| <= queued
  {
  }

  lemma AckLink(c: seq<Record>, acked: nat, queued: int, l: Link)
    requires LinkInv(c, acked, acked, queued, l) && l.downlink != []
    ensures l.downlink[0] <= queued
    ensures LinkInv(c, acked, Max(acked, l.downlink[0]), queued, l.(downlink := l.downlink[1..]))
  {
    hide SenderInv, GatewayInv, Position;
    GatewayPosition(l);
    AckGateway(l);
    DownlinkIrrelevant(c, queued, l);
  }

  lemma AckAgent(a: Agent, c: seq<Record>, acked: nat)
    requires AgentInv(a, c, acked) && Numbered(c) && a.Running? && a.acking.None? && a.link.Some?
    requires a.link.value.downlink != []
    ensures var l := a.link.value;
            AgentInv(a.(outbox := Outbox.PopAcked(a.outbox, l.downlink[0]), acking := Some(l.downlink[0]),
                        link := Some(l.(downlink := l.downlink[1..]))), c, acked)
  {
    hide LinkInv;
    var l := a.link.value;
    AckLink(c, acked, Queued(a, c), l);
    PopAckedSlice(c, acked, Queued(a, c), l.downlink[0]);
  }

  lemma ApplyAckToOutboxKeeps(s: State)
    requires Inv(s) && Enabled(s, ApplyAckToOutbox)
    ensures Inv(DoApplyAckToOutbox(s))
  {
    hide DiskInv, HistoryInv, AgentInv, GotUpTo, TookUpTo, OnlyCommitted, LateInv, CompactInv, Clean;
    var t := DoApplyAckToOutbox(s);
    DiskBounds(s);
    LinkHistory(s);
    AckAgent(s.agent, s.committed, s.acked);
    SameHistory(s, t);
  }

  lemma ApplyAckToLogDisk(s: State)
    requires DiskInv(s.log, s.committed, s.acked)
    requires s.agent.Running? && s.agent.acking.Some? && s.agent.acking.value <= |s.committed|
    ensures var t := DoApplyAckToLog(s); DiskInv(t.log, t.committed, t.acked)
  {
    hide Records;
    var later := Max(s.acked, s.agent.acking.value);
    UnackedAgain(Records(s.log), s.acked, later);
    UnackedSuffix(s.committed, s.acked, later);
  }

  lemma CompactAcked(m: Compaction, c: seq<Record>, acked: nat, later: nat)
    requires CompactInv(m, c, acked) && acked <= later
    ensures CompactInv(m, c, later)
  {
    hide Records, AllValid;
    UnackedAgain(m.kept + Records(m.rest), acked, later);
    UnackedAgain(c[..m.seen], acked, later);
  }

  lemma ApplyAckToLogWriter(s: State)
    requires WriterInv(s.writer, s.agent, s.log, s.committed, s.acked) && s.agent.Running? && s.agent.acking.Some?
    ensures var t := DoApplyAckToLog(s); WriterInv(t.writer, t.agent, t.log, t.committed, t.acked)
  {
    hide CompactInv, Clean;
    if s.writer.compacting.Some? {
      CompactAcked(s.writer.compacting.value, s.committed, s.acked, Max(s.acked, s.agent.acking.value));
    }
  }

  lemma ApplyAckToLogKeeps(s: State)
    requires Inv(s) && s.agent.Running? && s.agent.acking.Some?
    ensures Inv(DoApplyAckToLog(s))
  {
    hide DiskInv, WriterInv, GatewayInv, SenderInv, LateInv;
    GatewayPosition(s.agent.link.value);
    ApplyAckToLogDisk(s);
    ApplyAckToLogWriter(s);
  }

  // ----- Compaction -----

  /** Steps that change nothing but the log and the operations on it. */
  lemma WriterStepKeeps(s: State, log: Bytes, w: Writer)
    requires Inv(s) && DiskInv(log, s.committed, s.acked) && WriterInv(w, s.agent, log, s.committed, s.acked)
    ensures Inv(s.(log := log, writer := w))
  {
    hide DiskInv, WriterInv, AgentInv, HistoryInv, GotUpTo, TookUpTo, LateInv;
    LateStreams(s);
    if Linked(s) {
      LinkHistory(s);
    }
    SameHistory(s, s.(log := log, writer := w));
  }

  /** Reading the log, with or without part of an append in progress, sees its records. */
  lemma ReadLogSees(s: State, partial: nat)
    requires AppendInv(s.writer.appending, s.agent, s.log) && partial <= Partial(s.writer)
    ensures Records(DoReadLog(s, partial).writer.compacting.value.rest) == Records(s.log)
  {
    hide Records, Clean, Encode;
    if partial == 0 {
      assert s.log + [] == s.log;
    } else {
      TornAppend(s.log, s.writer.appending.value.event, partial);
    }
  }

  lemma ReadLogKeeps(s: State, partial: nat)
    requires Inv(s) && Enabled(s, ReadLog(partial))
    ensures Inv(DoReadLog(s, partial))
  {
    hide AgentInv, HistoryInv, Records, Clean, Encode, Unacked;
    var t := DoReadLog(s, partial);
    ReadLogSees(s, partial);
    UnackedSuffix(s.committed, 0, s.acked);
    var m, c := t.writer.compacting.value, s.committed;
    assert m.kept + Records(m.rest) == Records(m.rest);
    assert c[..m.seen] == c[0..];
    assert CompactInv(m, c, s.acked);
    WriterStepKeeps(s, s.log, t.writer);
  }

  lemma FilterOne(m: Compaction, c: seq<Record>, acked: nat, r: Record)
    requires CompactInv(m, c, acked) && Decode(m.rest) == Some(r)
    ensures var one := if r.number > acked then [r] else [];
            CompactInv(m.(rest := m.rest[r.Size()..], kept := m.kept + one), c, acked)
  {
    hide Decode, Unacked, AllValid;
    var one := if r.number > acked then [r] else [];
    var rest := m.rest[r.Size()..];
    assert Records(m.rest) == [r] + Records(rest);
    FilterKeepsUnacked(m.kept, r, Records(rest), acked);
    KeptIsValid(m.rest, r, m.kept);
  }

  lemma FilterKeepsUnacked(kept: seq<Record>, r: Record, rest: seq<Record>, acked: nat)
    ensures Unacked(kept + (if r.number > acked then [r] else []) + rest, acked) == Unacked(kept + ([r] + rest), acked)
  {
    var one := if r.number > acked then [r] else [];
    assert kept + ([r] + rest) == kept + [r] + rest;
    UnackedConcat(kept + [r], rest, acked);
    UnackedConcat(kept, [r], acked);
    UnackedConcat(kept + one, rest, acked);
    UnackedConcat(kept, one, acked);
    assert Unacked([r], acked) == Unacked(one, acked);
  }

  lemma KeptIsValid(bytes: Bytes, r: Record, kept: seq<Record>)
    requires Decode(bytes) == Some(r) && AllValid(kept)
    ensures AllValid(kept + [r]) && AllValid(kept + [])
  {
    hide Decode;
    EncodeOfDecode(bytes);
  }

  lemma FilterNextKeeps(s: State)
    requires s.writer.compacting.Some? && Decode(s.writer.compacting.value.rest).Some? && Inv(s)
    ensures Inv(DoFilterNext(s))
  {
    hide DiskInv, AgentInv, HistoryInv, CompactInv, Decode, Clean;
    var m := s.writer.compacting.value;
    FilterOne(m, s.committed, s.acked, Decode(m.rest).value);
    WriterStepKeeps(s, s.log, DoFilterNext(s).writer);
  }

  lemma KeptIsReplayed(m: Compaction, c: seq<Record>, acked: nat)
    requires CompactInv(m, c, acked) && Decode(m.rest) == None
    ensures Replay(EncodeAll(m.kept), acked) == Unacked(c[..m.seen], acked)
    ensures Clean(EncodeAll(m.kept))
  {
    hide Decode, Clean;
    assert m.kept + Records(m.rest) == m.kept;
    hide Records;
    RecordsOfEncodeAll(m.kept);
  }

  lemma UnackedPrefix(c: seq<Record>, seen: nat, acked: nat)
    requires Numbered(c) && seen <= |c| && acked <= |c|
    ensures Unacked(c[..seen], acked) == (if acked <= seen then c[acked..seen] else [])
  {
    var prefix := c[..seen];
    assert prefix[0..] == prefix;
    if acked <= seen {
      UnackedSuffix(prefix, 0, acked);
      assert prefix[acked..] == c[acked..seen];
    } else {
      UnackedSuffix(prefix, 0, seen);
      UnackedAgain(prefix, seen, acked);
    }
  }

  lemma PrefixIsAllIff(c: seq<Record>, seen: nat, acked: nat)
    requires seen <= |c| && acked <= |c|
    ensures (if acked <= seen then c[acked..seen] else []) == c[acked..] <==> |c| == seen || |c| <= acked
  {
    assert |c| == seen ==> c[acked..seen] == c[acked..];
  }

  /** Replacing the log keeps what replay returns exactly when every event appended since
      the compaction read it has been acknowledged. */
  lemma ReplaceKeepsReplayIff(s: State)
    requires Inv(s) && Enabled(s, Replace)
    ensures Replay(DoReplace(s).log, s.acked) == Replay(s.log, s.acked) <==> SafeStep(s, Replace)
  {
    hide AgentInv, HistoryInv, AppendInv, Replay, CompactInv, Decode;
    var m := s.writer.compacting.value;
    KeptIsReplayed(m, s.committed, s.acked);
    SeenBound(m, s.committed, s.acked);
    UnackedPrefix(s.committed, m.seen, s.acked);
    PrefixIsAllIff(s.committed, m.seen, s.acked);
  }

  lemma SeenBound(m: Compaction, c: seq<Record>, acked: nat)
    requires CompactInv(m, c, acked)
    ensures m.seen <= |c|
  {
  }

  lemma ReplaceKeeps(s: State)
    requires Inv(s) && Enabled(s, Replace) && SafeStep(s, Replace)
    ensures Inv(DoReplace(s))
  {
    hide AgentInv, HistoryInv, CompactInv, Decode, Clean, Replay;
    ReplaceKeepsReplayIff(s);
    KeptIsReplayed(s.writer.compacting.value, s.committed, s.acked);
    WriterStepKeeps(s, DoReplace(s).log, DoReplace(s).writer);
  }

  // ----- Abandoned streams -----

  lemma LeftIsStream(s: State)
    requires Inv(s)
    ensures LateInv(s.committed, s.abandoned + Left(s.agent))
  {
    hide DiskInv, WriterInv, GatewayInv, GotUpTo, TookUpTo, OnlyCommitted;
    if Linked(s) {
      assert StreamInv(s.committed, s.agent.link.value);
    }
  }

  lemma CutLink(c: seq<Record>, acked: nat, popped: nat, queued: int, l: Link)
    requires LinkInv(c, acked, popped, queued, l)
    ensures LinkInv(c, acked, popped, queued, l.(cut := true))
  {
    hide Ingest.Deliver, Ingest.Contiguous, Detections;
  }

  lemma CutKeeps(s: State, abandoned: seq<Link>)
    requires Inv(s) && Linked(s) && LateInv(s.committed, abandoned)
    ensures Inv(WithLink(s, s.agent.link.value.(cut := true)).(abandoned := abandoned))
  {
    hide DiskInv, WriterInv, HistoryInv, LinkInv, LateInv;
    var l := s.agent.link.value;
    CutLink(s.committed, s.acked, Popped(s.agent, s.acked), Queued(s.agent, s.committed), l);
    LinkStepKeeps(s, l.(cut := true));
    LateKeeps(WithLink(s, l.(cut := true)), abandoned);
  }

  lemma LateKeeps(s: State, abandoned: seq<Link>)
    requires Inv(s) && LateInv(s.committed, abandoned)
    ensures Inv(s.(abandoned := abandoned))
  {
    hide DiskInv, WriterInv, GotUpTo, TookUpTo, GatewayInv, SenderInv, OnlyCommitted, LateInv;
    var t := s.(abandoned := abandoned);
    if Linked(s) {
      LinkHistory(s);
    }
    SameHistory(s, t);
  }

  lemma StreamNumbers(c: seq<Record>, l: Link)
    requires Numbered(c) && StreamInv(c, l)
    ensures forall i :: 0 <= i < |l.sent| ==> l.sent[i] == c[l.hello + i] && l.sent[i].number == l.hello + 1 + i
  {
  }

  lemma ReadLateHelloKeeps(s: State, i: nat)
    requires Inv(s) && Enabled(s, ReadLateHello(i))
    ensures Inv(DoReadLateHello(s, i))
  {
    hide DiskInv, WriterInv, AgentInv, GatewayInv, GotUpTo, TookUpTo, OnlyCommitted;
    ReadHelloGateway(s.abandoned[i]);
    LateKeeps(s, DoReadLateHello(s, i).abandoned);
  }

  lemma ReadLateStreams(c: seq<Record>, ls: seq<Link>, i: nat, v: Ingest.Verdict)
    requires Numbered(c) && LateInv(c, ls) && i < |ls| && DetectionNext(ls[i])
    ensures LateInv(c, ls[i := ReadOne(ls[i], v)])
    ensures ls[i].uplink[0].event in c
  {
    hide GatewayInv;
    StreamNumbers(c, ls[i]);
    ReadGateway(ls[i], v);
  }

  lemma ReadLateKeeps(s: State, i: nat, v: Ingest.Verdict)
    requires Inv(s) && Enabled(s, ReadLate(i, v))
    ensures Inv(DoReadLate(s, i, v))
  {
    hide DiskInv, WriterInv, AgentInv, HistoryInv;
    DiskBounds(s);
    ReadLateHistory(s, i, v);
  }

  lemma ReadLateHistory(s: State, i: nat, v: Ingest.Verdict)
    requires Numbered(s.committed) && HistoryInv(s) && Enabled(s, ReadLate(i, v))
    ensures HistoryInv(DoReadLate(s, i, v))
  {
    hide LateInv, ReadOne, Position, ReadUpTo;
    ReadLateStreams(s.committed, s.abandoned, i, v);
  }

  /** Dropping the link, or the whole agent, keeps what is on disk and in history. */
  lemma DropKeeps(s: State, agent: Agent, w: Writer)
    requires Inv(s)
    requires (agent.Down? && w == IDLE)
             || (Linked(s) && s.agent.acking.None? && agent == s.agent.(link := None) && w == s.writer)
    ensures Inv(s.(agent := agent, writer := w))
  {
    hide DiskInv, CompactInv, Clean, GotUpTo, TookUpTo, GatewayInv, SenderInv, OnlyCommitted, LateInv;
    var t := s.(agent := agent, writer := w);
    SameHistory(s, t);
  }

  lemma TornCrashDisk(s: State, written: nat)
    requires DiskInv(s.log, s.committed, s.acked) && AppendInv(s.writer.appending, s.agent, s.log)
    requires Enabled(s, TornCrash(written))
    ensures var t := DoTornCrash(s, written); DiskInv(t.log, t.committed, t.acked)
  {
    hide Records, Clean, Encode, Left;
    if !s.writer.appending.value.orphaned {
      TornAppend(s.log, s.writer.appending.value.event, written);
    }
  }

  lemma CrashKeeps(s: State)
    requires Inv(s)
    ensures Inv(DoCrash(s))
  {
    hide Inv, Left;
    LeftIsStream(s);
    LateKeeps(s, s.abandoned + Left(s.agent));
    DropKeeps(s.(abandoned := s.abandoned + Left(s.agent)), Down, IDLE);
  }

  lemma TornCrashKeeps(s: State, written: nat)
    requires Inv(s) && Enabled(s, TornCrash(written))
    ensures Inv(DoTornCrash(s, written))
  {
    hide DiskInv, Left, Clean, Encode, HistoryInv;
    CrashKeeps(s);
    TornCrashDisk(s, written);
    WriterStepKeeps(DoCrash(s), DoTornCrash(s, written).log, IDLE);
  }

  lemma DisconnectKeeps(s: State)
    requires Inv(s) && Linked(s) && s.agent.acking.None?
    ensures Inv(DoDisconnect(s))
  {
    hide Inv, Left;
    LeftIsStream(s);
    LateKeeps(s, s.abandoned + Left(s.agent));
    DropKeeps(s.(abandoned := s.abandoned + Left(s.agent)), s.agent.(link := None), s.writer);
  }

  lemma GatewayRestartKeeps(s: State)
    requires Inv(s)
    ensures Inv(DoGatewayRestart(s))
  {
    hide Inv;
    if Linked(s) {
      CutKeeps(s, []);
    } else {
      LateKeeps(s, []);
    }
  }

  lemma StepKeeps(s: State, step: Step)
    requires Inv(s) && Enabled(s, step) && SafeStep(s, step)
    ensures Inv(Apply(s, step))
  {
    hide Inv, Clean, DoStart, DoOpenLog, DoFinishAppend, DoPush, DoConnect, SendNext, Greet, ReadNext,
      DoApplyAckToOutbox, DoApplyAckToLog, DoReadLog, DoFilterNext, DoReplace, DoDisconnect, DoReadLateHello,
      DoReadLate, DoGatewayRestart, DoCrash, DoTornCrash, Left, Decode;
    match step
    case Start => StartKeeps(s);
    case OpenLog(payload) => OpenLogKeeps(s, payload);
    case FinishAppend => FinishAppendKeeps(s);
    case Push => PushKeeps(s);
    case Connect => ConnectKeeps(s);
    case Snapshot => SnapshotKeeps(s);
    case Send => SendKeeps(s);
    case ReadHello => ReadHelloKeeps(s);
    case ReadDetection(v) => ReadDetectionKeeps(s, v);
    case ApplyAckToOutbox => ApplyAckToOutboxKeeps(s);
    case ApplyAckToLog => ApplyAckToLogKeeps(s);
    case ReadLog(partial) => ReadLogKeeps(s, partial);
    case FilterNext => FilterNextKeeps(s);
    case Replace => ReplaceKeeps(s);
    case CutStream =>
      LeftIsStream(s);
      CutKeeps(s, s.abandoned + Left(s.agent));
    case Disconnect => DisconnectKeeps(s);
    case ReadLateHello(i) => ReadLateHelloKeeps(s, i);
    case ReadLate(i, v) => ReadLateKeeps(s, i, v);
    case GatewayRestart => GatewayRestartKeeps(s);
    case Crash => CrashKeeps(s);
    case TornCrash(written) => TornCrashKeeps(s, written);
  }

  lemma {:induction false} RunKeeps(steps: seq<Step>)
    requires SafeRun(steps)
    ensures After(steps).Some? && Inv(After(steps).value)
    decreases |steps|
  {
    hide Apply, Enabled, Inv, SafeStep;
    if steps == [] {
      InitKeeps();
    } else {
      RunKeeps(steps[..|steps| - 1]);
      StepKeeps(After(steps[..|steps| - 1]).value, steps[|steps| - 1]);
    }
  }

  lemma InitKeeps()
    ensures Inv(INIT)
  {
    EmptyDoesNotDecode();
  }
}
