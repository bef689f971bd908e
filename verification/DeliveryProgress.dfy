/** Recovery: from every state the agent can get into while one thread at a time uses the log,
    a restart and one connection on which the gateway accepts everything acknowledge every
    committed event. */
module DeliveryProgress {
  import opened Options
  import opened WalRecordCodec
  import opened WalLog
  import opened Delivery
  import opened DeliverySafety
  import opened DeliveryRuns
  import Outbox
  import Ingest

  /** How far the sender will get with what it has in hand. */
  function Reach(l: Link): int {
    if l.todo == [] then l.hello + |l.sent| else l.todo[0].number - 1 + |l.todo|
  }

  /** A connection that will carry everything: the sender has all committed events in hand or
      sent, the gateway has accepted all it has read, and its last acknowledgement is applied
      or on the way. */
  ghost predicate OnCourse(s: State) {
    && Linked(s) && s.agent.pushing.None? && s.agent.acking.None? && !s.agent.link.value.cut
    && var l := s.agent.link.value;
       && Reach(l) == |s.committed|
       && Position(l) == l.hello + |l.deliveries|
       && (if l.downlink == [] then s.acked == Position(l) else l.downlink[|l.downlink| - 1] == Position(l))
  }

  /** What is left to send, read and apply. */
  function Remaining(l: Link): nat {
    3 * |l.todo| + 2 * |l.uplink| + |l.downlink|
  }

  /** Committed events stay, and nothing more is overtaken. */
  ghost predicate Settled(s: State, t: State) {
    t.committed == s.committed && t.overtaken == s.overtaken
  }

  // ----- Each step stays on course -----

  lemma SendStays(s: State)
    requires Inv(s) && OnCourse(s) && s.agent.link.value.todo != []
    ensures var t := Apply(s, Send);
            && Inv(t) && OnCourse(t) && Settled(s, t)
            && Remaining(t.agent.link.value) < Remaining(s.agent.link.value)
  {
    hide DiskInv, WriterInv, HistoryInv, GatewayInv, Inv;
    var l := s.agent.link.value;
    StepKeeps(s, Send);
    SendReach(s, l);
  }

  lemma SendReach(s: State, l: Link)
    requires Inv(s) && Linked(s) && l == s.agent.link.value && l.todo != [] && s.agent.pushing.None?
    requires Reach(l) == |s.committed|
    ensures Reach(SendNext(l)) == |s.committed| && Position(SendNext(l)) == Position(l)
  {
    hide WriterInv, HistoryInv, GatewayInv, TodoInv;
    DiskBounds(s);
    var upTo := l.hello + |l.sent|;
    TodoTail(s.committed, |s.committed|, l.hello, upTo, l.todo);
    if l.todo[1..] != [] {
      NextInTodo(s.committed, |s.committed|, l.hello, upTo, l.todo);
    }
  }

  lemma NextInTodo(c: seq<Record>, queued: int, hello: nat, upTo: nat, todo: seq<Record>)
    requires Numbered(c) && |todo| > 1 && queued <= |c| && TodoInv(c, queued, hello, upTo, todo)
    ensures todo[1].number == todo[0].number + 1
  {
    var from := todo[0].number - 1;
    assert todo[0] == c[from] && todo[1] == c[from + 1];
  }

  lemma ReadHelloStays(s: State)
    requires Inv(s) && OnCourse(s) && HelloNext(s.agent.link.value)
    ensures var t := Apply(s, ReadHello);
            && Inv(t) && OnCourse(t) && Settled(s, t)
            && Remaining(t.agent.link.value) < Remaining(s.agent.link.value)
  {
    hide DiskInv, WriterInv, HistoryInv, Ingest.Greeted, Position;
    StepKeeps(s, ReadHello);
    ReadHelloGateway(s.agent.link.value);
  }

  lemma AcceptStays(s: State)
    requires Inv(s) && OnCourse(s) && DetectionNext(s.agent.link.value)
    ensures var t := Apply(s, ReadDetection(Ingest.Accepted));
            && Inv(t) && OnCourse(t) && Settled(s, t)
            && Remaining(t.agent.link.value) < Remaining(s.agent.link.value)
  {
    hide DiskInv, WriterInv, HistoryInv, AgentInv, Inv, Between, Ingest.Deliver;
    var l := s.agent.link.value;
    StepKeeps(s, ReadDetection(Ingest.Accepted));
    NextIsNext(s);
    OvertakesIffGap(s);
  }

  /** The next detection on the stream is the one after the gateway's position. */
  lemma NextIsNext(s: State)
    requires Inv(s) && OnCourse(s) && DetectionNext(s.agent.link.value)
    ensures s.agent.link.value.uplink[0].event.number == s.agent.link.value.session.value.lastSeq + 1
  {
    hide WriterInv, HistoryInv, GatewayInv;
    var l := s.agent.link.value;
    DiskBounds(s);
    SentNumbers(s.committed, Queued(s.agent, s.committed), l);
    NextInFlight(l);
  }

  lemma AckStays(s: State)
    requires Inv(s) && OnCourse(s) && s.agent.link.value.downlink != []
    ensures Enabled(s, ApplyAckToOutbox) && Enabled(Apply(s, ApplyAckToOutbox), ApplyAckToLog)
    ensures var t := Apply(Apply(s, ApplyAckToOutbox), ApplyAckToLog);
            && Inv(t) && OnCourse(t) && Settled(s, t)
            && Remaining(t.agent.link.value) < Remaining(s.agent.link.value)
  {
    hide Inv, Outbox.PopAcked, GatewayInv;
    var l := s.agent.link.value;
    var m := Apply(s, ApplyAckToOutbox);
    StepKeeps(s, ApplyAckToOutbox);
    StepKeeps(m, ApplyAckToLog);
    AckPosition(s);
    assert |l.downlink| > 1 ==> l.downlink[1..][|l.downlink| - 2] == l.downlink[|l.downlink| - 1];
  }

  lemma AckPosition(s: State)
    requires Inv(s) && OnCourse(s) && s.agent.link.value.downlink != []
    ensures s.acked <= Position(s.agent.link.value)
    ensures s.agent.link.value.downlink[0] <= Position(s.agent.link.value)
  {
    hide DiskInv, WriterInv, HistoryInv, SenderInv, GatewayInv;
    AckGateway(s.agent.link.value);
  }

  /** With nothing left to do, everything is acknowledged. */
  lemma DoneIsAcknowledged(s: State)
    requires Inv(s) && OnCourse(s) && Remaining(s.agent.link.value) == 0
    ensures s.acked == |s.committed|
  {
    hide DiskInv, WriterInv, HistoryInv, SenderInv, Ingest.Deliver, Ingest.Contiguous;
    var l := s.agent.link.value;
    assert l.todo == [] && l.uplink == [] && l.downlink == [];
  }

  // ----- Runs -----

  /** One more orderly step. */
  lemma Extend(steps: seq<Step>, step: Step)
    requires OrderlyRun(steps) && After(steps).Some?
    requires Enabled(After(steps).value, step) && Orderly(After(steps).value, step)
    ensures OrderlyRun(steps + [step]) && After(steps + [step]) == Some(Apply(After(steps).value, step))
  {
    hide Enabled, Apply, Orderly;
    OneMoreStep(steps, step);
    var more := steps + [step];
    assert more[..|more| - 1] == steps && more[|more| - 1] == step;
  }

  /** From a connection on course, some continuation acknowledges everything. */
  lemma {:induction false} CourseFinishes(steps: seq<Step>) returns (more: seq<Step>)
    requires OrderlyRun(steps) && After(steps).Some?
    requires Inv(After(steps).value) && OnCourse(After(steps).value)
    ensures OrderlyRun(steps + more) && After(steps + more).Some?
    ensures var s, t := After(steps).value, After(steps + more).value;
            Settled(s, t) && t.acked == |t.committed|
    decreases Remaining(After(steps).value.agent.link.value)
  {
    hide Inv, After, Apply, OrderlyRun, Position, Greet;
    var s := After(steps).value;
    var l := s.agent.link.value;
    var first: seq<Step>;
    if l.todo != [] {
      first := [Send];
      SendStays(s);
      Extend(steps, Send);
    } else if l.uplink != [] && l.session.None? {
      first := [ReadHello];
      UplinkKind(s);
      ReadHelloStays(s);
      Extend(steps, ReadHello);
    } else if l.uplink != [] {
      first := [ReadDetection(Ingest.Accepted)];
      UplinkKind(s);
      AcceptStays(s);
      Extend(steps, ReadDetection(Ingest.Accepted));
    } else if l.downlink != [] {
      AckStays(s);
      Extend(steps, ApplyAckToOutbox);
      Extend(steps + [ApplyAckToOutbox], ApplyAckToLog);
      first := [ApplyAckToOutbox, ApplyAckToLog];
      assert steps + [ApplyAckToOutbox] + [ApplyAckToLog] == steps + first;
    } else {
      DoneIsAcknowledged(s);
      more := [];
      assert steps + more == steps;
      return;
    }
    var rest := CourseFinishes(steps + first);
    more := first + rest;
    assert steps + more == steps + first + rest;
  }

  lemma UplinkKind(s: State)
    requires Inv(s) && Linked(s) && s.agent.link.value.uplink != []
    ensures s.agent.link.value.session.None? ==> HelloNext(s.agent.link.value)
    ensures s.agent.link.value.session.Some? ==> DetectionNext(s.agent.link.value)
  {
    hide DiskInv, WriterInv, HistoryInv, SenderInv, Ingest.Deliver, Ingest.Contiguous;
  }

  /** A fresh connection after a restart is on course. */
  lemma RestartIsOnCourse(s: State)
    requires Inv(s) && s.agent.Down?
    ensures var s1 := Apply(s, Start);
            && Enabled(s1, Connect)
            && var s2 := Apply(s1, Connect);
               && Enabled(s2, Snapshot)
               && var s3 := Apply(s2, Snapshot);
                  Inv(s3) && OnCourse(s3) && Settled(s, s3)
  {
    hide Inv, Replay, Numbered;
    StepKeeps(s, Start);
    var s1 := Apply(s, Start);
    StepKeeps(s1, Connect);
    var s2 := Apply(s1, Connect);
    StepKeeps(s2, Snapshot);
    DownDisk(s);
    assert s.committed[s.acked..] != [] ==> s.committed[s.acked..][0] == s.committed[s.acked];
  }

  lemma DownDisk(s: State)
    requires Inv(s)
    ensures s.acked <= |s.committed| && Replay(s.log, s.acked) == s.committed[s.acked..]
    ensures s.acked < |s.committed| ==> s.committed[s.acked].number == s.acked + 1
  {
    hide WriterInv, AgentInv, HistoryInv, Replay;
  }

  /** From every state of an orderly run some continuation acknowledges every committed event,
      losing none: a crash if the agent is up, a restart, and one connection on which the
      gateway accepts everything. */
  lemma Recovery(steps: seq<Step>) returns (more: seq<Step>)
    requires OrderlyRun(steps)
    ensures After(steps).Some? && OrderlyRun(steps + more) && After(steps + more).Some?
    ensures var s, t := After(steps).value, After(steps + more).value;
            Settled(s, t) && t.acked == |t.committed|
            && forall r | r in s.committed :: r in t.accepted || r in s.overtaken
  {
    hide Inv, After, Apply, OrderlyRun, Replay;
    OrderlyRunIsSafe(steps);
    RunKeeps(steps);
    var down := steps;
    if After(steps).value.agent.Running? {
      StepKeeps(After(steps).value, Crash);
      Extend(steps, Crash);
      CrashSettles(After(steps).value);
      down := steps + [Crash];
    }
    RestartIsOnCourse(After(down).value);
    Extend(down, Start);
    Extend(down + [Start], Connect);
    Extend(down + [Start] + [Connect], Snapshot);
    var up := down + [Start] + [Connect] + [Snapshot];
    var rest := CourseFinishes(up);
    more := up[|steps|..] + rest;
    assert steps + more == up + rest;
    OrderlyRunIsSafe(steps + more);
    LostOnlyIfOvertaken(steps + more);
    NothingUnacknowledged(steps + more);
  }

  lemma CrashSettles(s: State)
    requires s.agent.Running?
    ensures Settled(s, Apply(s, Crash)) && Apply(s, Crash).agent.Down?
  {
  }

  lemma NothingUnacknowledged(steps: seq<Step>)
    requires SafeRun(steps) && After(steps).Some? && After(steps).value.acked == |After(steps).value.committed|
    ensures Replay(After(steps).value.log, After(steps).value.acked) == []
  {
    hide After, Replay;
    AtLeastOnce(steps);
  }
}
