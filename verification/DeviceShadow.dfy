/** The versioned device shadow: any number of gateways upsert concurrently through
    conditional puts.  Reads may be stale or fail, a put may be handled long after it was
    sent or never, and its answer may be lost. */
module DeviceShadow {
  import opened Options

  const MAX_ATTEMPTS: nat := 3

  datatype PutResult = Success | VersionConflict | Error

  /** A version of a device's item; `put` names the request that wrote it. */
  datatype Entry = Entry(json: string, version: nat, put: nat)

  datatype Status = InFlight | Applied | Rejected

  /** A conditional put: who sent it and the item its sender had read. */
  datatype Put = Put(upsert: nat, seen: Option<Entry>, status: Status)

  /** How an upsert ended. */
  datatype Outcome = Succeeded | Failed | GaveUp

  datatype Phase =
    | Reading
    | HasRead(seen: Option<Entry>)
    | Waiting(put: nat)
    | Done(put: nat, outcome: Outcome)

  datatype Upsert = Upsert(device: string, json: string, attempts: nat, phase: Phase)

  /** `log` holds every version each device's item ever had; the last one is the item. */
  datatype State = State(upserts: seq<Upsert>, puts: seq<Put>, log: map<string, seq<Entry>>)

  datatype Step =
    | Begin(device: string, json: string)
    | Read(upsert: nat, version: nat)
    | ReadNothing(upsert: nat)
    | Send(upsert: nat)
    | Handle(put: nat)
    | Answer(upsert: nat, result: PutResult)

  function Log(s: State, device: string): seq<Entry> {
    if device in s.log then s.log[device] else []
  }

  function Current(s: State, device: string): Option<Entry> {
    var log := Log(s, device);
    if log == [] then None else Some(log[|log| - 1])
  }

  /** The version a put expects: that of the item read, or 0 for "must not exist". */
  function Expected(seen: Option<Entry>): nat {
    if seen.None? then 0 else seen.value.version
  }

  /** The store's condition: no item for 0, otherwise exactly this version. */
  predicate ConditionHolds(s: State, device: string, expected: nat) {
    var current := Current(s, device);
    if expected == 0 then current.None? else current.Some? && current.value.version == expected
  }

  predicate Enabled(s: State, step: Step) {
    match step
    case Begin(_, _) => true
    case Read(u, version) =>
      u < |s.upserts| && s.upserts[u].phase.Reading? && 1 <= version <= |Log(s, s.upserts[u].device)|
    case ReadNothing(u) => u < |s.upserts| && s.upserts[u].phase.Reading?
    case Send(u) => u < |s.upserts| && s.upserts[u].phase.HasRead?
    case Handle(p) => p < |s.puts| && s.puts[p].status.InFlight? && s.puts[p].upsert < |s.upserts|
    case Answer(u, result) =>
      && u < |s.upserts| && s.upserts[u].phase.Waiting? && s.upserts[u].phase.put < |s.puts|
      && (result.Success? ==> s.puts[s.upserts[u].phase.put].status.Applied?)
      && (result.VersionConflict? ==> s.puts[s.upserts[u].phase.put].status.Rejected?)
  }

  function WithPhase(s: State, u: nat, phase: Phase): State
    requires u < |s.upserts|
  {
    s.(upserts := s.upserts[u := s.upserts[u].(phase := phase)])
  }

  function DoSend(s: State, u: nat): State
    requires u < |s.upserts| && s.upserts[u].phase.HasRead?
  {
    var upsert := s.upserts[u];
    s.(puts := s.puts + [Put(u, upsert.phase.seen, InFlight)],
       upserts := s.upserts[u := upsert.(attempts := upsert.attempts + 1, phase := Waiting(|s.puts|))])
  }

  /** The store evaluates the condition and, if it holds, writes the next version. */
  function DoHandle(s: State, p: nat): State
    requires p < |s.puts| && s.puts[p].upsert < |s.upserts|
  {
    var put := s.puts[p];
    var upsert := s.upserts[put.upsert];
    var expected := Expected(put.seen);
    if ConditionHolds(s, upsert.device, expected) then
      s.(puts := s.puts[p := put.(status := Applied)],
         log := s.log[upsert.device := Log(s, upsert.device) + [Entry(upsert.json, expected + 1, p)]])
    else
      s.(puts := s.puts[p := put.(status := Rejected)])
  }

  /** Success and errors end the upsert; a conflict retries while attempts remain. */
  function DoAnswer(s: State, u: nat, result: PutResult): State
    requires u < |s.upserts| && s.upserts[u].phase.Waiting?
  {
    var p := s.upserts[u].phase.put;
    match result
    case Success => WithPhase(s, u, Done(p, Succeeded))
    case Error => WithPhase(s, u, Done(p, Failed))
    case VersionConflict => WithPhase(s, u, if s.upserts[u].attempts < MAX_ATTEMPTS then Reading else Done(p, GaveUp))
  }

  function Apply(s: State, step: Step): State
    requires Enabled(s, step)
  {
    match step
    case Begin(device, json) => s.(upserts := s.upserts + [Upsert(device, json, 0, Reading)])
    case Read(u, version) => WithPhase(s, u, HasRead(Some(Log(s, s.upserts[u].device)[version - 1])))
    case ReadNothing(u) => WithPhase(s, u, HasRead(None))
    case Send(u) => DoSend(s, u)
    case Handle(p) => DoHandle(s, p)
    case Answer(u, result) => DoAnswer(s, u, result)
  }

  // ----- The invariant -----

  /** What was read is a version the device's item really had. */
  predicate SeenInLog(log: seq<Entry>, seen: Option<Entry>) {
    seen.Some? ==> 1 <= seen.value.version <= |log| && log[seen.value.version - 1] == seen.value
  }

  /** Entry i is version i + 1, written by a put whose sender had read exactly entry i - 1,
      or nothing for the first. */
  predicate EntryInv(s: State, device: string, i: nat)
    requires i < |Log(s, device)|
  {
    var log := Log(s, device);
    var p := log[i].put;
    && log[i].version == i + 1
    && p < |s.puts| && s.puts[p].status.Applied? && s.puts[p].upsert < |s.upserts|
    && s.upserts[s.puts[p].upsert].device == device
    && s.upserts[s.puts[p].upsert].json == log[i].json
    && s.puts[p].seen == (if i == 0 then None else Some(log[i - 1]))
  }

  /** Only an upsert's latest put can be other than rejected. */
  predicate PutInv(s: State, p: nat)
    requires p < |s.puts|
  {
    var put := s.puts[p];
    && put.upsert < |s.upserts|
    && SeenInLog(Log(s, s.upserts[put.upsert].device), put.seen)
    && (!put.status.Rejected? ==>
          var phase := s.upserts[put.upsert].phase;
          (phase.Waiting? || phase.Done?) && phase.put == p)
    && (put.status.Applied? ==>
          var log := Log(s, s.upserts[put.upsert].device);
          Expected(put.seen) < |log| && log[Expected(put.seen)].put == p)
  }

  function PutsOf(puts: seq<Put>, u: nat): nat {
    if puts == [] then 0 else
    PutsOf(puts[..|puts| - 1], u) + (if puts[|puts| - 1].upsert == u then 1 else 0)
  }

  predicate UpsertInv(s: State, u: nat)
    requires u < |s.upserts|
  {
    var upsert := s.upserts[u];
    && PutsOf(s.puts, u) == upsert.attempts <= MAX_ATTEMPTS
    && match upsert.phase
       case Reading => upsert.attempts < MAX_ATTEMPTS
       case HasRead(seen) => upsert.attempts < MAX_ATTEMPTS && SeenInLog(Log(s, upsert.device), seen)
       case Waiting(p) => p < |s.puts| && s.puts[p].upsert == u
       case Done(p, outcome) =>
         && p < |s.puts| && s.puts[p].upsert == u
         && (outcome.Succeeded? ==> s.puts[p].status.Applied?)
         && (outcome.GaveUp? ==> s.puts[p].status.Rejected? && upsert.attempts == MAX_ATTEMPTS)
  }

  ghost predicate Inv(s: State) {
    && (forall d, i | 0 <= i < |Log(s, d)| :: EntryInv(s, d, i))
    && (forall p | 0 <= p < |s.puts| :: PutInv(s, p))
    && (forall u | 0 <= u < |s.upserts| :: UpsertInv(s, u))
  }

  /** The version check compares as much as the whole item would: it holds exactly when the
      item is still the very one the sender read. */
  lemma ConditionIffUnchanged(s: State, p: nat)
    requires Inv(s) && p < |s.puts|
    ensures PutInv(s, p)
    ensures var device := s.upserts[s.puts[p].upsert].device;
            ConditionHolds(s, device, Expected(s.puts[p].seen)) <==> Current(s, device) == s.puts[p].seen
  {
    assert PutInv(s, p);
    var log := Log(s, s.upserts[s.puts[p].upsert].device);
    if log != [] {
      assert EntryInv(s, s.upserts[s.puts[p].upsert].device, |log| - 1);
    }
  }

  // ----- Every step keeps the invariant -----

  lemma {:induction false} NoPutsYet(puts: seq<Put>, u: nat)
    requires forall p | 0 <= p < |puts| :: puts[p].upsert != u
    ensures PutsOf(puts, u) == 0
  {
    if puts != [] {
      NoPutsYet(puts[..|puts| - 1], u);
    }
  }

  lemma {:induction false} StatusDoesNotCount(puts: seq<Put>, p: nat, put: Put, u: nat)
    requires p < |puts| && put.upsert == puts[p].upsert
    ensures PutsOf(puts[p := put], u) == PutsOf(puts, u)
  {
    var n := |puts| - 1;
    var changed := puts[p := put];
    if p == n {
      assert changed[..n] == puts[..n];
    } else {
      StatusDoesNotCount(puts[..n], p, put, u);
      assert changed[..n] == puts[..n][p := put];
    }
  }

  lemma PutsOneMore(puts: seq<Put>, put: Put, u: nat)
    ensures PutsOf(puts + [put], u) == PutsOf(puts, u) + (if put.upsert == u then 1 else 0)
  {
    assert (puts + [put])[..|puts|] == puts;
  }

  lemma BeginKeeps(s: State, device: string, json: string)
    requires Inv(s)
    ensures Inv(Apply(s, Begin(device, json)))
  {
    var t := Apply(s, Begin(device, json));
    forall d, i | 0 <= i < |Log(t, d)|
      ensures EntryInv(t, d, i)
    {
      assert EntryInv(s, d, i);
    }
    forall p | 0 <= p < |t.puts|
      ensures PutInv(t, p)
    {
      assert PutInv(s, p);
    }
    assert forall p | 0 <= p < |t.puts| :: PutInv(s, p) && s.puts[p].upsert < |s.upserts|;
    NoPutsYet(t.puts, |s.upserts|);
    forall u | 0 <= u < |t.upserts|
      ensures UpsertInv(t, u)
    {
      assert u < |s.upserts| ==> UpsertInv(s, u);
    }
  }

  /** A change of one upsert's phase keeps the invariant if it suits that upsert and its
      unrejected puts. */
  lemma PhaseKeeps(s: State, u: nat, phase: Phase)
    requires Inv(s) && u < |s.upserts|
    requires var t := WithPhase(s, u, phase); UpsertInv(t, u)
    requires forall p | 0 <= p < |s.puts| && s.puts[p].upsert == u ::
               s.puts[p].status.Rejected? || ((phase.Waiting? || phase.Done?) && phase.put == p)
    ensures Inv(WithPhase(s, u, phase))
  {
    var t := WithPhase(s, u, phase);
    forall d, i | 0 <= i < |Log(t, d)|
      ensures EntryInv(t, d, i)
    {
      assert EntryInv(s, d, i);
    }
    forall p | 0 <= p < |t.puts|
      ensures PutInv(t, p)
    {
      assert PutInv(s, p);
    }
    forall v | 0 <= v < |t.upserts|
      ensures UpsertInv(t, v)
    {
      assert v != u ==> UpsertInv(s, v);
    }
  }

  lemma ReadKeeps(s: State, u: nat, seen: Option<Entry>)
    requires Inv(s) && u < |s.upserts| && s.upserts[u].phase.Reading?
    requires SeenInLog(Log(s, s.upserts[u].device), seen)
    ensures Inv(WithPhase(s, u, HasRead(seen)))
  {
    assert UpsertInv(s, u);
    forall p | 0 <= p < |s.puts| && s.puts[p].upsert == u
      ensures s.puts[p].status.Rejected?
    {
      assert PutInv(s, p);
    }
    PhaseKeeps(s, u, HasRead(seen));
  }

  lemma AnswerKeeps(s: State, u: nat, result: PutResult)
    requires Inv(s) && Enabled(s, Answer(u, result))
    ensures Inv(Apply(s, Answer(u, result)))
  {
    assert UpsertInv(s, u);
    forall p | 0 <= p < |s.puts| && s.puts[p].upsert == u
      ensures s.puts[p].status.Rejected? || p == s.upserts[u].phase.put
    {
      assert PutInv(s, p);
    }
    PhaseKeeps(s, u, Apply(s, Answer(u, result)).upserts[u].phase);
  }

  lemma SendKeeps(s: State, u: nat)
    requires Inv(s) && Enabled(s, Send(u))
    ensures Inv(Apply(s, Send(u)))
  {
    var t := Apply(s, Send(u));
    assert UpsertInv(s, u);
    forall d, i | 0 <= i < |Log(t, d)|
      ensures EntryInv(t, d, i)
    {
      assert EntryInv(s, d, i);
    }
    forall p | 0 <= p < |t.puts|
      ensures PutInv(t, p)
    {
      assert p < |s.puts| ==> PutInv(s, p);
    }
    forall v | 0 <= v < |t.upserts|
      ensures UpsertInv(t, v)
    {
      assert UpsertInv(s, v);
      PutsOneMore(s.puts, t.puts[|s.puts|], v);
    }
  }

  lemma HandleKeepsUpserts(s: State, p: nat, u: nat)
    requires Inv(s) && Enabled(s, Handle(p)) && u < |s.upserts|
    ensures UpsertInv(Apply(s, Handle(p)), u)
  {
    assert UpsertInv(s, u) && PutInv(s, p);
    StatusDoesNotCount(s.puts, p, Apply(s, Handle(p)).puts[p], u);
  }

  /** An applied put adds the next version on top of exactly the item its sender read. */
  lemma HandleKeepsLog(s: State, p: nat)
    requires Inv(s) && Enabled(s, Handle(p))
    ensures forall d, i | 0 <= i < |Log(Apply(s, Handle(p)), d)| :: EntryInv(Apply(s, Handle(p)), d, i)
  {
    var t := Apply(s, Handle(p));
    ConditionIffUnchanged(s, p);
    forall d, i | 0 <= i < |Log(t, d)|
      ensures EntryInv(t, d, i)
    {
      if i < |Log(s, d)| {
        assert EntryInv(s, d, i);
      } else if i > 0 {
        assert EntryInv(s, d, i - 1);
      }
    }
  }

  lemma HandleKeeps(s: State, p: nat)
    requires Inv(s) && Enabled(s, Handle(p))
    ensures Inv(Apply(s, Handle(p)))
  {
    var t := Apply(s, Handle(p));
    HandleKeepsLog(s, p);
    forall u | 0 <= u < |t.upserts|
      ensures UpsertInv(t, u)
    {
      HandleKeepsUpserts(s, p, u);
    }
    ConditionIffUnchanged(s, p);
    var device := s.upserts[s.puts[p].upsert].device;
    if Log(s, device) != [] {
      assert EntryInv(s, device, |Log(s, device)| - 1);
    }
    forall q | 0 <= q < |t.puts|
      ensures PutInv(t, q)
    {
      assert PutInv(s, q);
    }
  }

  lemma StepKeeps(s: State, step: Step)
    requires Inv(s) && Enabled(s, step)
    ensures Inv(Apply(s, step))
  {
    match step
    case Begin(device, json) => BeginKeeps(s, device, json);
    case Read(u, version) =>
      assert EntryInv(s, s.upserts[u].device, version - 1);
      ReadKeeps(s, u, Some(Log(s, s.upserts[u].device)[version - 1]));
    case ReadNothing(u) => ReadKeeps(s, u, None);
    case Send(u) => SendKeeps(s, u);
    case Handle(p) => HandleKeeps(s, p);
    case Answer(u, result) => AnswerKeeps(s, u, result);
  }

  // ----- Whole runs -----

  ghost predicate Run(s: State, steps: seq<Step>, t: State)
    decreases |steps|
  {
    if steps == [] then s == t else
    Enabled(s, steps[0]) && Run(Apply(s, steps[0]), steps[1..], t)
  }

  ghost predicate Reachable(steps: seq<Step>, t: State) {
    Run(State([], [], map[]), steps, t)
  }

  lemma {:induction false} RunKeeps(s: State, steps: seq<Step>, t: State)
    requires Inv(s) && Run(s, steps, t)
    ensures Inv(t)
    decreases |steps|
  {
    hide Inv;
    if steps != [] {
      StepKeeps(s, steps[0]);
      RunKeeps(Apply(s, steps[0]), steps[1..], t);
    }
  }

  /** In every reachable state each device's versions count up by one, and each was written
      by a put whose sender had read exactly the version it replaced, or none for the first:
      no write is overwritten unseen. */
  lemma NoUnseenWriteOverwritten(steps: seq<Step>, t: State, device: string, i: nat)
    requires Reachable(steps, t) && i < |Log(t, device)|
    ensures Log(t, device)[i].version == i + 1
    ensures Log(t, device)[i].put < |t.puts|
    ensures t.puts[Log(t, device)[i].put].seen == (if i == 0 then None else Some(Log(t, device)[i - 1]))
  {
    RunKeeps(State([], [], map[]), steps, t);
    assert EntryInv(t, device, i);
  }

  /** From any reachable state, handling a put adds one version if the item is still the one
      its sender read, and otherwise changes no item. */
  lemma HandledIffUnchanged(steps: seq<Step>, t: State, p: nat)
    requires Reachable(steps, t) && Enabled(t, Handle(p))
    ensures var u := t.upserts[t.puts[p].upsert];
            var after := Apply(t, Handle(p));
            if Current(t, u.device) == t.puts[p].seen
            then after.log == t.log[u.device := Log(t, u.device) + [Entry(u.json, |Log(t, u.device)| + 1, p)]]
            else after.log == t.log
  {
    RunKeeps(State([], [], map[]), steps, t);
    ConditionIffUnchanged(t, p);
    var device := t.upserts[t.puts[p].upsert].device;
    if Log(t, device) != [] {
      assert EntryInv(t, device, |Log(t, device)| - 1);
    }
  }

  /** The versions an upsert wrote. */
  ghost predicate WroteAt(s: State, u: nat, device: string, i: nat) {
    i < |Log(s, device)| && var p := Log(s, device)[i].put; p < |s.puts| && s.puts[p].upsert == u
  }

  /** A version's place is fixed by the put that wrote it. */
  lemma EntryPlace(s: State, u: nat, device: string, i: nat)
    requires Inv(s) && u < |s.upserts| && WroteAt(s, u, device, i)
    ensures var phase := s.upserts[u].phase;
            && s.upserts[u].device == device
            && (phase.Waiting? || phase.Done?) && phase.put == Log(s, device)[i].put
            && s.puts[phase.put].status.Applied? && Expected(s.puts[phase.put].seen) == i
  {
    assert EntryInv(s, device, i);
    assert PutInv(s, Log(s, device)[i].put);
    if i > 0 {
      assert EntryInv(s, device, i - 1);
    }
  }

  /** An upsert sends at most three puts, and at most one version is its own. */
  lemma UpsertAppliedAtMostOnce(steps: seq<Step>, t: State, u: nat, d: string, i: nat, e: string, j: nat)
    requires Reachable(steps, t) && u < |t.upserts|
    ensures PutsOf(t.puts, u) <= 3
    ensures WroteAt(t, u, d, i) && WroteAt(t, u, e, j) ==> d == e && i == j
  {
    RunKeeps(State([], [], map[]), steps, t);
    assert UpsertInv(t, u);
    if WroteAt(t, u, d, i) && WroteAt(t, u, e, j) {
      EntryPlace(t, u, d, i);
      EntryPlace(t, u, e, j);
    }
  }

  /** An upsert that reported success was written; one that gave up sent three puts and was
      not. */
  lemma OutcomeIsTrue(steps: seq<Step>, t: State, u: nat)
    requires Reachable(steps, t) && u < |t.upserts| && t.upserts[u].phase.Done?
    ensures t.upserts[u].phase.outcome.Succeeded? ==> exists i :: WroteAt(t, u, t.upserts[u].device, i)
    ensures t.upserts[u].phase.outcome.GaveUp? ==>
              PutsOf(t.puts, u) == 3 && forall d, i :: !WroteAt(t, u, d, i)
  {
    RunKeeps(State([], [], map[]), steps, t);
    assert UpsertInv(t, u);
    var phase := t.upserts[u].phase;
    if phase.outcome.Succeeded? {
      assert PutInv(t, phase.put);
      assert WroteAt(t, u, t.upserts[u].device, Expected(t.puts[phase.put].seen));
    }
    if phase.outcome.GaveUp? {
      forall d, i
        ensures !WroteAt(t, u, d, i)
      {
        if WroteAt(t, u, d, i) {
          EntryPlace(t, u, d, i);
        }
      }
    }
  }

  // ----- The upsert loop -----

  /** What the loop sends, given what its reads return: the version each put expects. */
  datatype Attempt = Attempt(read: Option<Entry>, result: PutResult)

  /** The retry loop against any three read and put outcomes.  It stops at the first put that
      is not a conflict, and expects in each put the version just read. */
  method UpsertReportedWithRetry(attempts: seq<Attempt>) returns (expected: seq<nat>, gaveUp: bool)
    requires |attempts| == 3
    ensures 1 <= |expected| <= 3
    ensures forall i | 0 <= i < |expected| ::
              expected[i] == if attempts[i].read.Some? then attempts[i].read.value.version else 0
    ensures forall i | 0 <= i < |expected| - 1 :: attempts[i].result.VersionConflict?
    ensures |expected| < 3 ==> !attempts[|expected| - 1].result.VersionConflict?
    ensures gaveUp <==> forall i | 0 <= i < 3 :: attempts[i].result.VersionConflict?
  {
    expected := [];
    for attempt := 0 to MAX_ATTEMPTS
      invariant |expected| == attempt
      invariant forall i | 0 <= i < attempt :: expected[i] == Expected(attempts[i].read)
      invariant forall i | 0 <= i < attempt :: attempts[i].result.VersionConflict?
    {
      var current := attempts[attempt].read;
      var expectedVersion := if current.Some? then current.value.version else 0;
      expected := expected + [expectedVersion];
      var result := attempts[attempt].result;
      if result == Success {
        return expected, false;
      }
      if result == Error {
        return expected, false;
      }
    }
    gaveUp := true;
  }
}
