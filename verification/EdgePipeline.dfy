/** The two-thread edge pipeline on top of the concurrent ring: a capture loop that
    fills slots in place and an inference loop that consumes them, each split into the
    atomic steps of its loads and stores. */
module EdgePipeline {
  import opened SpscRing
  import KOfN

  datatype Frame = Frame(index: nat, pixels: seq<bv8>)

  /** A frame the source delivered, and whether it went into the ring. */
  datatype Read = Read(frame: Frame, kept: bool)

  /** Where the capture loop is. */
  datatype Capture = AtTop | Pushing | Filled | Counting | FoundFull | CountingDrop | Leaving | Gone

  /** Where the inference loop is.  The tails are those its SizeApprox calls loaded;
      `seen` is how many frames had been published at that moment. */
  datatype Inference =
    | Testing
    | SizingAfterDone
    | ComparingAfterDone(tail: nat)
    | InBody
    | SizingAfterStop
    | ComparingAfterStop(tail: nat, seen: nat)
    | Popping
    | Offering(frame: nat)
    | Written(frame: nat)
    | Processed
    | Exited
    | Broken(seen: nat)

  /** An event offered to the output ring: the frame that confirmed it, whether it went in, and
      how many events were waiting when it looked. */
  datatype Offer = Offer(frame: nat, queued: bool, waiting: nat)

  /** The output ring's slots are the caller's choice. */
  datatype Config = Config(realtime: bool, k: nat, n: nat, outSlots: nat)

  /** The inference loop is the producer of `out` and the agent its consumer.  The last group
      is history: every frame the source delivered, every frame handed to the detector, the
      detector's answers, and the events offered. */
  datatype State = State(
    ring: Ring<Frame>,
    capture: Capture,
    inference: Inference,
    stop: bool,
    captureDone: bool,
    captured: nat,
    dropped: nat,
    processed: nat,
    wasConfirmed: bool,
    out: Ring<nat>,
    read: seq<Read>,
    handled: seq<Frame>,
    answers: seq<bool>,
    offered: seq<Offer>)

  datatype Action =
    | TestStop
    | LoadIndices(step: Step<Frame>)
    | Deliver(frame: Frame)
    | EndOfSource
    | Publish
    | CountCaptured
    | Discard(frame: Frame)
    | EndWhileFull
    | Yield
    | CountDropped
    | SignalDone
    | TestDone
    | LoadTailAfterDone
    | CompareAfterDone
    | TestStopInBody
    | LoadTailAfterStop
    | CompareAfterStop
    | LoadForPop(step: Step<Frame>)
    | Process(positive: bool)
    | OfferLoad(out: Step<nat>)
    | OfferWrite
    | OfferPublish
    | Release
    | AgentPop(out: Step<nat>)
    | RequestStop

  function Initial(slots: seq<Frame>, outSlots: seq<nat>): State {
    State(Init(slots), AtTop, Testing, false, false, 0, 0, 0, false, Init(outSlots), [], [], [], [])
  }

  predicate Able(c: Config, s: State, action: Action) {
    match action
    case TestStop => s.capture.AtTop?
    case LoadIndices(step) =>
      && s.capture.Pushing? && Enabled(s.ring, step)
      && (step.LoadOwnTail? || step.LoadHead? || step.CheckFull? || step.WriteSlot?)
    case Deliver(_) => s.capture.Pushing? && s.ring.producer.Filling?
    case EndOfSource => s.capture.Pushing? && s.ring.producer.Filling?
    case Publish => s.capture.Filled? && s.ring.producer.Filling?
    case CountCaptured => s.capture.Counting?
    case Discard(_) => s.capture.FoundFull? && c.realtime
    case EndWhileFull => s.capture.FoundFull? && c.realtime
    case Yield => s.capture.FoundFull? && !c.realtime
    case CountDropped => s.capture.CountingDrop?
    case SignalDone => s.capture.Leaving?
    case TestDone => s.inference.Testing?
    case LoadTailAfterDone => s.inference.SizingAfterDone?
    case CompareAfterDone => s.inference.ComparingAfterDone?
    case TestStopInBody => s.inference.InBody?
    case LoadTailAfterStop => s.inference.SizingAfterStop?
    case CompareAfterStop => s.inference.ComparingAfterStop?
    case LoadForPop(step) =>
      && s.inference.Popping? && Enabled(s.ring, step)
      && (step.LoadOwnHead? || step.LoadTail? || step.CheckEmpty? || step.TakeItem?)
    case Process(_) => s.inference.Popping? && s.ring.consumer.Holding?
    case OfferLoad(step) =>
      s.inference.Offering? && Enabled(s.out, step) && (step.LoadOwnTail? || step.LoadHead? || step.CheckFull?)
    case OfferWrite => s.inference.Offering? && s.out.producer.Filling?
    case OfferPublish => s.inference.Written? && s.out.producer.Filling?
    case Release => s.inference.Processed? && s.ring.consumer.Holding?
    case AgentPop(step) =>
      && Enabled(s.out, step)
      && (step.LoadOwnHead? || step.LoadTail? || step.CheckEmpty? || step.TakeItem? || step.StoreHead?)
    case RequestStop => true
  }

  /** The push attempt moves on; a full check that turns it away ends the attempt.  The
      source may leave its mark on the slot before it reports the end. */
  function DoLoadIndices(s: State, step: Step<Frame>): State
    requires InRange(s.ring) && Enabled(s.ring, step)
  {
    var ring := SpscRing.Apply(s.ring, step);
    s.(ring := ring, capture := if step.CheckFull? && ring.producer.Resting? then FoundFull else Pushing)
  }

  /** The source writes the next frame straight into the slot. */
  function DoDeliver(s: State, frame: Frame): State
    requires InRange(s.ring) && s.ring.producer.Filling?
  {
    s.(ring := SpscRing.Apply(s.ring, WriteSlot(frame)), read := s.read + [Read(frame, true)], capture := Filled)
  }

  /** The detector answers, the confirmer moves on, and a rising edge has an event to offer. */
  function DoProcess(c: Config, s: State, positive: bool): State
    requires s.ring.consumer.Holding?
  {
    var answers := s.answers + [positive];
    var now := KOfN.Confirmed(answers, c.k, c.n);
    s.(handled := s.handled + [s.ring.consumer.item], answers := answers, processed := s.processed + 1,
       wasConfirmed := now, inference := if now && !s.wasConfirmed then Offering(|s.answers|) else Processed)
  }

  function NonNegative(x: int): nat {
    if x < 0 then 0 else x
  }

  /** The offer moves on; a full check that turns it away drops the event. */
  function DoOfferLoad(s: State, step: Step<nat>): State
    requires InRange(s.out) && s.inference.Offering? && Enabled(s.out, step)
  {
    var out := SpscRing.Apply(s.out, step);
    if step.CheckFull? && out.producer.Resting? then
      s.(out := out, inference := Processed, offered := s.offered + [Turned(s)])
    else
      s.(out := out)
  }

  function Turned(s: State): Offer
    requires s.inference.Offering? && s.out.producer.HasBoth?
  {
    Offer(s.inference.frame, false, NonNegative(|s.out.published| - s.out.producer.seen))
  }

  function DoOfferPublish(s: State): State
    requires InRange(s.out) && s.inference.Written? && s.out.producer.Filling?
  {
    s.(out := SpscRing.Apply(s.out, StoreTail), inference := Processed, offered := s.offered + [Taken(s)])
  }

  function Taken(s: State): Offer
    requires s.inference.Written?
  {
    Offer(s.inference.frame, true, NonNegative(|s.out.published| - |s.out.freed|))
  }

  function DoLoadForPop(s: State, step: Step<Frame>): State
    requires InRange(s.ring) && Enabled(s.ring, step)
  {
    var ring := SpscRing.Apply(s.ring, step);
    s.(ring := ring, inference := if step.CheckEmpty? && ring.consumer.Waiting? then Testing else Popping)
  }

  function Do(c: Config, s: State, action: Action): State
    requires InRange(s.ring) && InRange(s.out) && Able(c, s, action)
  {
    match action
    case TestStop => s.(capture := if s.stop then Leaving else Pushing)
    case LoadIndices(step) => DoLoadIndices(s, step)
    case Deliver(frame) => DoDeliver(s, frame)
    case EndOfSource => s.(ring := SpscRing.Apply(s.ring, Decline), capture := Leaving)
    case Publish => s.(ring := SpscRing.Apply(s.ring, StoreTail), capture := Counting)
    case CountCaptured => s.(captured := s.captured + 1, capture := AtTop)
    case Discard(frame) => s.(read := s.read + [Read(frame, false)], capture := CountingDrop)
    case EndWhileFull => s.(capture := Leaving)
    case Yield => s.(capture := AtTop)
    case CountDropped => s.(dropped := s.dropped + 1, capture := AtTop)
    case SignalDone => s.(captureDone := true, capture := Gone)
    case TestDone => s.(inference := if s.captureDone then SizingAfterDone else InBody)
    case LoadTailAfterDone => s.(inference := ComparingAfterDone(s.ring.tail))
    case CompareAfterDone => s.(inference := if s.inference.tail == s.ring.head then Exited else InBody)
    case TestStopInBody => s.(inference := if s.stop then SizingAfterStop else Popping)
    case LoadTailAfterStop => s.(inference := ComparingAfterStop(s.ring.tail, |s.ring.published|))
    case CompareAfterStop =>
      s.(inference := if s.inference.tail == s.ring.head then Broken(s.inference.seen) else Popping)
    case LoadForPop(step) => DoLoadForPop(s, step)
    case Process(positive) => DoProcess(c, s, positive)
    case OfferLoad(step) => DoOfferLoad(s, step)
    case OfferWrite =>
      s.(out := SpscRing.Apply(s.out, WriteSlot(s.inference.frame)), inference := Written(s.inference.frame))
    case OfferPublish => DoOfferPublish(s)
    case Release => s.(ring := SpscRing.Apply(s.ring, StoreHead), inference := Testing)
    case AgentPop(step) => s.(out := SpscRing.Apply(s.out, step))
    case RequestStop => s.(stop := true)
  }

  // ----- The invariant -----

  function Kept(read: seq<Read>): seq<Frame> {
    if read == [] then [] else
    Kept(read[..|read| - 1]) + (if read[|read| - 1].kept then [read[|read| - 1].frame] else [])
  }

  function Lost(read: seq<Read>): nat {
    if read == [] then 0 else Lost(read[..|read| - 1]) + (if read[|read| - 1].kept then 0 else 1)
  }

  /** The indices at which confirmation turned on. */
  function Edges(answers: seq<bool>, k: nat, n: nat): seq<nat> {
    if answers == [] then [] else
    var t := |answers| - 1;
    Edges(answers[..t], k, n) + (if KOfN.Edge(answers, t, k, n) then [t] else [])
  }

  /** The frames of the events offered. */
  function Named(offered: seq<Offer>): seq<nat> {
    if offered == [] then [] else Named(offered[..|offered| - 1]) + [offered[|offered| - 1].frame]
  }

  /** Those that went in. */
  function Queued(offered: seq<Offer>): seq<nat> {
    if offered == [] then [] else
    var last := offered[|offered| - 1];
    Queued(offered[..|offered| - 1]) + (if last.queued then [last.frame] else [])
  }

  /** The event being offered, if any. */
  function Pending(i: Inference): seq<nat> {
    if i.Offering? || i.Written? then [i.frame] else []
  }

  /** The frame in hand has been through the detector. */
  predicate Detected(i: Inference) {
    i.Processed? || i.Offering? || i.Written?
  }

  /** Output: the events that went in are those published, and an event went in exactly if it
      found room. */
  ghost predicate OutputInv(out: Ring<nat>, pending: seq<nat>, written: bool, offered: seq<Offer>, slots: nat) {
    && InRange(out) && SpscRing.Inv(out) && |out.slots| == slots
    && (written ==> |pending| == 1 && out.producer.Filling? && out.slots[out.producer.tail] == pending[0])
    && (pending == [] ==> out.producer.Resting?)
    && Queued(offered) == out.published
    && forall i | 0 <= i < |offered| :: offered[i].queued <==> offered[i].waiting < slots - 1
  }

  /** Capture: what was kept is what is published, plus the slot just filled; the counters
      trail by the update under way. */
  ghost predicate CaptureInv(c: Config, s: State)
    requires InRange(s.ring)
  {
    && (s.capture.Filled? ==> s.ring.producer.Filling?)
    && (!s.capture.Pushing? && !s.capture.Filled? ==> s.ring.producer.Resting?)
    && Kept(s.read) == s.ring.published + (if s.capture.Filled? then [s.ring.slots[s.ring.producer.tail]] else [])
    && |s.ring.published| == s.captured + (if s.capture.Counting? then 1 else 0)
    && Lost(s.read) == s.dropped + (if s.capture.CountingDrop? then 1 else 0)
    && (!c.realtime ==> Lost(s.read) == 0)
    && (s.captureDone <==> s.capture.Gone?)
  }

  /** Inference: what was handed to the detector is what is freed, plus the frame in hand;
      the events offered are the rising edges of its answers. */
  ghost predicate InferenceInv(c: Config, s: State) {
    && (Detected(s.inference) ==> s.ring.consumer.Holding?)
    && (!s.inference.Popping? && !Detected(s.inference) ==> s.ring.consumer.Waiting?)
    && s.handled == s.ring.freed + (if Detected(s.inference) then [s.ring.consumer.item] else [])
    && s.processed == |s.handled| == |s.answers|
    && s.wasConfirmed == KOfN.Confirmed(s.answers, c.k, c.n)
    && Named(s.offered) + Pending(s.inference) == Edges(s.answers, c.k, c.n)
  }

  /** How the inference loop may end: normally only when capture is done and the ring is
      empty; through the stop flag only with at most one later frame in the ring. */
  ghost predicate EndInv(s: State)
    requires InRange(s.ring)
  {
    match s.inference
    case SizingAfterDone => s.captureDone
    case ComparingAfterDone(tail) => s.captureDone && tail == s.ring.tail
    case Exited => s.captureDone && |s.ring.freed| == |s.ring.published|
    case SizingAfterStop => s.stop
    case ComparingAfterStop(tail, seen) =>
      && s.stop && AtMostOneMore(s, seen) && |s.ring.freed| <= seen && tail < |s.ring.slots|
      && Distance(s.ring.head, tail, |s.ring.slots|) == seen - |s.ring.freed|
    case Broken(seen) => s.stop && AtMostOneMore(s, seen) && |s.ring.freed| == seen
    case _ => true
  }

  ghost predicate AtMostOneMore(s: State, seen: nat) {
    || |s.ring.published| == seen
    || (|s.ring.published| == seen + 1
        && (s.capture.Counting? || s.capture.AtTop? || s.capture.Leaving? || s.capture.Gone?))
  }

  ghost predicate PipelineInv(c: Config, s: State) {
    && InRange(s.ring) && SpscRing.Inv(s.ring) && InRange(s.out)
    && 1 <= c.k <= c.n
    && CaptureInv(c, s)
    && InferenceInv(c, s)
    && OutputInv(s.out, Pending(s.inference), s.inference.Written?, s.offered, c.outSlots)
    && EndInv(s)
  }

  // ----- Every action keeps the invariant -----

  lemma ReadOneMore(read: seq<Read>, r: Read)
    ensures Kept(read + [r]) == Kept(read) + (if r.kept then [r.frame] else [])
    ensures Lost(read + [r]) == Lost(read) + (if r.kept then 0 else 1)
  {
    assert (read + [r])[..|read|] == read;
  }

  lemma RingStep(r: Ring<Frame>, step: Step<Frame>)
    requires SpscRing.Inv(r) && InRange(r) && Enabled(r, step)
    ensures SpscRing.Inv(SpscRing.Apply(r, step)) && InRange(SpscRing.Apply(r, step))
  {
    SpscRing.StepKeeps(r, step);
  }

  /** What a producer step leaves alone. */
  lemma ProducerFrame(r: Ring<Frame>, step: Step<Frame>)
    requires InRange(r) && Enabled(r, step)
    requires step.LoadOwnTail? || step.LoadHead? || step.CheckFull? || step.Decline? || step.WriteSlot?
    ensures var t := SpscRing.Apply(r, step);
            && (t.head, t.tail, t.consumer, t.published, t.freed) == (r.head, r.tail, r.consumer, r.published, r.freed)
            && |t.slots| == |r.slots|
  {
  }

  lemma CaptureStepKeeps(c: Config, s: State, action: Action)
    requires PipelineInv(c, s) && Able(c, s, action)
    requires action.TestStop? || action.CountCaptured? || action.EndWhileFull? || action.Yield? || action.CountDropped?
             || action.SignalDone?
    ensures PipelineInv(c, Do(c, s, action))
  {
    hide SpscRing.Inv, Kept, Lost, KOfN.Confirmed, Edges, Named, OutputInv;
  }

  lemma LoadIndicesKeeps(c: Config, s: State, step: Step<Frame>)
    requires PipelineInv(c, s) && Able(c, s, LoadIndices(step))
    ensures PipelineInv(c, Do(c, s, LoadIndices(step)))
  {
    hide SpscRing.Inv, SpscRing.Apply, Kept, Lost, KOfN.Confirmed, Edges, Named, OutputInv;
    RingStep(s.ring, step);
    ProducerFrame(s.ring, step);
    if step.CheckFull? {
      PushOutcome(s.ring, step);
    }
  }

  lemma PushOutcome(r: Ring<Frame>, step: Step<Frame>)
    requires InRange(r) && Enabled(r, step) && step.CheckFull?
    ensures SpscRing.Apply(r, step).producer.Resting? || SpscRing.Apply(r, step).producer.Filling?
  {
  }

  lemma DeliverKeeps(c: Config, s: State, frame: Frame)
    requires PipelineInv(c, s) && Able(c, s, Deliver(frame))
    ensures PipelineInv(c, Do(c, s, Deliver(frame)))
  {
    hide SpscRing.Inv, Kept, Lost, KOfN.Confirmed, Edges, Named, OutputInv;
    RingStep(s.ring, WriteSlot(frame));
    ReadOneMore(s.read, Read(frame, true));
  }

  lemma EndOfSourceKeeps(c: Config, s: State)
    requires PipelineInv(c, s) && Able(c, s, EndOfSource)
    ensures PipelineInv(c, Do(c, s, EndOfSource))
  {
    hide SpscRing.Inv, Kept, Lost, KOfN.Confirmed, Edges, Named, OutputInv;
    RingStep(s.ring, Decline);
  }

  lemma PublishKeeps(c: Config, s: State)
    requires PipelineInv(c, s) && Able(c, s, Publish)
    ensures PipelineInv(c, Do(c, s, Publish))
  {
    RingStep(s.ring, StoreTail);
    assert s.inference.ComparingAfterDone? || s.inference.Exited? ==> s.capture.Gone?;
    hide SpscRing.Inv, Kept, Lost, KOfN.Confirmed, Edges, Named, OutputInv;
  }

  lemma DiscardKeeps(c: Config, s: State, frame: Frame)
    requires PipelineInv(c, s) && Able(c, s, Discard(frame))
    ensures PipelineInv(c, Do(c, s, Discard(frame)))
  {
    hide SpscRing.Inv, Kept, Lost, KOfN.Confirmed, Edges, Named, OutputInv;
    ReadOneMore(s.read, Read(frame, false));
  }

  lemma InferenceStepKeeps(c: Config, s: State, action: Action)
    requires PipelineInv(c, s) && Able(c, s, action)
    requires action.TestDone? || action.LoadTailAfterDone? || action.CompareAfterDone? || action.TestStopInBody?
             || action.LoadTailAfterStop? || action.CompareAfterStop? || action.RequestStop?
    ensures PipelineInv(c, Do(c, s, action))
  {
    hide Kept, Lost, KOfN.Confirmed, Edges, Named, OutputInv, SlotsHold;
  }

  lemma LoadForPopKeeps(c: Config, s: State, step: Step<Frame>)
    requires PipelineInv(c, s) && Able(c, s, LoadForPop(step))
    ensures PipelineInv(c, Do(c, s, LoadForPop(step)))
  {
    hide SpscRing.Inv, Kept, Lost, KOfN.Confirmed, Edges, Named, OutputInv;
    RingStep(s.ring, step);
  }

  lemma EdgesOneMore(answers: seq<bool>, positive: bool, k: nat, n: nat)
    ensures var more := answers + [positive];
            Edges(more, k, n) == Edges(answers, k, n)
              + (if KOfN.Confirmed(more, k, n) && !KOfN.Confirmed(answers, k, n) then [|answers|] else [])
  {
    hide KOfN.Confirmed;
    var more := answers + [positive];
    assert more[..|answers|] == answers && more[..|answers| + 1] == more;
  }

  lemma ProcessKeeps(c: Config, s: State, positive: bool)
    requires PipelineInv(c, s) && Able(c, s, Process(positive))
    ensures PipelineInv(c, Do(c, s, Process(positive)))
  {
    hide SpscRing.Inv, Kept, Lost, KOfN.Confirmed, Edges, Named, OutputInv;
    EdgesOneMore(s.answers, positive, c.k, c.n);
    StartOffer(s.out, |s.answers|, s.offered, c.outSlots);
  }

  lemma StartOffer(out: Ring<nat>, frame: nat, offered: seq<Offer>, slots: nat)
    requires OutputInv(out, [], false, offered, slots)
    ensures OutputInv(out, [frame], false, offered, slots)
  {
    hide SpscRing.Inv;
  }

  lemma OfferedOneMore(offered: seq<Offer>, o: Offer)
    ensures Named(offered + [o]) == Named(offered) + [o.frame]
    ensures Queued(offered + [o]) == Queued(offered) + (if o.queued then [o.frame] else [])
  {
    assert (offered + [o])[..|offered|] == offered;
  }

  /** Turned away, the event found the ring full; otherwise the offer goes on. */
  lemma OfferLoadOutput(s: State, step: Step<nat>, slots: nat)
    requires s.inference.Offering? && OutputInv(s.out, [s.inference.frame], false, s.offered, slots)
    requires Enabled(s.out, step) && (step.LoadOwnTail? || step.LoadHead? || step.CheckFull?)
    ensures var t := DoOfferLoad(s, step);
            OutputInv(t.out, Pending(t.inference), t.inference.Written?, t.offered, slots)
  {
    SpscRing.StepKeeps(s.out, step);
    if step.CheckFull? {
      SpscRing.TurnedAwayOnlyIfFullOrEmpty(s.out);
      OfferedOneMore(s.offered, Turned(s));
      hide SlotsHold;
    } else {
      hide SlotsHold;
    }
  }

  /** Steps that change nothing but the output ring and the offer under way. */
  lemma OutputStepKeeps(c: Config, s: State, out: Ring<nat>, inference: Inference, offered: seq<Offer>)
    requires PipelineInv(c, s) && InRange(out)
    requires OutputInv(out, Pending(inference), inference.Written?, offered, c.outSlots)
    requires inference == s.inference || (Detected(inference) && Detected(s.inference))
    requires Named(offered) + Pending(inference) == Named(s.offered) + Pending(s.inference)
    ensures PipelineInv(c, s.(out := out, inference := inference, offered := offered))
  {
    hide SpscRing.Inv, Kept, Lost, KOfN.Confirmed, Edges, Named, OutputInv, InRange;
  }

  lemma OutputOf(c: Config, s: State)
    requires PipelineInv(c, s)
    ensures InRange(s.ring) && InRange(s.out) && SpscRing.Inv(s.out)
    ensures OutputInv(s.out, Pending(s.inference), s.inference.Written?, s.offered, c.outSlots)
  {
    hide CaptureInv, InferenceInv, EndInv, SpscRing.Inv;
  }

  lemma OfferLoadKeeps(c: Config, s: State, step: Step<nat>)
    requires PipelineInv(c, s) && Able(c, s, OfferLoad(step))
    ensures PipelineInv(c, Do(c, s, OfferLoad(step)))
  {
    hide PipelineInv, OutputInv, SpscRing.Inv, Named, DoOfferLoad;
    OutputOf(c, s);
    OfferLoadOutput(s, step, c.outSlots);
    OfferLoadNames(s, step);
    OfferLoadFrame(s, step);
    var t := DoOfferLoad(s, step);
    OutputStepKeeps(c, s, t.out, t.inference, t.offered);
  }

  lemma OfferLoadNames(s: State, step: Step<nat>)
    requires s.inference.Offering? && InRange(s.out) && Enabled(s.out, step)
    ensures var t := DoOfferLoad(s, step);
            Named(t.offered) + Pending(t.inference) == Named(s.offered) + [s.inference.frame]
  {
    hide SpscRing.Apply, Named, Queued;
    if step.CheckFull? {
      OfferedOneMore(s.offered, Turned(s));
      assert Named(s.offered + [Turned(s)]) + [] == Named(s.offered + [Turned(s)]);
    }
  }

  lemma OfferLoadFrame(s: State, step: Step<nat>)
    requires InRange(s.out) && SpscRing.Inv(s.out) && s.inference.Offering? && Enabled(s.out, step)
    ensures var t := DoOfferLoad(s, step);
            && InRange(t.out) && Detected(t.inference)
            && t == s.(out := t.out, inference := t.inference, offered := t.offered)
  {
    hide SpscRing.Apply;
    OutStep(s.out, step);
  }

  lemma OutStep(r: Ring<nat>, step: Step<nat>)
    requires SpscRing.Inv(r) && InRange(r) && Enabled(r, step)
    ensures SpscRing.Inv(SpscRing.Apply(r, step)) && InRange(SpscRing.Apply(r, step))
  {
    SpscRing.StepKeeps(r, step);
  }

  lemma OfferWriteOutput(out: Ring<nat>, frame: nat, offered: seq<Offer>, slots: nat)
    requires OutputInv(out, [frame], false, offered, slots) && out.producer.Filling?
    ensures OutputInv(SpscRing.Apply(out, WriteSlot(frame)), [frame], true, offered, slots)
  {
    OutStep(out, WriteSlot(frame));
    hide SpscRing.Inv, Queued;
  }

  lemma OfferWriteKeeps(c: Config, s: State)
    requires PipelineInv(c, s) && Able(c, s, OfferWrite)
    ensures PipelineInv(c, Do(c, s, OfferWrite))
  {
    hide PipelineInv, OutputInv, SpscRing.Inv, SpscRing.Apply, Named;
    OutputOf(c, s);
    OfferWriteOutput(s.out, s.inference.frame, s.offered, c.outSlots);
    OutStep(s.out, WriteSlot(s.inference.frame));
    var t := Do(c, s, OfferWrite);
    OutputStepKeeps(c, s, t.out, t.inference, t.offered);
  }

  lemma OfferPublishOutput(s: State, slots: nat)
    requires s.inference.Written? && OutputInv(s.out, [s.inference.frame], true, s.offered, slots)
    ensures var t := DoOfferPublish(s);
            && OutputInv(t.out, [], false, t.offered, slots)
            && Named(t.offered) == Named(s.offered) + [s.inference.frame]
  {
    SpscRing.StepKeeps(s.out, StoreTail);
    OfferedOneMore(s.offered, Taken(s));
    hide SlotsHold, Named, Queued;
  }

  lemma OfferPublishFrame(s: State)
    requires s.inference.Written? && InRange(s.out) && SpscRing.Inv(s.out) && s.out.producer.Filling?
    ensures var t := DoOfferPublish(s);
            && InRange(t.out) && t.inference == Processed
            && t == s.(out := t.out, inference := Processed, offered := t.offered)
  {
    hide SpscRing.Apply, SpscRing.Inv;
    OutStep(s.out, StoreTail);
  }

  lemma OfferPublishKeeps(c: Config, s: State)
    requires PipelineInv(c, s) && Able(c, s, OfferPublish)
    ensures PipelineInv(c, Do(c, s, OfferPublish))
  {
    hide PipelineInv, OutputInv, SpscRing.Inv, Named, DoOfferPublish;
    OutputOf(c, s);
    OfferPublishOutput(s, c.outSlots);
    OfferPublishFrame(s);
    var t := DoOfferPublish(s);
    assert Named(t.offered) + [] == Named(t.offered);
    OutputStepKeeps(c, s, t.out, Processed, t.offered);
  }

  lemma AgentPopOutput(out: Ring<nat>, pending: seq<nat>, written: bool, offered: seq<Offer>, slots: nat,
      step: Step<nat>)
    requires OutputInv(out, pending, written, offered, slots) && Enabled(out, step)
    requires step.LoadOwnHead? || step.LoadTail? || step.CheckEmpty? || step.TakeItem? || step.StoreHead?
    ensures OutputInv(SpscRing.Apply(out, step), pending, written, offered, slots)
  {
    SpscRing.StepKeeps(out, step);
    hide SpscRing.Inv, Queued;
  }

  lemma AgentPopKeeps(c: Config, s: State, step: Step<nat>)
    requires PipelineInv(c, s) && Able(c, s, AgentPop(step))
    ensures PipelineInv(c, Do(c, s, AgentPop(step)))
  {
    hide PipelineInv, OutputInv, SpscRing.Inv, SpscRing.Apply, Named;
    OutputOf(c, s);
    AgentPopOutput(s.out, Pending(s.inference), s.inference.Written?, s.offered, c.outSlots, step);
    OutStep(s.out, step);
    OutputStepKeeps(c, s, SpscRing.Apply(s.out, step), s.inference, s.offered);
  }

  lemma ReleaseKeeps(c: Config, s: State)
    requires PipelineInv(c, s) && Able(c, s, Release)
    ensures PipelineInv(c, Do(c, s, Release))
  {
    hide SpscRing.Inv, Kept, Lost, KOfN.Confirmed, Edges, Named, OutputInv;
    RingStep(s.ring, StoreHead);
  }

  lemma ActionKeeps(c: Config, s: State, action: Action)
    requires PipelineInv(c, s) && Able(c, s, action)
    ensures PipelineInv(c, Do(c, s, action))
  {
    hide PipelineInv, Do;
    match action
    case LoadIndices(step) => LoadIndicesKeeps(c, s, step);
    case Deliver(frame) => DeliverKeeps(c, s, frame);
    case EndOfSource => EndOfSourceKeeps(c, s);
    case Publish => PublishKeeps(c, s);
    case Discard(frame) => DiscardKeeps(c, s, frame);
    case LoadForPop(step) => LoadForPopKeeps(c, s, step);
    case Process(positive) => ProcessKeeps(c, s, positive);
    case Release => ReleaseKeeps(c, s);
    case OfferLoad(step) => OfferLoadKeeps(c, s, step);
    case OfferWrite => OfferWriteKeeps(c, s);
    case OfferPublish => OfferPublishKeeps(c, s);
    case AgentPop(step) => AgentPopKeeps(c, s, step);
    case TestDone => InferenceStepKeeps(c, s, action);
    case LoadTailAfterDone => InferenceStepKeeps(c, s, action);
    case CompareAfterDone => InferenceStepKeeps(c, s, action);
    case TestStopInBody => InferenceStepKeeps(c, s, action);
    case LoadTailAfterStop => InferenceStepKeeps(c, s, action);
    case CompareAfterStop => InferenceStepKeeps(c, s, action);
    case RequestStop => InferenceStepKeeps(c, s, action);
    case _ => CaptureStepKeeps(c, s, action);
  }

  // ----- Whole runs -----

  /** These actions, taken in this order by either thread or by a caller of Stop, lead
      from s to t. */
  ghost predicate Run(c: Config, s: State, actions: seq<Action>, t: State)
    decreases |actions|
  {
    if actions == [] then s == t else
    InRange(s.ring) && InRange(s.out) && Able(c, s, actions[0]) && Run(c, Do(c, s, actions[0]), actions[1..], t)
  }

  ghost predicate Reachable(c: Config, slots: seq<Frame>, actions: seq<Action>, t: State) {
    && |slots| >= 2 && 1 <= c.k <= c.n && c.outSlots >= 2
    && Run(c, Initial(slots, Blank(c.outSlots)), actions, t)
  }

  /** The output ring's slots before anything is in them. */
  function Blank(n: nat): (slots: seq<nat>)
    ensures |slots| == n
  {
    seq(n, _ => 0)
  }

  predicate Finished(s: State) {
    s.inference.Exited? || s.inference.Broken?
  }

  lemma {:induction false} RunKeeps(c: Config, s: State, actions: seq<Action>, t: State)
    requires PipelineInv(c, s) && Run(c, s, actions, t)
    ensures PipelineInv(c, t)
    decreases |actions|
  {
    hide PipelineInv;
    if actions != [] {
      ActionKeeps(c, s, actions[0]);
      RunKeeps(c, Do(c, s, actions[0]), actions[1..], t);
    }
  }

  lemma ReachableHolds(c: Config, slots: seq<Frame>, actions: seq<Action>, t: State)
    requires Reachable(c, slots, actions, t)
    ensures PipelineInv(c, t)
  {
    var first := Initial(slots, Blank(c.outSlots));
    SpscRing.InitHolds(slots);
    SpscRing.InitHolds(Blank(c.outSlots));
    assert PipelineInv(c, first) by {
      hide SpscRing.Inv;
    }
    RunKeeps(c, first, actions, t);
  }

  lemma {:induction false} EveryReadHasAFate(read: seq<Read>)
    ensures |read| == |Kept(read)| + Lost(read)
  {
    if read != [] {
      EveryReadHasAFate(read[..|read| - 1]);
    }
  }

  function Frames(read: seq<Read>): seq<Frame> {
    seq(|read|, i requires 0 <= i < |read| => read[i].frame)
  }

  lemma {:induction false} NothingLost(read: seq<Read>)
    requires Lost(read) == 0
    ensures Kept(read) == Frames(read)
  {
    if read != [] {
      NothingLost(read[..|read| - 1]);
      assert Frames(read) == Frames(read[..|read| - 1]) + [read[|read| - 1].frame];
    }
  }

  /** In every reachable state the detector has seen, in order and each once, a prefix of
      the frames the capture loop kept, and the events offered, with the one being offered,
      are exactly the rising edges of the confirmer over its answers. */
  lemma DetectorSeesKeptFramesInOrder(c: Config, slots: seq<Frame>, actions: seq<Action>, t: State)
    requires Reachable(c, slots, actions, t)
    ensures t.handled <= Kept(t.read)
    ensures |t.answers| == |t.handled| == t.processed
    ensures Named(t.offered) + Pending(t.inference) == Edges(t.answers, c.k, c.n)
  {
    ReachableHolds(c, slots, actions, t);
  }

  /** Under every interleaving of the two sides of the output ring, the agent has taken, in
      order, a prefix of the events that went in; one went in exactly if fewer than a full
      ring were waiting when it looked; and if all did, they are the rising edges. */
  lemma EventsReachTheAgentInOrder(c: Config, slots: seq<Frame>, actions: seq<Action>, t: State)
    requires Reachable(c, slots, actions, t)
    ensures t.out.freed <= Queued(t.offered) && |Queued(t.offered)| - |t.out.freed| <= c.outSlots - 1
    ensures forall i | 0 <= i < |t.offered| :: t.offered[i].queued <==> t.offered[i].waiting < c.outSlots - 1
    ensures (forall i | 0 <= i < |t.offered| :: t.offered[i].queued) ==>
              Queued(t.offered) + Pending(t.inference) == Edges(t.answers, c.k, c.n)
  {
    ReachableHolds(c, slots, actions, t);
    if forall i | 0 <= i < |t.offered| :: t.offered[i].queued {
      AllQueued(t.offered);
    }
  }

  lemma {:induction false} AllQueued(offered: seq<Offer>)
    requires forall i | 0 <= i < |offered| :: offered[i].queued
    ensures Queued(offered) == Named(offered)
  {
    if offered != [] {
      AllQueued(offered[..|offered| - 1]);
    }
  }

  /** A pipeline that finished without Stop handled every frame it captured, and every
      frame the source delivered was captured or counted as dropped.  Offline none was
      dropped, so the detector saw the source's frames, all of them, in order. */
  lemma FinishedHandledEverything(c: Config, slots: seq<Frame>, actions: seq<Action>, t: State)
    requires Reachable(c, slots, actions, t) && Finished(t) && !t.stop
    ensures t.captureDone && t.handled == Kept(t.read)
    ensures t.captured == t.processed == |t.handled|
    ensures |t.read| == t.captured + t.dropped
    ensures !c.realtime ==> t.dropped == 0 && t.handled == Frames(t.read)
  {
    ReachableHolds(c, slots, actions, t);
    EveryReadHasAFate(t.read);
    if !c.realtime {
      NothingLost(t.read);
    }
  }

  /** Once Stop has joined both threads, at most one kept frame was never handled. */
  lemma StopStrandsAtMostOne(c: Config, slots: seq<Frame>, actions: seq<Action>, t: State)
    requires Reachable(c, slots, actions, t) && Finished(t) && t.captureDone
    ensures t.handled <= Kept(t.read) && t.captured - t.processed <= 1
    ensures |t.read| == t.captured + t.dropped
    ensures t.inference.Exited? ==> t.captured == t.processed
  {
    ReachableHolds(c, slots, actions, t);
    EveryReadHasAFate(t.read);
  }

  /** Exactly when none was: the loop ended normally, or nothing was published after the last
      tail it loaded. */
  lemma NothingStrandedIff(c: Config, slots: seq<Frame>, actions: seq<Action>, t: State)
    requires Reachable(c, slots, actions, t) && Finished(t) && t.captureDone
    ensures t.captured == t.processed <==>
            t.inference.Exited? || (t.inference.Broken? && |t.ring.published| == t.inference.seen)
  {
    ReachableHolds(c, slots, actions, t);
  }

  lemma RunBefore(c: Config, s: State, action: Action, rest: seq<Action>, t: State) returns (actions: seq<Action>)
    requires InRange(s.ring) && InRange(s.out) && Able(c, s, action) && Run(c, Do(c, s, action), rest, t)
    ensures Run(c, s, actions, t)
  {
    actions := [action] + rest;
    assert actions[1..] == rest;
  }

  /** The capture loop opens its first slot. */
  lemma OpensASlot(c: Config, slots: seq<Frame>, s: State, rest: seq<Action>, t: State) returns (actions: seq<Action>)
    requires |slots| >= 2 && c.outSlots >= 2
    requires s == Initial(slots, Blank(c.outSlots)).(capture := Pushing, ring := Init(slots).(producer := Filling(0)))
    requires Run(c, s, rest, t)
    ensures Run(c, Initial(slots, Blank(c.outSlots)), actions, t)
  {
    hide Run;
    var s0 := Initial(slots, Blank(c.outSlots));
    var s1 := Do(c, s0, TestStop);
    var s2 := Do(c, s1, LoadIndices(LoadOwnTail));
    var s3 := Do(c, s2, LoadIndices(LoadHead));
    assert s == Do(c, s3, LoadIndices(CheckFull));
    actions := RunBefore(c, s3, LoadIndices(CheckFull), rest, t);
    actions := RunBefore(c, s2, LoadIndices(LoadHead), actions, t);
    actions := RunBefore(c, s1, LoadIndices(LoadOwnTail), actions, t);
    actions := RunBefore(c, s0, TestStop, actions, t);
  }

  /** Stop is requested and the inference loop, finding the ring empty, gives up. */
  lemma GivesUp(c: Config, s: State, rest: seq<Action>, t: State) returns (actions: seq<Action>)
    requires InRange(s.ring) && InRange(s.out) && s.inference.Testing? && !s.captureDone && s.ring.head == s.ring.tail
    requires Run(c, s.(stop := true, inference := Broken(|s.ring.published|)), rest, t)
    ensures Run(c, s, actions, t)
  {
    hide Run;
    var s1 := Do(c, s, TestDone);
    var s2 := Do(c, s1, RequestStop);
    var s3 := Do(c, s2, TestStopInBody);
    var s4 := Do(c, s3, LoadTailAfterStop);
    actions := RunBefore(c, s4, CompareAfterStop, rest, t);
    actions := RunBefore(c, s3, LoadTailAfterStop, actions, t);
    actions := RunBefore(c, s2, TestStopInBody, actions, t);
    actions := RunBefore(c, s1, RequestStop, actions, t);
    actions := RunBefore(c, s, TestDone, actions, t);
  }

  /** The capture loop publishes the frame it was filling and ends. */
  lemma PublishesAndEnds(c: Config, s: State, frame: Frame) returns (actions: seq<Action>, t: State)
    requires InRange(s.ring) && InRange(s.out) && s.capture.Pushing? && s.ring.producer.Filling? && s.stop
    ensures Run(c, s, actions, t)
    ensures t.captureDone && t.captured == s.captured + 1
    ensures t.inference == s.inference && t.processed == s.processed
  {
    var s1 := Do(c, s, Deliver(frame));
    var s2 := Do(c, s1, Publish);
    var s3 := Do(c, s2, CountCaptured);
    var s4 := Do(c, s3, TestStop);
    t := Do(c, s4, SignalDone);
    actions := [];
    assert Run(c, t, actions, t);
    hide Run;
    actions := RunBefore(c, s4, SignalDone, actions, t);
    actions := RunBefore(c, s3, TestStop, actions, t);
    actions := RunBefore(c, s2, CountCaptured, actions, t);
    actions := RunBefore(c, s1, Publish, actions, t);
    actions := RunBefore(c, s, Deliver(frame), actions, t);
  }

  /** Stop can strand a frame: the inference loop sees the stop flag and an empty ring
      while the capture loop is filling a slot. */
  lemma StopCanStrandAFrame(c: Config, slots: seq<Frame>, frame: Frame) returns (actions: seq<Action>, t: State)
    requires |slots| >= 2 && 1 <= c.k <= c.n && c.outSlots >= 2
    ensures Reachable(c, slots, actions, t) && Finished(t) && t.captureDone
    ensures t.captured == 1 && t.processed == 0
  {
    hide Run, Do;
    var s := Initial(slots, Blank(c.outSlots)).(capture := Pushing, ring := Init(slots).(producer := Filling(0)));
    actions, t := PublishesAndEnds(c, s.(stop := true, inference := Broken(0)), frame);
    actions := GivesUp(c, s, actions, t);
    actions := OpensASlot(c, slots, s, actions, t);
  }
}
