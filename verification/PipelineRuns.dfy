/** Runs of the pipeline that finish: whatever frames the source has and whatever the detector
    answers, some interleaving reads and handles them all and ends without Stop. */
module PipelineRuns {
  import opened SpscRing
  import opened EdgePipeline
  import KOfN

  ghost predicate Leads(c: Config, s: State, t: State) {
    exists actions :: EdgePipeline.Run(c, s, actions, t)
  }

  lemma {:induction false} RunAppend(c: Config, s: State, actions: seq<Action>, u: State, x: Action)
    requires EdgePipeline.Run(c, s, actions, u) && InRange(u.ring) && InRange(u.out) && Able(c, u, x)
    ensures EdgePipeline.Run(c, s, actions + [x], Do(c, u, x))
    decreases |actions|
  {
    hide Able, Do, InRange;
    if actions == [] {
      assert actions + [x] == [x] && [x][1..] == [];
    } else {
      RunAppend(c, Do(c, s, actions[0]), actions[1..], u, x);
      assert (actions + [x])[1..] == actions[1..] + [x];
    }
  }

  lemma Then(c: Config, s: State, u: State, x: Action, t: State)
    requires Leads(c, s, u) && InRange(u.ring) && InRange(u.out) && Able(c, u, x) && Do(c, u, x) == t
    ensures Leads(c, s, t)
  {
    hide EdgePipeline.Run, Able, Do, InRange;
    var actions :| EdgePipeline.Run(c, s, actions, u);
    RunAppend(c, s, actions, u, x);
  }

  /** Both loops are at their tops and both rings' producers at rest; no frame is waiting. */
  ghost predicate AtRest(s: State) {
    && InRange(s.ring) && InRange(s.out)
    && s.capture.AtTop? && s.inference.Testing? && !s.stop && !s.captureDone
    && s.ring.producer.Resting? && s.ring.consumer.Waiting? && s.ring.head == s.ring.tail
    && s.out.producer.Resting?
  }

  // ----- The capture loop -----

  function Opened(s: State): State {
    s.(capture := Pushing, ring := s.ring.(producer := Filling(s.ring.tail)))
  }

  lemma OpensSlot(c: Config, s0: State, s: State)
    requires Leads(c, s0, s) && AtRest(s)
    ensures Leads(c, s0, Opened(s))
  {
    hide Leads;
    var tail, n := s.ring.tail, |s.ring.slots|;
    var s1 := s.(capture := Pushing);
    var s2 := s1.(ring := s.ring.(producer := HasTail(tail)));
    var s3 := s1.(ring := s.ring.(producer := HasBoth(tail, s.ring.head, |s.ring.freed|)));
    assert Next(tail, n) != s.ring.head;
    Then(c, s0, s, TestStop, s1);
    Then(c, s0, s1, LoadIndices(LoadOwnTail), s2);
    Then(c, s0, s2, LoadIndices(LoadHead), s3);
    Then(c, s0, s3, LoadIndices(CheckFull), Opened(s));
  }

  /** The ring with one frame in it. */
  function Pushed(r: Ring<Frame>, frame: Frame): Ring<Frame>
    requires InRange(r)
  {
    r.(slots := r.slots[r.tail := frame], tail := Next(r.tail, |r.slots|), published := r.published + [frame])
  }

  function Captured(s: State, frame: Frame): State
    requires InRange(s.ring)
  {
    s.(ring := Pushed(s.ring, frame), captured := s.captured + 1, read := s.read + [Read(frame, true)])
  }

  lemma CapturesFrame(c: Config, s0: State, s: State, frame: Frame)
    requires Leads(c, s0, s) && AtRest(s)
    ensures Leads(c, s0, Captured(s, frame))
  {
    hide Leads;
    OpensSlot(c, s0, s);
    var tail := s.ring.tail;
    var full := s.ring.slots[tail := frame];
    var s1 := Opened(s).(capture := Filled, ring := s.ring.(producer := Filling(tail), slots := full),
                         read := s.read + [Read(frame, true)]);
    var s2 := s1.(capture := Counting, ring := Pushed(s.ring, frame));
    Then(c, s0, Opened(s), Deliver(frame), s1);
    Then(c, s0, s1, Publish, s2);
    Then(c, s0, s2, CountCaptured, Captured(s, frame));
  }

  // ----- The inference loop -----

  /** A frame is waiting and the inference loop is at its top. */
  ghost predicate FrameWaits(s: State) {
    && InRange(s.ring) && InRange(s.out)
    && s.inference.Testing? && !s.stop && !s.captureDone
    && s.ring.consumer.Waiting? && s.ring.head != s.ring.tail && s.out.producer.Resting?
  }

  function Held(s: State): State
    requires InRange(s.ring)
  {
    s.(inference := Popping, ring := s.ring.(consumer := Holding(s.ring.head, s.ring.slots[s.ring.head])))
  }

  function Looked(s: State): State {
    s.(inference := Popping, ring := s.ring.(consumer := HasHead(s.ring.head)))
  }

  lemma LooksForFrame(c: Config, s0: State, s: State)
    requires Leads(c, s0, s) && FrameWaits(s)
    ensures Leads(c, s0, Looked(s))
  {
    hide Leads;
    var s1 := s.(inference := InBody);
    var s2 := s.(inference := Popping);
    Then(c, s0, s, TestDone, s1);
    Then(c, s0, s1, TestStopInBody, s2);
    Then(c, s0, s2, LoadForPop(LoadOwnHead), Looked(s));
  }

  lemma TakesFrame(c: Config, s0: State, s: State)
    requires Leads(c, s0, s) && FrameWaits(s)
    ensures Leads(c, s0, Held(s))
  {
    hide Leads;
    LooksForFrame(c, s0, s);
    var head := s.ring.head;
    var s1 := Looked(s).(ring := s.ring.(consumer := HasHeadAndTail(head, s.ring.tail, |s.ring.published|)));
    var s2 := Looked(s).(ring := s.ring.(consumer := SpscRing.Opened(head)));
    Then(c, s0, Looked(s), LoadForPop(LoadTail), s1);
    Then(c, s0, s1, LoadForPop(CheckEmpty), s2);
    Then(c, s0, s2, LoadForPop(TakeItem), Held(s));
  }

  /** An offer ends with the event in the output ring or dropped. */
  lemma OfferEnds(c: Config, s0: State, s: State) returns (t: State)
    requires Leads(c, s0, s) && InRange(s.ring) && InRange(s.out) && s.inference.Offering? && s.out.producer.Resting?
    ensures Leads(c, s0, t) && InRange(t.out) && t.out.producer.Resting?
    ensures t == s.(out := t.out, offered := t.offered, inference := Processed)
  {
    hide Leads;
    var tail := s.out.tail;
    var s1 := s.(out := s.out.(producer := HasTail(tail)));
    var s2 := s.(out := s.out.(producer := HasBoth(tail, s.out.head, |s.out.freed|)));
    Then(c, s0, s, OfferLoad(LoadOwnTail), s1);
    Then(c, s0, s1, OfferLoad(LoadHead), s2);
    var s3 := Do(c, s2, OfferLoad(CheckFull));
    Then(c, s0, s2, OfferLoad(CheckFull), s3);
    if s3.inference.Processed? {
      t := s3;
    } else {
      t := OfferGoesIn(c, s0, s3);
    }
  }

  lemma OfferGoesIn(c: Config, s0: State, s: State) returns (t: State)
    requires Leads(c, s0, s) && InRange(s.ring) && InRange(s.out) && s.inference.Offering? && s.out.producer.Filling?
    ensures Leads(c, s0, t) && InRange(t.out) && t.out.producer.Resting?
    ensures t == s.(out := t.out, offered := t.offered, inference := Processed)
  {
    hide Leads;
    var s1 := Do(c, s, OfferWrite);
    Then(c, s0, s, OfferWrite, s1);
    t := Do(c, s1, OfferPublish);
    Then(c, s0, s1, OfferPublish, t);
  }

  /** The frame in hand goes through the detector and is released. */
  lemma HandlesFrame(c: Config, s0: State, s: State, positive: bool) returns (t: State)
    requires Leads(c, s0, s) && FrameWaits(s)
    ensures Leads(c, s0, t) && InRange(t.out) && t.out.producer.Resting?
    ensures t.ring == s.ring.(head := Next(s.ring.head, |s.ring.slots|),
                              freed := s.ring.freed + [s.ring.slots[s.ring.head]])
    ensures (t.capture, t.inference, t.read) == (s.capture, Testing, s.read)
    ensures (t.stop, t.captureDone) == (s.stop, s.captureDone)
    ensures t.handled == s.handled + [s.ring.slots[s.ring.head]] && t.answers == s.answers + [positive]
  {
    hide Leads, KOfN.Confirmed;
    TakesFrame(c, s0, s);
    var s1 := Do(c, Held(s), Process(positive));
    Then(c, s0, Held(s), Process(positive), s1);
    var s2 := s1;
    if s1.inference.Offering? {
      s2 := OfferEnds(c, s0, s1);
    }
    t := Do(c, s2, Release);
    Then(c, s0, s2, Release, t);
  }

  // ----- Whole runs -----

  lemma OneFrame(c: Config, s0: State, s: State, frame: Frame, positive: bool) returns (t: State)
    requires Leads(c, s0, s) && AtRest(s)
    ensures Leads(c, s0, t) && AtRest(t)
    ensures t.read == s.read + [Read(frame, true)] && t.handled == s.handled + [frame]
    ensures t.answers == s.answers + [positive]
  {
    hide Leads;
    CapturesFrame(c, s0, s, frame);
    t := HandlesFrame(c, s0, Captured(s, frame), positive);
  }

  /** These frames, all read and kept. */
  function AllKept(frames: seq<Frame>): seq<Read> {
    if frames == [] then [] else AllKept(frames[..|frames| - 1]) + [Read(frames[|frames| - 1], true)]
  }

  lemma {:induction false} AllFrames(c: Config, s: State, frames: seq<Frame>, answers: seq<bool>) returns (t: State)
    requires AtRest(s) && s.read == [] && s.handled == [] && s.answers == [] && |frames| == |answers|
    ensures Leads(c, s, t) && AtRest(t) && t.read == AllKept(frames) && t.handled == frames && t.answers == answers
  {
    hide AtRest;
    if frames == [] {
      assert EdgePipeline.Run(c, s, [], s);
      t := s;
    } else {
      hide Leads;
      var n := |frames| - 1;
      var u := AllFrames(c, s, frames[..n], answers[..n]);
      t := OneFrame(c, s, u, frames[n], answers[n]);
      assert frames[..n] + [frames[n]] == frames && answers[..n] + [answers[n]] == answers;
    }
  }

  /** At rest, the end of the source ends both loops. */
  lemma Ends(c: Config, s0: State, s: State) returns (t: State)
    requires Leads(c, s0, s) && AtRest(s)
    ensures Leads(c, s0, t) && t == s.(capture := Gone, captureDone := true, inference := Exited)
  {
    hide Leads;
    OpensSlot(c, s0, s);
    var s1 := s.(capture := Leaving);
    var s2 := s.(capture := Gone, captureDone := true);
    var s3 := s2.(inference := SizingAfterDone);
    var s4 := s2.(inference := ComparingAfterDone(s.ring.tail));
    t := s2.(inference := Exited);
    Then(c, s0, Opened(s), EndOfSource, s1);
    Then(c, s0, s1, SignalDone, s2);
    Then(c, s0, s2, TestDone, s3);
    Then(c, s0, s3, LoadTailAfterDone, s4);
    Then(c, s0, s4, CompareAfterDone, t);
  }

  /** For every sequence of frames and answers some run reads those frames, hands them all to
      the detector with those answers, and finishes without Stop. */
  lemma SomeRunFinishes(c: Config, slots: seq<Frame>, frames: seq<Frame>, answers: seq<bool>)
      returns (actions: seq<Action>, t: State)
    requires |slots| >= 2 && 1 <= c.k <= c.n && c.outSlots >= 2 && |frames| == |answers|
    ensures Reachable(c, slots, actions, t) && Finished(t) && !t.stop
    ensures t.read == AllKept(frames) && t.handled == frames && t.answers == answers
  {
    hide EdgePipeline.Run;
    var s := Initial(slots, Blank(c.outSlots));
    var u := AllFrames(c, s, frames, answers);
    t := Ends(c, s, u);
    actions :| EdgePipeline.Run(c, s, actions, t);
  }
}
