/** The lock-free single-producer single-consumer ring.  Each operation is split into
    its loads, slot accesses and stores, which interleave in any order; each side keeps
    a possibly stale copy of the other's index. */
module SpscRing {
  import opened Basics

  // ----- Index arithmetic -----

  function Next(i: nat, n: nat): (j: nat)
    requires i < n
    ensures j < n
  {
    if i + 1 == n then 0 else i + 1
  }

  /** How many steps lead from head to tail. */
  function Distance(head: nat, tail: nat, n: nat): (d: nat)
    requires head < n && tail < n
    ensures d < n
  {
    if head <= tail then tail - head else tail + n - head
  }

  /** The slot i places after head. */
  function At(head: nat, i: nat, n: nat): (j: nat)
    requires head < n && i < n
    ensures j < n
  {
    if head + i < n then head + i else head + i - n
  }

  /** The advance the code computes: one step, masked with capacity - 1. */
  function Masked(x: bv64, capacity: bv64): bv64 {
    (x + 1) & (capacity - 1)
  }

  /** Masking wraps an index for every index exactly when the capacity is a power of two. */
  lemma MaskWrapsIffPowerOfTwo(capacity: bv64)
    requires capacity >= 2
    ensures capacity & (capacity - 1) == 0 <==>
            forall x: bv64 | x < capacity :: Masked(x, capacity) == if x + 1 == capacity then 0 else x + 1
  {
    if capacity & (capacity - 1) == 0 {
      forall x: bv64 | x < capacity
        ensures Masked(x, capacity) == if x + 1 == capacity then 0 else x + 1
      {
        MaskWraps(x, capacity);
      }
    } else {
      LastIndex(capacity);
      assert Masked(capacity - 1, capacity) != 0;
    }
  }

  lemma MaskWraps(x: bv64, capacity: bv64)
    requires capacity >= 2 && capacity & (capacity - 1) == 0 && x < capacity
    ensures (x + 1) & (capacity - 1) == if x + 1 == capacity then 0 else x + 1
  {
  }

  lemma LastIndex(capacity: bv64)
    requires capacity >= 2
    ensures capacity - 1 < capacity && (capacity - 1) + 1 == capacity
  {
  }

  /** The size the code computes: a 64-bit subtraction that wraps, masked with n - 1, which for a
      power of two is the remainder by n. */
  function WrappedSize(head: nat, tail: nat, n: nat): nat
    requires 0 < n
  {
    (tail - head) % TWO_TO_64 % n
  }

  lemma Wraps(x: int)
    requires -TWO_TO_64 <= x < 0
    ensures x % TWO_TO_64 == x + TWO_TO_64
  {
  }

  lemma WrappedIsDistance(head: nat, tail: nat, n: nat)
    requires head < n && tail < n && 2 <= n <= TWO_TO_64 && TWO_TO_64 % n == 0
    ensures WrappedSize(head, tail, n) == Distance(head, tail, n)
  {
    if tail < head {
      Wraps(tail - head);
      JustBelow(tail - head, n, TWO_TO_64);
    }
  }

  lemma JustBelow(x: int, n: nat, total: nat)
    requires 0 < n <= total && total % n == 0 && 0 < x + n && x < 0
    ensures (x + total) % n == x + n
  {
    var q := total / n;
    assert total == n * q;
    assert n * (q - 1) == n * q - n;
    Remainder(x + total, n, q - 1, x + n);
  }

  /** The step from 1 back to 0 already tells. */
  lemma WrappedTells(n: nat)
    requires 2 <= n <= TWO_TO_64 && WrappedSize(1, 0, n) == n - 1
    ensures TWO_TO_64 % n == 0
  {
    var q := (TWO_TO_64 - 1) / n;
    Wraps(-1);
    assert TWO_TO_64 - 1 == n * q + (n - 1);
    assert TWO_TO_64 == n * (q + 1);
    Remainder(TWO_TO_64, n, q + 1, 0);
  }

  ghost predicate WrappedSizeIsRight(n: nat)
    requires 0 < n
  {
    forall head, tail | 0 <= head < n && 0 <= tail < n :: WrappedSize(head, tail, n) == Distance(head, tail, n)
  }

  /** Although the subtraction wraps, the masked size is the distance between the indices, for
      all of them, exactly when the capacity divides 2^64. */
  lemma WrappedSizeIff(n: nat)
    requires 2 <= n <= TWO_TO_64
    ensures WrappedSizeIsRight(n) <==> TWO_TO_64 % n == 0
  {
    hide WrappedSize;
    if TWO_TO_64 % n == 0 {
      forall head, tail | 0 <= head < n && 0 <= tail < n
        ensures WrappedSize(head, tail, n) == Distance(head, tail, n)
      {
        WrappedIsDistance(head, tail, n);
      }
    } else if WrappedSize(1, 0, n) == Distance(1, 0, n) {
      WrappedTells(n);
    }
  }

  // ----- The two sides and their steps -----

  /** Where a producer is inside TryPush or TryPushWith.  `seen` records how many items
      had been freed when it loaded head. */
  datatype Producer =
    | Resting
    | HasTail(tail: nat)
    | HasBoth(tail: nat, head: nat, seen: nat)
    | Filling(tail: nat)

  /** Where a consumer is inside TryPop or TryPopWith.  `seen` records how many items had
      been published when it loaded tail. */
  datatype Consumer<+T> =
    | Waiting
    | HasHead(head: nat)
    | HasHeadAndTail(head: nat, tail: nat, seen: nat)
    | Opened(head: nat)
    | Holding(head: nat, item: T)

  /** `published` and `freed` record the items whose tail store or head store has
      happened, in order. */
  datatype Ring<T> = Ring(
    slots: seq<T>,
    head: nat,
    tail: nat,
    producer: Producer,
    consumer: Consumer<T>,
    published: seq<T>,
    freed: seq<T>)

  datatype Step<T> =
    | LoadOwnTail
    | LoadHead
    | CheckFull
    | WriteSlot(item: T)
    | Decline
    | StoreTail
    | LoadOwnHead
    | LoadTail
    | CheckEmpty
    | TakeItem
    | Scribble(item: T)
    | StoreHead

  function Init<T>(slots: seq<T>): Ring<T> {
    Ring(slots, 0, 0, Resting, Waiting, [], [])
  }

  predicate InRange<T>(r: Ring<T>) {
    && 2 <= |r.slots| && r.head < |r.slots| && r.tail < |r.slots|
    && (r.producer.Filling? || r.producer.HasTail? || r.producer.HasBoth? ==> r.producer.tail < |r.slots|)
    && (!r.consumer.Waiting? ==> r.consumer.head < |r.slots|)
  }

  predicate Enabled<T>(r: Ring<T>, step: Step<T>) {
    match step
    case LoadOwnTail => r.producer.Resting?
    case LoadHead => r.producer.HasTail?
    case CheckFull => r.producer.HasBoth?
    case WriteSlot(_) => r.producer.Filling?
    case Decline => r.producer.Filling?
    case StoreTail => r.producer.Filling?
    case LoadOwnHead => r.consumer.Waiting?
    case LoadTail => r.consumer.HasHead?
    case CheckEmpty => r.consumer.HasHeadAndTail?
    case TakeItem => r.consumer.Opened?
    case Scribble(_) => r.consumer.Holding?
    case StoreHead => r.consumer.Holding?
  }

  /** One atomic step of either side.  A full check that fails and an empty check that
      fails end the operation; a producer may write its slot any number of times before
      publishing or declining, and a consumer may overwrite the slot it has taken. */
  function Apply<T>(r: Ring<T>, step: Step<T>): Ring<T>
    requires InRange(r) && Enabled(r, step)
  {
    var n := |r.slots|;
    match step
    case LoadOwnTail => r.(producer := HasTail(r.tail))
    case LoadHead => r.(producer := HasBoth(r.producer.tail, r.head, |r.freed|))
    case CheckFull =>
      var tail := r.producer.tail;
      r.(producer := if Next(tail, n) == r.producer.head then Resting else Filling(tail))
    case WriteSlot(item) => r.(slots := r.slots[r.producer.tail := item])
    case Decline => r.(producer := Resting)
    case StoreTail =>
      var tail := r.producer.tail;
      r.(tail := Next(tail, n), published := r.published + [r.slots[tail]], producer := Resting)
    case LoadOwnHead => r.(consumer := HasHead(r.head))
    case LoadTail => r.(consumer := HasHeadAndTail(r.consumer.head, r.tail, |r.published|))
    case CheckEmpty =>
      r.(consumer := if r.consumer.head == r.consumer.tail then Waiting else Opened(r.consumer.head))
    case TakeItem => r.(consumer := Holding(r.consumer.head, r.slots[r.consumer.head]))
    case Scribble(item) => r.(slots := r.slots[r.consumer.head := item])
    case StoreHead =>
      r.(head := Next(r.consumer.head, n), freed := r.freed + [r.consumer.item], consumer := Waiting)
  }

  // ----- The invariant -----

  /** The published items still in their slots; the consumer may already have taken the
      first one out. */
  ghost predicate SlotsHold<T>(r: Ring<T>)
    requires r.head < |r.slots| && |r.freed| <= |r.published|
  {
    var n := |r.slots|;
    forall i {:trigger At(r.head, i, n)} ::
      (if r.consumer.Holding? then 1 else 0) <= i < |r.published| - |r.freed| && i < n
      ==> r.slots[At(r.head, i, n)] == r.published[|r.freed| + i]
  }

  ghost predicate Inv<T>(r: Ring<T>) {
    var n := |r.slots|;
    && InRange(r)
    && |r.freed| <= |r.published|
    && r.freed == r.published[..|r.freed|]
    && Distance(r.head, r.tail, n) == |r.published| - |r.freed|
    && SlotsHold(r)
    && ProducerInv(r)
    && ConsumerInv(r)
  }

  /** A stale head is an earlier head, so it can only make the ring look fuller. */
  ghost predicate ProducerInv<T>(r: Ring<T>)
    requires InRange(r)
  {
    var n := |r.slots|;
    match r.producer
    case Resting => true
    case HasTail(t) => t == r.tail
    case HasBoth(t, h, seen) =>
      t == r.tail && h < n && seen <= |r.freed| && Distance(h, t, n) == |r.published| - seen
    case Filling(t) => t == r.tail && |r.published| - |r.freed| <= n - 2
  }

  /** A stale tail is an earlier tail, so it can only make the ring look emptier. */
  ghost predicate ConsumerInv<T>(r: Ring<T>)
    requires InRange(r)
  {
    var n := |r.slots|;
    match r.consumer
    case Waiting => true
    case HasHead(h) => h == r.head
    case HasHeadAndTail(h, t, seen) =>
      && h == r.head && t < n && |r.freed| <= seen <= |r.published| && Distance(h, t, n) == seen - |r.freed|
    case Opened(h) => h == r.head && |r.freed| < |r.published|
    case Holding(h, item) => h == r.head && |r.freed| < |r.published| && item == r.published[|r.freed|]
  }

  lemma InitHolds<T>(slots: seq<T>)
    requires |slots| >= 2
    ensures Inv(Init(slots))
  {
  }

  /** Where the tail lies: just past the last item, and on no item while there is room. */
  lemma TailSlot(head: nat, tail: nat, n: nat, i: nat)
    requires head < n && tail < n && i < n
    ensures i == Distance(head, tail, n) ==> At(head, i, n) == tail
    ensures i != Distance(head, tail, n) ==> At(head, i, n) != tail
  {
  }

  lemma AfterNext(head: nat, n: nat, i: nat)
    requires head < n && i + 1 < n
    ensures At(Next(head, n), i, n) == At(head, i + 1, n)
  {
  }

  lemma ProducerStepKeeps<T>(r: Ring<T>, step: Step<T>)
    requires Inv(r) && Enabled(r, step)
    requires step.LoadOwnTail? || step.LoadHead? || step.CheckFull? || step.Decline?
    ensures Inv(Apply(r, step))
  {
    var t := Apply(r, step);
    assert SlotsHold(t);
  }

  lemma WriteSlotKeeps<T>(r: Ring<T>, item: T)
    requires Inv(r) && r.producer.Filling?
    ensures Inv(Apply(r, WriteSlot(item)))
  {
    var n, t := |r.slots|, Apply(r, WriteSlot(item));
    forall i | (if r.consumer.Holding? then 1 else 0) <= i < |r.published| - |r.freed| && i < n
      ensures t.slots[At(r.head, i, n)] == r.published[|r.freed| + i]
    {
      TailSlot(r.head, r.tail, n, i);
    }
  }

  lemma StoreTailKeeps<T>(r: Ring<T>)
    requires Inv(r) && r.producer.Filling?
    ensures Inv(Apply(r, StoreTail))
  {
    var n, t := |r.slots|, Apply(r, StoreTail);
    var count := |r.published| - |r.freed|;
    TailSlot(r.head, r.tail, n, count);
    assert t.freed == t.published[..|t.freed|];
    forall i | (if r.consumer.Holding? then 1 else 0) <= i < count + 1 && i < n
      ensures t.slots[At(r.head, i, n)] == t.published[|r.freed| + i]
    {
      assert i < count ==> r.slots[At(r.head, i, n)] == r.published[|r.freed| + i];
    }
  }

  lemma ConsumerStepKeeps<T>(r: Ring<T>, step: Step<T>)
    requires Inv(r) && Enabled(r, step)
    requires step.LoadOwnHead? || step.LoadTail? || step.CheckEmpty?
    ensures Inv(Apply(r, step))
  {
    var t := Apply(r, step);
    assert SlotsHold(t);
  }

  lemma TakeItemKeeps<T>(r: Ring<T>)
    requires Inv(r) && r.consumer.Opened?
    ensures Inv(Apply(r, TakeItem))
  {
    var n := |r.slots|;
    assert At(r.head, 0, n) == r.head;
    assert SlotsHold(Apply(r, TakeItem));
  }

  lemma ScribbleKeeps<T>(r: Ring<T>, item: T)
    requires Inv(r) && r.consumer.Holding?
    ensures Inv(Apply(r, Scribble(item)))
  {
    var n, t := |r.slots|, Apply(r, Scribble(item));
    forall i | 1 <= i < |r.published| - |r.freed| && i < n
      ensures t.slots[At(r.head, i, n)] == r.published[|r.freed| + i]
    {
      assert At(r.head, i, n) != r.head;
    }
  }

  lemma StoreHeadKeeps<T>(r: Ring<T>)
    requires Inv(r) && r.consumer.Holding?
    ensures Inv(Apply(r, StoreHead))
  {
    var n, t := |r.slots|, Apply(r, StoreHead);
    assert t.freed == t.published[..|t.freed|];
    forall i | 0 <= i < |t.published| - |t.freed| && i < n
      ensures t.slots[At(t.head, i, n)] == t.published[|t.freed| + i]
    {
      AfterNext(r.head, n, i);
      assert r.slots[At(r.head, i + 1, n)] == r.published[|r.freed| + (i + 1)];
    }
  }

  lemma StepKeeps<T>(r: Ring<T>, step: Step<T>)
    requires Inv(r) && Enabled(r, step)
    ensures Inv(Apply(r, step))
  {
    hide Inv, Apply;
    match step
    case WriteSlot(item) => WriteSlotKeeps(r, item);
    case StoreTail => StoreTailKeeps(r);
    case TakeItem => TakeItemKeeps(r);
    case Scribble(item) => ScribbleKeeps(r, item);
    case StoreHead => StoreHeadKeeps(r);
    case LoadOwnTail => ProducerStepKeeps(r, step);
    case LoadHead => ProducerStepKeeps(r, step);
    case CheckFull => ProducerStepKeeps(r, step);
    case Decline => ProducerStepKeeps(r, step);
    case LoadOwnHead => ConsumerStepKeeps(r, step);
    case LoadTail => ConsumerStepKeeps(r, step);
    case CheckEmpty => ConsumerStepKeeps(r, step);
  }

  // ----- Refinement -----

  /** The abstract queue. */
  function Queue<T>(r: Ring<T>): seq<T>
    requires |r.freed| <= |r.published|
  {
    r.published[|r.freed|..]
  }

  /** Every step is a step of a bounded first-in first-out queue: it changes nothing, or
      appends what the producer's slot holds while there is room, or removes the first
      item, which is the one the consumer took.  Declining changes nothing. */
  lemma RefinesQueue<T>(r: Ring<T>, step: Step<T>)
    requires Inv(r) && Enabled(r, step)
    ensures var t := Apply(r, step);
            && |t.freed| <= |t.published| && |t.slots| == |r.slots|
            && |Queue(t)| <= |r.slots| - 1
            && match step
               case StoreTail => |Queue(r)| < |r.slots| - 1 && Queue(t) == Queue(r) + [r.slots[r.tail]]
               case StoreHead => Queue(r) != [] && r.consumer.item == Queue(r)[0] && Queue(t) == Queue(r)[1..]
               case _ => Queue(t) == Queue(r)
  {
    StepKeeps(r, step);
    var t := Apply(r, step);
    assert |Queue(t)| == Distance(t.head, t.tail, |t.slots|);
  }

  /** A push is turned away only if the ring was full when it loaded head, and a pop only
      if it was empty when it loaded tail. */
  lemma TurnedAwayOnlyIfFullOrEmpty<T>(r: Ring<T>)
    requires Inv(r)
    ensures r.producer.HasBoth? ==>
              (Apply(r, CheckFull).producer.Resting? <==> |r.published| - r.producer.seen == |r.slots| - 1)
    ensures r.consumer.HasHeadAndTail? ==>
              (Apply(r, CheckEmpty).consumer.Waiting? <==> r.consumer.seen == |r.freed|)
  {
  }

  /** Slots a side may touch. */
  ghost predicate OpenToProducer<T>(r: Ring<T>, slot: nat) {
    r.producer.Filling? && r.producer.tail == slot
  }

  ghost predicate OpenToConsumer<T>(r: Ring<T>, slot: nat) {
    (r.consumer.Opened? || r.consumer.Holding?) && r.consumer.head == slot
  }

  lemma NeverSharedInState<T>(r: Ring<T>, slot: nat)
    requires Inv(r)
    ensures !(OpenToProducer(r, slot) && OpenToConsumer(r, slot))
  {
  }

  // ----- Whole runs -----

  /** These steps, taken in this order by either side, lead from r to t. */
  ghost predicate Run<T>(r: Ring<T>, steps: seq<Step<T>>, t: Ring<T>)
    decreases |steps|
  {
    if steps == [] then r == t else
    InRange(r) && Enabled(r, steps[0]) && Run(Apply(r, steps[0]), steps[1..], t)
  }

  lemma {:induction false} RunKeeps<T>(r: Ring<T>, steps: seq<Step<T>>, t: Ring<T>)
    requires Inv(r) && Run(r, steps, t)
    ensures Inv(t) && |t.slots| == |r.slots|
    decreases |steps|
  {
    hide Inv;
    if steps != [] {
      StepKeeps(r, steps[0]);
      RunKeeps(Apply(r, steps[0]), steps[1..], t);
    }
  }

  /** Under every interleaving of the two sides' steps, the items freed are a prefix of
      the items published, at most capacity - 1 are outstanding, and no slot is ever open
      to both sides. */
  lemma EveryInterleavingIsFifo<T>(slots: seq<T>, steps: seq<Step<T>>, t: Ring<T>, slot: nat)
    requires |slots| >= 2 && Run(Init(slots), steps, t)
    ensures t.freed <= t.published
    ensures |t.published| - |t.freed| <= |slots| - 1
    ensures !(OpenToProducer(t, slot) && OpenToConsumer(t, slot))
  {
    InitHolds(slots);
    RunKeeps(Init(slots), steps, t);
    NeverSharedInState(t, slot);
  }
}
