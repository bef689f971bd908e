/** The ring buffer's operations run to completion, on its array of slots. */
module RingBuffer {
  import opened Basics
  import opened Options
  import opened SpscRing

  /** The items between the two indices. */
  function Items<T>(slots: seq<T>, head: nat, tail: nat): (q: seq<T>)
    requires head < |slots| && tail < |slots|
  {
    seq(Distance(head, tail, |slots|), i requires 0 <= i < |slots| => slots[At(head, i, |slots|)])
  }

  /** In every reachable state of the concurrent ring the items between the indices are
      its abstract queue, as long as the consumer has not taken the first one out. */
  lemma ItemsAreTheQueue<T>(r: Ring<T>)
    requires Inv(r) && !r.consumer.Holding?
    ensures Items(r.slots, r.head, r.tail) == Queue(r)
  {
    var n, q := |r.slots|, Items(r.slots, r.head, r.tail);
    forall i | 0 <= i < |q|
      ensures q[i] == Queue(r)[i]
    {
      assert r.slots[At(r.head, i, n)] == r.published[|r.freed| + i];
    }
  }

  class SpscRingBuffer<T(0)> {
    const slots: array<T>
    var head: nat
    var tail: nat

    ghost predicate Valid()
      reads this
    {
      2 <= slots.Length && head < slots.Length && tail < slots.Length
    }

    ghost function Contents(): seq<T>
      reads this, slots
      requires Valid()
    {
      Items(slots[..], head, tail)
    }

    constructor (capacity: nat)
      requires capacity >= 2
      ensures Valid() && fresh(slots) && slots.Length == capacity && Contents() == []
    {
      slots := new T[capacity];
      head, tail := 0, 0;
    }

    /** Refused exactly when capacity - 1 items are waiting. */
    method TryPush(item: T) returns (ok: bool)
      requires Valid()
      modifies this`tail, slots
      ensures Valid()
      ensures ok <==> |old(Contents())| < slots.Length - 1
      ensures Contents() == if ok then old(Contents()) + [item] else old(Contents())
    {
      ok := TryPushWith(item, true);
    }

    /** Fills the free slot in place; nothing is published if the fill declines. */
    method TryPushWith(item: T, accept: bool) returns (ok: bool)
      requires Valid()
      modifies this`tail, slots
      ensures Valid()
      ensures ok <==> accept && |old(Contents())| < slots.Length - 1
      ensures Contents() == if ok then old(Contents()) + [item] else old(Contents())
    {
      var t := tail;
      var next := Next(t, slots.Length);
      if next == head {
        return false;
      }
      ghost var before := slots[..];
      slots[t] := item;
      ItemsIgnoreTail(before, head, t, item);
      assert slots[..] == before[t := item];
      if !accept {
        return false;
      }
      ItemsGrow(slots[..], head, t);
      tail := next;
      return true;
    }

    /** Empty exactly when nothing is returned; otherwise the oldest item is. */
    method TryPop() returns (item: Option<T>)
      requires Valid()
      modifies this`head
      ensures Valid()
      ensures item == if old(Contents()) == [] then None else Some(old(Contents())[0])
      ensures Contents() == if old(Contents()) == [] then [] else old(Contents())[1..]
    {
      if head == tail {
        return None;
      }
      ItemsShrink(slots[..], head, tail);
      item := Some(slots[head]);
      head := Next(head, slots.Length);
    }

    /** Hands the oldest item to the callback in its slot, which it may leave changed. */
    method TryPopWith(left: T) returns (consumed: Option<T>)
      requires Valid()
      modifies this`head, slots
      ensures Valid()
      ensures consumed == if old(Contents()) == [] then None else Some(old(Contents())[0])
      ensures Contents() == if old(Contents()) == [] then [] else old(Contents())[1..]
    {
      if head == tail {
        return None;
      }
      ghost var before := slots[..];
      ItemsShrink(before, head, tail);
      ItemsIgnoreFreed(before, head, tail, left);
      consumed := Some(slots[head]);
      slots[head] := left;
      assert slots[..] == before[head := left];
      head := Next(head, slots.Length);
    }

    /** The capacity is a power of two, so it divides 2^64. */
    method SizeApprox() returns (size: nat)
      requires Valid() && slots.Length <= TWO_TO_64 && TWO_TO_64 % slots.Length == 0
      ensures size == |Contents()|
    {
      hide WrappedSize;
      var t := tail;
      var h := head;
      WrappedSizeIff(slots.Length);
      size := WrappedSize(h, t, slots.Length);
    }
  }

  lemma ItemsIgnoreTail<T>(slots: seq<T>, head: nat, tail: nat, item: T)
    requires head < |slots| && tail < |slots|
    ensures Items(slots[tail := item], head, tail) == Items(slots, head, tail)
  {
    forall i | 0 <= i < Distance(head, tail, |slots|)
      ensures At(head, i, |slots|) != tail
    {
      TailSlot(head, tail, |slots|, i);
    }
  }

  lemma ItemsGrow<T>(slots: seq<T>, head: nat, tail: nat)
    requires head < |slots| && tail < |slots| && Next(tail, |slots|) != head
    ensures Items(slots, head, Next(tail, |slots|)) == Items(slots, head, tail) + [slots[tail]]
  {
    TailSlot(head, tail, |slots|, Distance(head, tail, |slots|));
  }

  lemma ItemsShrink<T>(slots: seq<T>, head: nat, tail: nat)
    requires head < |slots| && tail < |slots| && head != tail
    ensures Items(slots, head, tail) != [] && Items(slots, head, tail)[0] == slots[head]
    ensures Items(slots, Next(head, |slots|), tail) == Items(slots, head, tail)[1..]
  {
    var n := |slots|;
    var q, q' := Items(slots, head, tail), Items(slots, Next(head, n), tail);
    forall i | 0 <= i < |q'|
      ensures q'[i] == q[1..][i]
    {
      AfterNext(head, n, i);
    }
  }

  lemma ItemsIgnoreFreed<T>(slots: seq<T>, head: nat, tail: nat, item: T)
    requires 2 <= |slots| && head < |slots| && tail < |slots| && head != tail
    ensures Items(slots[head := item], Next(head, |slots|), tail) == Items(slots, Next(head, |slots|), tail)
  {
    var n := |slots|;
    forall i | 0 <= i < Distance(Next(head, n), tail, n)
      ensures At(Next(head, n), i, n) != head
    {
      AfterNext(head, n, i);
    }
  }
}
