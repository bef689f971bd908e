/** The agent's in-memory queue of unacknowledged events, and how it is rebuilt from
    the log at start-up. */
module Outbox {
  import opened WalRecordCodec
  import opened WalLog
  import Wal

  /** What is left after acknowledged items are popped off the front. */
  function PopAcked(items: seq<Record>, upTo: nat): seq<Record>
    decreases |items|
  {
    if items != [] && items[0].number <= upTo then PopAcked(items[1..], upTo) else items
  }

  predicate Consecutive(items: seq<Record>) {
    forall i, j :: 0 <= i < j < |items| ==> items[j].number == items[i].number + (j - i)
  }

  /** The first number after everything acknowledged or replayed. */
  function NextNumber(acked: nat, replayed: seq<Record>): nat {
    Highest(acked, replayed) + 1
  }

  function Highest(acked: nat, replayed: seq<Record>): nat {
    if replayed == [] then acked else
    var h := Highest(acked, replayed[..|replayed| - 1]);
    var n := replayed[|replayed| - 1].number;
    if n > h then n else h
  }

  /** Popping the front is removing everything acknowledged, because the queue holds
      consecutive numbers. */
  lemma {:induction false} PopAckedIsUnacked(items: seq<Record>, upTo: nat)
    requires Consecutive(items)
    ensures PopAcked(items, upTo) == Unacked(items, upTo)
    decreases |items|
  {
    if items != [] {
      if items[0].number <= upTo {
        PopAckedIsUnacked(items[1..], upTo);
      } else {
        NothingAcked(items, upTo);
      }
    }
  }

  lemma {:induction false} NothingAcked(items: seq<Record>, upTo: nat)
    requires forall i :: 0 <= i < |items| ==> items[i].number > upTo
    ensures Unacked(items, upTo) == items
    decreases |items|
  {
    if items != [] {
      NothingAcked(items[1..], upTo);
    }
  }

  class Outbox {
    var items: seq<Record>

    constructor ()
      ensures items == []
    {
      items := [];
    }

    method Push(number: nat, bytes: Bytes)
      modifies this
      ensures items == old(items) + [Record(number, bytes)]
    {
      items := items + [Record(number, bytes)];
    }

    method AckUpTo(upTo: nat)
      modifies this
      ensures items == PopAcked(old(items), upTo)
      ensures Consecutive(old(items)) ==> items == Unacked(old(items), upTo)
    {
      ghost var start := items;
      while items != [] && items[0].number <= upTo
        invariant PopAcked(items, upTo) == PopAcked(start, upTo)
        decreases |items|
      {
        items := items[1..];
      }
      if Consecutive(start) {
        PopAckedIsUnacked(start, upTo);
      }
    }

    method Snapshot() returns (copy: seq<Record>)
      ensures copy == items
    {
      copy := items;
    }
  }

  /** Start-up: the queue is the log's unacknowledged records and numbering resumes
      after the highest number seen. */
  method Recover(wal: Wal.Wal) returns (outbox: Outbox, next: nat)
    requires wal.Valid()
    ensures fresh(outbox)
    ensures outbox.items == Replay(wal.file, wal.lastAcked)
    ensures next == NextNumber(wal.lastAcked, Replay(wal.file, wal.lastAcked))
  {
    hide Replay;
    outbox := new Outbox();
    var maxReplayed := wal.lastAcked;
    var handed, count := wal.ReplayUnacked();
    for i := 0 to |handed|
      invariant outbox.items == handed[..i]
      invariant maxReplayed == Highest(wal.lastAcked, handed[..i])
    {
      assert handed[..i + 1][..i] == handed[..i];
      outbox.Push(handed[i].number, handed[i].payload);
      if handed[i].number > maxReplayed {
        maxReplayed := handed[i].number;
      }
    }
    assert handed[..|handed|] == handed;
    next := maxReplayed + 1;
  }
}
