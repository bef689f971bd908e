/** The agent's three thread bodies: the producer's emit, the reader's handling of an
    acknowledgement, and the sender's pass over an outbox snapshot. */
module Agent {
  import opened Basics
  import opened WalRecordCodec
  import opened WalLog
  import Outbox
  import Wal
  import Delivery

  lemma ReplayAppended(log: Bytes, r: Record, acked: nat)
    requires Clean(log) && r.Valid() && acked < r.number
    ensures Clean(log + Encode(r)) && Replay(log + Encode(r), acked) == Replay(log, acked) + [r]
  {
    hide Records, Clean, Encode;
    AppendToClean(log, r);
    UnackedConcat(Records(log), [r], acked);
    assert Unacked([r], acked) == [r];
  }

  class Agent {
    const wal: Wal.Wal
    const outbox: Outbox.Outbox
    var next: nat

    /** Start-up: everything comes back from the disk. */
    constructor (wal: Wal.Wal)
      requires wal.Valid()
      ensures this.wal == wal && fresh(outbox)
      ensures outbox.items == Replay(wal.file, wal.lastAcked)
      ensures next == Outbox.NextNumber(wal.lastAcked, outbox.items)
    {
      hide Replay;
      var recovered, first := Outbox.Recover(wal);
      this.wal, outbox, next := wal, recovered, first;
    }

    /** The event is on disk before it is queued, under the next number. */
    method Emit(payload: Bytes)
      requires wal.Valid() && next < TWO_TO_64
      modifies this`next, wal, outbox
      ensures wal.Valid() && wal.lastAcked == old(wal.lastAcked)
      ensures wal.file == old(wal.file) + Encode(Record(old(next), payload))
      ensures outbox.items == old(outbox.items) + [Record(old(next), payload)]
      ensures next == old(next) + 1
      ensures Clean(old(wal.file)) && Record(old(next), payload).Valid() && wal.lastAcked < old(next) ==>
                && Clean(wal.file)
                && Replay(wal.file, wal.lastAcked)
                   == old(Replay(wal.file, wal.lastAcked)) + [Record(old(next), payload)]
    {
      hide Encode, Clean, Replay;
      wal.Append(next, payload);
      outbox.Push(next, payload);
      next := next + 1;
      if Clean(old(wal.file)) && Record(old(next), payload).Valid() && wal.lastAcked < old(next) {
        ReplayAppended(old(wal.file), Record(old(next), payload), wal.lastAcked);
      }
    }

    /** An acknowledgement empties the queue up to its number before the checkpoint moves. */
    method OnAck(upTo: nat)
      requires wal.Valid() && upTo < TWO_TO_64
      modifies wal, outbox
      ensures wal.Valid() && wal.file == old(wal.file)
      ensures outbox.items == Outbox.PopAcked(old(outbox.items), upTo)
      ensures wal.lastAcked == Delivery.Max(old(wal.lastAcked), upTo)
    {
      outbox.AckUpTo(upTo);
      wal.Acknowledge(upTo);
    }
  }

  // ----- The send pass -----

  /** What a pass sends: the entries above the highest number sent so far. */
  function Fresh(items: seq<Record>, lastSent: nat): seq<Record>
    decreases |items|
  {
    if items == [] then []
    else if items[0].number <= lastSent then Fresh(items[1..], lastSent)
    else [items[0]] + Fresh(items[1..], items[0].number)
  }

  lemma FreshStep(snapshot: seq<Record>, i: nat, last: nat)
    requires i < |snapshot|
    ensures Fresh(snapshot[i..], last) ==
            if snapshot[i].number <= last then Fresh(snapshot[i + 1..], last)
            else [snapshot[i]] + Fresh(snapshot[i + 1..], snapshot[i].number)
  {
    assert snapshot[i..][1..] == snapshot[i + 1..];
  }

  lemma OneSent(sent: seq<Record>, r: Record, rest: seq<Record>)
    ensures sent + ([r] + rest) == (sent + [r]) + rest
    ensures sent <= sent + ([r] + rest) && |sent + ([r] + rest)| > |sent|
  {
  }

  lemma FreshOfNothing(last: nat)
    ensures Fresh([], last) == []
  {
  }

  /** The pass writes until the stream fails; `writable` is how many writes it will take. */
  method SendPass(snapshot: seq<Record>, lastSent: nat, writable: nat) returns (sent: seq<Record>, last: nat, ok: bool)
    ensures sent <= Fresh(snapshot, lastSent)
    ensures ok <==> |Fresh(snapshot, lastSent)| <= writable
    ensures |sent| == if ok then |Fresh(snapshot, lastSent)| else writable
    ensures last == if sent == [] then lastSent else sent[|sent| - 1].number
  {
    hide Fresh;
    sent, last, ok := [], lastSent, true;
    assert snapshot[0..] == snapshot && [] + Fresh(snapshot, lastSent) == Fresh(snapshot, lastSent);
    for i := 0 to |snapshot|
      invariant Fresh(snapshot, lastSent) == sent + Fresh(snapshot[i..], last)
      invariant |sent| <= writable
      invariant last == if sent == [] then lastSent else sent[|sent| - 1].number
    {
      FreshStep(snapshot, i, last);
      var r := snapshot[i];
      if r.number > last {
        OneSent(sent, r, Fresh(snapshot[i + 1..], r.number));
        if |sent| == writable {
          ok := false;
          return;
        }
        sent := sent + [r];
        last := Delivery.Max(last, r.number);
      }
    }
    FreshOfNothing(last);
    assert snapshot[|snapshot|..] == [] && sent + [] == sent;
  }

  lemma {:induction false} FreshIsUnacked(items: seq<Record>, lastSent: nat)
    requires Outbox.Consecutive(items)
    ensures Fresh(items, lastSent) == Unacked(items, lastSent)
    decreases |items|
  {
    if items != [] {
      FreshIsUnacked(items[1..], lastSent);
      if items[0].number > lastSent {
        FreshIsUnacked(items[1..], items[0].number);
        Outbox.NothingAcked(items[1..], items[0].number);
        Outbox.NothingAcked(items[1..], lastSent);
      }
    }
  }

  /** The protocol model's send steps, taken until the snapshot is empty. */
  function SendAll(l: Delivery.Link): Delivery.Link
    decreases |l.todo|
  {
    if l.todo == [] then l else SendAll(Delivery.SendNext(l))
  }

  /** A whole pass of the protocol model writes what the loop writes: for a consecutive
      snapshot, every entry not yet sent on this connection, once and in order. */
  lemma {:induction false} PassSendsUnsent(l: Delivery.Link)
    requires Outbox.Consecutive(l.todo)
    ensures SendAll(l).sent == l.sent + Unacked(l.todo, l.lastSent)
    decreases |l.todo|
  {
    FreshIsUnacked(l.todo, l.lastSent);
    if l.todo != [] {
      var after := Delivery.SendNext(l);
      PassSendsUnsent(after);
      FreshIsUnacked(l.todo[1..], after.lastSent);
    }
  }
}
