/** The agent's write-ahead log: an append-only file of records and a checkpoint file
    that is replaced atomically. */
module Wal {
  import opened Basics
  import Crc32
  import opened Options
  import opened WalRecordCodec
  import opened WalLog

  /** The checkpoint a file holds: anything but exactly eight bytes means nothing was
      acknowledged. */
  function CheckpointValue(data: Bytes): nat {
    if |data| == 8 then Value(data) else 0
  }

  lemma CheckpointRoundTrip(n: nat)
    requires n < TWO_TO_64
    ensures CheckpointValue(LittleEndian(n, 8)) == n
  {
    Limits();
    ValueOfLittleEndian(n, 8);
  }

  lemma {:induction false} NoneUpToZero(rs: seq<Record>)
    requires forall r | r in rs :: r.number >= 1
    ensures Unacked(rs, 0) == rs
  {
    if rs != [] {
      NoneUpToZero(rs[1..]);
      assert rs == [rs[0]] + rs[1..];
    }
  }

  /** A missing or malformed checkpoint errs towards replay: every record of the log is
      handed out again.  Eight bytes skip exactly the numbers up to the one they spell. */
  lemma CheckpointErrsTowardsReplay(log: Bytes, data: Bytes)
    ensures |data| != 8 && (forall r | r in Records(log) :: r.number >= 1) ==>
              Replay(log, CheckpointValue(data)) == Records(log)
    ensures |data| == 8 ==> Replay(log, CheckpointValue(data)) == Unacked(Records(log), Value(data))
  {
    hide Records, Value;
    if |data| != 8 && (forall r | r in Records(log) :: r.number >= 1) {
      NoneUpToZero(Records(log));
    }
  }

  lemma ReplayStep(data: Bytes, offset: nat, r: Record, acked: nat)
    requires offset <= |data| && Decode(data[offset..]) == Some(r)
    ensures Replay(data[offset..], acked)
         == (if r.number > acked then [r] else []) + Replay(data[offset + r.Size()..], acked)
  {
    hide Decode;
    var rest := data[offset + r.Size()..];
    assert data[offset..][r.Size()..] == rest;
    assert Records(data[offset..]) == [r] + Records(rest);
    assert ([r] + Records(rest))[1..] == Records(rest);
  }

  class Wal {
    var file: Bytes
    var checkpoint: Bytes
    var lastAcked: nat

    /** The cached checkpoint is the one a restart would load. */
    ghost predicate Valid()
      reads this
    {
      lastAcked == CheckpointValue(checkpoint)
    }

    constructor (file: Bytes, checkpoint: Bytes)
      ensures Valid() && this.file == file && this.checkpoint == checkpoint
    {
      this.file, this.checkpoint := file, checkpoint;
      lastAcked := 0;
      if |checkpoint| == 8 {
        lastAcked := Value(checkpoint);
      }
    }

    method Append(number: nat, payload: Bytes)
      requires number < TWO_TO_64
      modifies this`file
      ensures file == old(file) + Encode(Record(number, payload))
    {
      var record := EncodeRecord(number, payload);
      file := file + record;
    }

    /** The checkpoint only ever rises, and a restart sees it. */
    method Acknowledge(upTo: nat)
      requires Valid() && upTo < TWO_TO_64
      modifies this`checkpoint, this`lastAcked
      ensures Valid()
      ensures lastAcked == if upTo <= old(lastAcked) then old(lastAcked) else upTo
      ensures upTo <= old(lastAcked) ==> checkpoint == old(checkpoint)
    {
      if upTo <= lastAcked {
        return;
      }
      CheckpointRoundTrip(upTo);
      checkpoint := LittleEndian(upTo, 8);
      lastAcked := upTo;
    }

    /** Hands every record above the checkpoint to the callback, in log order, up to
        the first torn or damaged one. */
    method ReplayUnacked() returns (handed: seq<Record>, replayed: nat)
      requires Valid()
      ensures handed == Replay(file, lastAcked)
      ensures replayed == |handed|
    {
      hide Replay, Decode, Value, Crc32.Checksum;
      var data := file;
      var offset: nat, number: nat, payload: Bytes := 0, 0, [];
      handed, replayed := [], 0;
      assert data[0..] == data;
      while true
        invariant offset <= |data| && replayed == |handed|
        invariant Replay(data, lastAcked) == handed + Replay(data[offset..], lastAcked)
        decreases |data| - offset
      {
        var start := offset;
        var ok: bool;
        ok, offset, number, payload := DecodeRecord(data, offset, number, payload);
        if !ok {
          NothingToReplay(data[offset..], lastAcked);
          break;
        }
        ReplayStep(data, start, Record(number, payload), lastAcked);
        if number > lastAcked {
          handed := handed + [Record(number, payload)];
          replayed := replayed + 1;
        }
      }
    }

    /** Rewrites the log to its unacknowledged records. */
    method Compact()
      requires Valid()
      modifies this`file
      ensures file == Compacted(old(file), lastAcked)
      ensures Clean(file) && Replay(file, lastAcked) == Replay(old(file), lastAcked)
    {
      hide Replay, Decode, Encode, Clean, Value, Crc32.Checksum, Records;
      var kept: Bytes := [];
      var data := file;
      var offset: nat, number: nat, payload: Bytes := 0, 0, [];
      assert data[0..] == data;
      while true
        invariant offset <= |data| && data == file == old(file)
        invariant Compacted(data, lastAcked) == kept + Compacted(data[offset..], lastAcked)
        decreases |data| - offset
      {
        var start := offset;
        var ok: bool;
        ok, offset, number, payload := DecodeRecord(data, offset, number, payload);
        if !ok {
          NothingToReplay(data[offset..], lastAcked);
          break;
        }
        var r := Record(number, payload);
        DecodedIsValid(data[start..]);
        ReplayStep(data, start, r, lastAcked);
        if number > lastAcked {
          EncodeAllConcat([r], Replay(data[offset..], lastAcked));
          EncodeAllOne(r);
          var record := EncodeRecord(number, payload);
          kept := kept + record;
        } else {
          assert [] + Replay(data[offset..], lastAcked) == Replay(data[offset..], lastAcked);
        }
      }
      CompactKeepsReplay(data, lastAcked, lastAcked);
      file := kept;
    }
  }

  lemma NothingToReplay(log: Bytes, acked: nat)
    requires Decode(log) == None
    ensures Replay(log, acked) == []
  {
    hide Decode;
  }

  lemma DecodedIsValid(log: Bytes)
    requires Decode(log).Some?
    ensures Decode(log).value.Valid()
  {
    hide Decode;
    EncodeOfDecode(log);
  }
}
