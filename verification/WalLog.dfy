/** What the bytes of a write-ahead log mean: the records a decode loop finds in
    them, what is left over, and how appending, tearing, damaging and compacting a
    log change what replay returns. */
module WalLog {
  import opened Basics
  import opened Options
  import opened WalRecordCodec
  import opened Octets
  import Crc32

  /** The records a decode loop finds from the start of the log. */
  function Records(log: Bytes): seq<Record>
    decreases |log|
  {
    match Decode(log)
    case None => []
    case Some(r) => [r] + Records(log[r.Size()..])
  }

  /** The bytes the decode loop stops at. */
  function Residue(log: Bytes): Bytes
    decreases |log|
  {
    match Decode(log)
    case None => log
    case Some(r) => Residue(log[r.Size()..])
  }

  /** The decode loop consumes the log to its last byte. */
  predicate Clean(log: Bytes) {
    Residue(log) == []
  }

  function EncodeAll(rs: seq<Record>): Bytes {
    if rs == [] then [] else Encode(rs[0]) + EncodeAll(rs[1..])
  }

  predicate AllValid(rs: seq<Record>) {
    forall i :: 0 <= i < |rs| ==> rs[i].Valid()
  }

  /** The records numbered above the checkpoint, in log order. */
  function Unacked(rs: seq<Record>, acked: nat): seq<Record> {
    if rs == [] then [] else
    (if rs[0].number > acked then [rs[0]] else []) + Unacked(rs[1..], acked)
  }

  /** What replay hands to its callback. */
  function Replay(log: Bytes, acked: nat): seq<Record> {
    Unacked(Records(log), acked)
  }

  /** The log that compaction writes. */
  function Compacted(log: Bytes, acked: nat): Bytes {
    EncodeAll(Replay(log, acked))
  }

  // ----- Logs are encoded records plus an undecodable rest -----

  lemma UnrollOnce(log: Bytes, r: Record)
    requires Decode(log) == Some(r)
    ensures log == Encode(r) + log[r.Size()..] && r.Valid()
    ensures Records(log) == [r] + Records(log[r.Size()..])
    ensures Residue(log) == Residue(log[r.Size()..])
  {
    hide Decode, Encode;
    EncodeOfDecode(log);
  }

  lemma EncodeAllCons(r: Record, rs: seq<Record>)
    requires r.Valid() && AllValid(rs)
    ensures EncodeAll([r] + rs) == Encode(r) + EncodeAll(rs) && AllValid([r] + rs)
  {
    hide Encode;
    assert ([r] + rs)[1..] == rs;
  }

  lemma {:induction false} Decompose(log: Bytes)
    ensures log == EncodeAll(Records(log)) + Residue(log)
    ensures Decode(Residue(log)) == None
    ensures AllValid(Records(log))
    decreases |log|
  {
    hide Decode, Encode, Records, Residue, EncodeAll, AllValid;
    match Decode(log)
    case None => StopsHere(log);
    case Some(r) =>
      UnrollOnce(log, r);
      var rest := log[r.Size()..];
      Decompose(rest);
      EncodeAllCons(r, Records(rest));
      Regroup(Encode(r), EncodeAll(Records(rest)), Residue(rest));
  }

  lemma StopsHere(log: Bytes)
    requires Decode(log) == None
    ensures Residue(log) == log && AllValid(Records(log)) && EncodeAll(Records(log)) + log == log
  {
    hide Decode;
  }

  lemma Regroup(a: Bytes, b: Bytes, c: Bytes)
    ensures a + (b + c) == a + b + c
  {
  }

  lemma {:induction false} Compose(rs: seq<Record>, rest: Bytes)
    requires AllValid(rs) && Decode(rest) == None
    ensures Records(EncodeAll(rs) + rest) == rs
    ensures Residue(EncodeAll(rs) + rest) == rest
    decreases |rs|
  {
    hide Decode, Encode;
    if rs == [] {
      assert EncodeAll(rs) + rest == rest;
    } else {
      var tail := EncodeAll(rs[1..]) + rest;
      Compose(rs[1..], rest);
      assert EncodeAll(rs) + rest == Encode(rs[0]) + tail;
      DecodeOfEncode(rs[0], tail);
      assert (Encode(rs[0]) + tail)[rs[0].Size()..] == tail;
    }
  }

  lemma {:induction false} EncodeAllConcat(rs: seq<Record>, ts: seq<Record>)
    ensures EncodeAll(rs + ts) == EncodeAll(rs) + EncodeAll(ts)
    decreases |rs|
  {
    hide Encode;
    if rs == [] {
      assert rs + ts == ts;
    } else {
      assert (rs + ts)[1..] == rs[1..] + ts;
      EncodeAllConcat(rs[1..], ts);
    }
  }

  lemma EncodeAllOne(r: Record)
    ensures EncodeAll([r]) == Encode(r)
  {
    hide Encode;
    assert EncodeAll([r][1..]) == [];
    assert Encode(r) + [] == Encode(r);
  }

  lemma EmptyDoesNotDecode()
    ensures Decode([]) == None
  {
  }

  /** A log that is nothing but encoded records is read back exactly. */
  lemma RecordsOfEncodeAll(rs: seq<Record>)
    requires AllValid(rs)
    ensures Records(EncodeAll(rs)) == rs && Clean(EncodeAll(rs))
  {
    hide Decode;
    EmptyDoesNotDecode();
    Compose(rs, []);
    assert EncodeAll(rs) + [] == EncodeAll(rs);
  }

  // ----- Filtering by checkpoint -----

  lemma {:induction false} UnackedConcat(rs: seq<Record>, ts: seq<Record>, acked: nat)
    ensures Unacked(rs + ts, acked) == Unacked(rs, acked) + Unacked(ts, acked)
    decreases |rs|
  {
    if rs == [] {
      assert rs + ts == ts;
    } else {
      assert (rs + ts)[1..] == rs[1..] + ts;
      UnackedConcat(rs[1..], ts, acked);
    }
  }

  lemma {:induction false} UnackedAgain(rs: seq<Record>, acked: nat, later: nat)
    requires acked <= later
    ensures Unacked(Unacked(rs, acked), later) == Unacked(rs, later)
    decreases |rs|
  {
    if rs != [] {
      UnackedAgain(rs[1..], acked, later);
      var kept := Unacked(rs[1..], acked);
      if rs[0].number > acked {
        assert ([rs[0]] + kept)[1..] == kept;
      } else {
        assert Unacked(rs, acked) == [] + kept == kept;
      }
    }
  }

  // ----- Compaction -----

  lemma {:induction false} UnackedValid(rs: seq<Record>, acked: nat)
    requires AllValid(rs)
    ensures AllValid(Unacked(rs, acked))
    decreases |rs|
  {
    if rs != [] {
      UnackedValid(rs[1..], acked);
    }
  }

  /** Whatever the file holds, torn or corrupt bytes included, compaction leaves
      exactly the replayed records, consumes to its last byte, is idempotent, and no
      acknowledgement made later can tell the difference. */
  lemma CompactKeepsReplay(log: Bytes, acked: nat, later: nat)
    requires acked <= later
    ensures Replay(Compacted(log, acked), later) == Replay(log, later)
    ensures Records(Compacted(log, acked)) == Replay(log, acked)
    ensures Clean(Compacted(log, acked))
    ensures Compacted(Compacted(log, acked), acked) == Compacted(log, acked)
  {
    hide Records, Unacked, Clean, EncodeAll;
    Decompose(log);
    UnackedValid(Records(log), acked);
    RecordsOfEncodeAll(Replay(log, acked));
    UnackedAgain(Records(log), acked, later);
    UnackedAgain(Records(log), acked, acked);
  }

  // ----- Appending -----

  /** On a clean log an appended record is the one more record replay finds. */
  lemma AppendToClean(log: Bytes, r: Record)
    requires Clean(log) && r.Valid()
    ensures Records(log + Encode(r)) == Records(log) + [r]
    ensures Clean(log + Encode(r))
  {
    hide Encode, EncodeAll, Records, Residue;
    Decompose(log);
    EncodeAllConcat(Records(log), [r]);
    EncodeAllOne(r);
    assert log == EncodeAll(Records(log));
    RecordsOfEncodeAll(Records(log) + [r]);
  }

  /** A write cut short by a crash adds no record, and leaves the log unclean unless
      nothing was written. */
  lemma TornAppend(log: Bytes, r: Record, cut: nat)
    requires Clean(log) && r.Valid() && cut < r.Size()
    ensures Records(log + Encode(r)[..cut]) == Records(log)
    ensures Clean(log + Encode(r)[..cut]) <==> cut == 0
  {
    Decompose(log);
    assert EncodeAll(Records(log)) + [] == EncodeAll(Records(log));
    TornRecord(r, cut);
    Compose(Records(log), Encode(r)[..cut]);
  }

  /** The empty record numbered 1. */
  const PROBE: Record := Record(1, [])

  lemma {:induction false} ZeroBits(k: nat)
    ensures BitsOf(0, k) == 0
  {
    if k > 0 {
      ZeroBits(k - 1);
    }
  }

  lemma {:induction false} ZeroBytes(w: nat)
    ensures forall k :: 0 <= k < w ==> LittleEndian(0, w)[k] == 0
  {
    if w > 0 {
      ZeroBits(8);
      ZeroBytes(w - 1);
    }
  }

  lemma ByteOne()
    ensures ByteOf(1) == 1
  {
    ZeroBits(7);
    assert BitsOf(1, 8) == (BitsOf(0, 7) << 1) | 1;
  }

  lemma NumberOne()
    ensures LittleEndian(1, 8)[0] == 1
    ensures forall k :: 1 <= k < 8 ==> LittleEndian(1, 8)[k] == 0
  {
    hide LittleEndian, ByteOf;
    ByteOne();
    ZeroBytes(7);
    LittleEndianStep(1, 8);
  }

  lemma LittleEndianStep(n: nat, w: nat)
    requires w > 0
    ensures LittleEndian(n, w) == [ByteOf(n % 256)] + LittleEndian(n / 256, w - 1)
  {
  }

  lemma ChecksumOfNothing()
    ensures CrcBytes(Crc32.Checksum([])) == [0, 0, 0, 0]
  {
    assert Crc32.Checksum([]) == 0;
  }

  lemma ProbeBytes()
    ensures |Encode(PROBE)| == HEADER_BYTES
    ensures Encode(PROBE)[0] == 1
    ensures forall k :: 1 <= k < HEADER_BYTES ==> Encode(PROBE)[k] == 0
  {
    hide LittleEndian, CrcBytes, Crc32.Checksum;
    NumberOne();
    ZeroBytes(4);
    ChecksumOfNothing();
    assert Encode(PROBE) == LittleEndian(1, 8) + LittleEndian(0, 4) + CrcBytes(Crc32.Checksum([]));
  }

  /** If replay finds a record appended to an unclean log, the log's tail is the beginning of
      that record's encoding, which repeats itself at that distance. */
  lemma FoundBehindTail(log: Bytes, r: Record)
    requires !Clean(log) && r.Valid() && Records(log + Encode(r)) == Records(log) + [r]
    ensures 0 < |Residue(log)| < r.Size() && Residue(log) == Encode(r)[..|Residue(log)|]
    ensures forall i | 0 <= i && i + |Residue(log)| < r.Size() :: Encode(r)[i + |Residue(log)|] == Encode(r)[i]
  {
    hide Decode, Encode, EncodeAll, Records, Residue;
    var tail, e := Residue(log), Encode(r);
    Decompose(log);
    Decompose(log + e);
    EncodeAllConcat(Records(log), [r]);
    EncodeAllOne(r);
    var rest := Residue(log + e);
    var prefix := EncodeAll(Records(log));
    assert log + e == prefix + (tail + e);
    assert log + e == prefix + (e + rest);
    SamePrefix(prefix, tail + e, e + rest);
    TailRepeats(tail, e, rest);
    if |e| <= |tail| {
      DecodeIff(tail, r);
    }
  }

  lemma TailRepeats(tail: Bytes, e: Bytes, rest: Bytes)
    requires tail + e == e + rest
    ensures |e| <= |tail| ==> e <= tail
    ensures |tail| < |e| ==> tail == e[..|tail|]
    ensures forall i | 0 <= i && i + |tail| < |e| :: e[i + |tail|] == e[i]
  {
    var s := tail + e;
    assert |e| <= |tail| ==> s[..|e|] == tail[..|e|];
    assert |tail| < |e| ==> s[..|tail|] == e[..|tail|];
    forall i | 0 <= i && i + |tail| < |e|
      ensures e[i + |tail|] == e[i]
    {
      assert s[i + |tail|] == e[i];
    }
  }

  /** The first eight bytes hold the number. */
  lemma NumberBytes(n: nat, payload: Bytes)
    ensures var e := Encode(Record(n, payload));
            |e| == HEADER_BYTES + |payload| && e[..8] == LittleEndian(n, 8) && e[8] == LittleEndian(|payload|, 4)[0]
  {
    hide LittleEndian, CrcBytes, Crc32.Checksum;
  }

  /** The ninth byte is the low byte of the length. */
  lemma NinthByte(n: nat, payload: Bytes)
    requires |payload| <= 1
    ensures Encode(Record(n, payload))[8] == if payload == [] then 0 else 1
  {
    hide Encode, LittleEndian, ByteOf;
    NumberBytes(n, payload);
    LittleEndianStep(|payload|, 4);
    ByteZero();
    ByteOne();
  }

  lemma ByteZero()
    ensures ByteOf(0) == 0
  {
    ZeroBits(8);
  }

  /** Two byte strings that begin with one tail, repeat at its length and share their first
      eight bytes share the ninth. */
  lemma NinthBytesAgree(e: Bytes, z: Bytes, p: nat)
    requires 0 < p < |e| && p < |z| && 8 < |e| && 8 < |z| && e[..p] == z[..p] && e[..8] == z[..8]
    requires forall i | 0 <= i && i + p < |e| :: e[i + p] == e[i]
    requires forall i | 0 <= i && i + p < |z| :: z[i + p] == z[i]
    ensures e[8] == z[8]
  {
    if p > 8 {
      assert e[8] == e[..p][8] && z[8] == z[..p][8];
    } else {
      var i := 8 - p;
      assert e[i] == e[..8][i] && z[i] == z[..8][i];
      assert e[i + p] == e[i] && z[i + p] == z[i];
    }
  }

  /** An unclean log loses one of the two shortest records of any number. */
  lemma OneOfTwoLost(log: Bytes, n: nat)
    requires !Clean(log) && n < TWO_TO_64
    ensures exists p | p == [] || p == [0] :: Records(log + Encode(Record(n, p))) != Records(log) + [Record(n, p)]
  {
    hide Decode, Encode, Records, Residue, LittleEndian;
    var empty, zero := Record(n, []), Record(n, [0]);
    if Records(log + Encode(empty)) == Records(log) + [empty] && Records(log + Encode(zero)) == Records(log) + [zero] {
      FoundBehindTail(log, empty);
      FoundBehindTail(log, zero);
      NumberBytes(n, []);
      NumberBytes(n, [0]);
      NinthBytesAgree(Encode(empty), Encode(zero), |Residue(log)|);
      NinthByte(n, []);
      NinthByte(n, [0]);
    }
  }

  /** Whatever number comes next, appending it is safe for every payload exactly when the log
      ends cleanly, which a caller can check by running the decode loop to its end. */
  lemma AppendSafeIffClean(log: Bytes, n: nat)
    requires n < TWO_TO_64
    ensures Clean(log) <==>
            forall p: Bytes | |p| <= MAX_PAYLOAD_BYTES ::
              Records(log + Encode(Record(n, p))) == Records(log) + [Record(n, p)]
  {
    hide Encode, Records, Clean;
    if Clean(log) {
      forall p: Bytes | |p| <= MAX_PAYLOAD_BYTES
        ensures Records(log + Encode(Record(n, p))) == Records(log) + [Record(n, p)]
      {
        AppendToClean(log, Record(n, p));
      }
    } else {
      OneOfTwoLost(log, n);
    }
  }

  // ----- A log that grows while it is compacted -----

  lemma {:induction false} AppendAllToClean(log: Bytes, more: seq<Record>)
    requires Clean(log) && AllValid(more)
    ensures Records(log + EncodeAll(more)) == Records(log) + more
    decreases |more|
  {
    hide Encode, Records, Clean;
    if more == [] {
      assert log + EncodeAll(more) == log;
    } else {
      var grown := log + Encode(more[0]);
      AppendToClean(log, more[0]);
      AppendAllToClean(grown, more[1..]);
      assert log + EncodeAll(more) == grown + EncodeAll(more[1..]);
      assert Records(log) + [more[0]] + more[1..] == Records(log) + more;
    }
  }

  /** Replacing a log by its compaction as of an earlier read loses nothing exactly when
      everything appended since the read is acknowledged. */
  lemma StaleCompactionIff(log: Bytes, more: seq<Record>, acked: nat, later: nat)
    requires Clean(log) && AllValid(more) && acked <= later
    ensures Replay(Compacted(log, acked), later) == Replay(log + EncodeAll(more), later) <==> Unacked(more, later) == []
  {
    hide Records, Clean, EncodeAll, Unacked;
    CompactKeepsReplay(log, acked, later);
    AppendAllToClean(log, more);
    UnackedConcat(Records(log), more, later);
    assert Replay(log, later) + [] == Replay(log, later);
  }

  // ----- Truncated and damaged logs -----

  lemma PrefixIsValid(rs: seq<Record>, k: nat)
    requires AllValid(rs) && k <= |rs|
    ensures AllValid(rs[..k])
    ensures k < |rs| ==> rs[k].Valid()
  {
  }

  /** Cutting a log at any byte keeps exactly the records lying wholly before the cut. */
  lemma TruncatedLog(rs: seq<Record>, k: nat, cut: nat, acked: nat)
    requires AllValid(rs) && k <= |rs|
    requires |EncodeAll(rs[..k])| <= cut <= |EncodeAll(rs)|
    requires k < |rs| ==> cut < |EncodeAll(rs[..k + 1])|
    ensures Records(EncodeAll(rs)[..cut]) == rs[..k]
    ensures Replay(EncodeAll(rs)[..cut], acked) == Unacked(rs[..k], acked)
  {
    hide Decode, Encode, Records, AllValid;
    PrefixIsValid(rs, k);
    var whole := EncodeAll(rs[..k]);
    assert rs == rs[..k] + rs[k..];
    EncodeAllConcat(rs[..k], rs[k..]);
    if k == |rs| {
      assert rs[..k] == rs && EncodeAll(rs)[..cut] == EncodeAll(rs);
      RecordsOfEncodeAll(rs);
    } else {
      var r := rs[k];
      assert rs[..k + 1] == rs[..k] + [r];
      EncodeAllConcat(rs[..k], [r]);
      EncodeAllOne(r);
      assert EncodeAll(rs[k..]) == Encode(r) + EncodeAll(rs[k..][1..]);
      var torn := cut - |whole|;
      assert EncodeAll(rs)[..cut] == whole + Encode(r)[..torn];
      TornRecord(r, torn);
      Compose(rs[..k], Encode(r)[..torn]);
    }
  }

  /** Every cut point has its records wholly before it. */
  lemma CutPoint(rs: seq<Record>, cut: nat) returns (k: nat)
    requires cut <= |EncodeAll(rs)|
    ensures k <= |rs| && |EncodeAll(rs[..k])| <= cut
    ensures k < |rs| ==> cut < |EncodeAll(rs[..k + 1])|
  {
    hide Encode;
    k := 0;
    assert rs[..0] == [];
    while k < |rs| && |EncodeAll(rs[..k + 1])| <= cut
      invariant k <= |rs| && |EncodeAll(rs[..k])| <= cut
    {
      k := k + 1;
    }
  }

  /** Damage to at most four consecutive payload bytes of one record hides that record
      and the ones after it, and nothing before it. */
  lemma DamagedLog(rs: seq<Record>, k: nat, at: nat, patch: Bytes, acked: nat)
    requires AllValid(rs) && k < |rs|
    requires |patch| <= 4 && at + |patch| <= |rs[k].payload|
    requires patch != rs[k].payload[at..at + |patch|]
    ensures var p := rs[k].payload;
            var damaged := Header(rs[k]) + (p[..at] + patch + p[at + |patch|..]);
            Replay(EncodeAll(rs[..k]) + (damaged + EncodeAll(rs[k + 1..])), acked) == Unacked(rs[..k], acked)
  {
    hide Decode, Header;
    var p := rs[k].payload;
    var rest := EncodeAll(rs[k + 1..]);
    DamagedRecord(rs[k], at, patch, rest);
    Compose(rs[..k], Header(rs[k]) + (p[..at] + patch + p[at + |patch|..]) + rest);
  }
}
