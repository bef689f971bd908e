/** The record framing of the write-ahead log:
    8 bytes sequence number, 4 bytes payload length, 4 bytes CRC-32 of the payload
    (all little-endian), then the payload. */
module WalRecordCodec {
  import opened Basics
  import Crc32
  import opened Octets
  import opened Options

  type Bytes = seq<bv8>

  const HEADER_BYTES: nat := 16
  const MAX_PAYLOAD_BYTES: nat := 16 * 1024 * 1024
  const TWO_TO_32: nat := 0x1_0000_0000

  datatype Record = Record(number: nat, payload: Bytes) {
    /** What the framing can carry: a 64-bit number and a payload under the sanity cap. */
    predicate Valid() {
      number < TWO_TO_64 && |payload| <= MAX_PAYLOAD_BYTES
    }

    function Size(): nat {
      HEADER_BYTES + |payload|
    }
  }

  // ----- Integers in memory order -----

  /** The w low-order bytes of n, least significant first: what copying a machine
      integer of w bytes out of memory yields on a little-endian machine. */
  function LittleEndian(n: nat, w: nat): (b: Bytes)
    ensures |b| == w
    decreases w
  {
    if w == 0 then [] else [ByteOf(n % 256)] + LittleEndian(n / 256, w - 1)
  }

  function Value(b: Bytes): nat
    decreases |b|
  {
    if b == [] then 0 else ByteValue(b[0]) + 256 * Value(b[1..])
  }

  function Limit(w: nat): (p: nat)
    ensures p > 0
  {
    if w == 0 then 1 else 256 * Limit(w - 1)
  }

  /** Writing then reading keeps every number that fits. */
  lemma {:induction false} ValueOfLittleEndian(n: nat, w: nat)
    requires n < Limit(w)
    ensures Value(LittleEndian(n, w)) == n
    decreases w
  {
    hide ByteOf, ByteValue;
    if w > 0 {
      assert n / 256 < Limit(w - 1);
      ValueOfLittleEndian(n / 256, w - 1);
      ValueOfByte(n % 256);
      assert LittleEndian(n, w)[1..] == LittleEndian(n / 256, w - 1);
    }
  }

  /** Reading then writing keeps every byte string. */
  lemma {:induction false} LittleEndianOfValue(b: Bytes)
    ensures LittleEndian(Value(b), |b|) == b
    ensures Value(b) < Limit(|b|)
    decreases |b|
  {
    hide ByteOf, ByteValue;
    if b != [] {
      LittleEndianOfValue(b[1..]);
      ByteOfValue(b[0]);
      assert Value(b) % 256 == ByteValue(b[0]) && Value(b) / 256 == Value(b[1..]);
      assert b == [b[0]] + b[1..];
    }
  }

  lemma SplitRemainder(n: nat, p: nat)
    requires p > 0
    ensures n % (256 * p) == n % 256 + 256 * (n / 256 % p)
  {
    var q, r := n / 256 / p, n / 256 % p;
    assert n / 256 == p * q + r;
    assert 256 * (p * q) == (256 * p) * q;
    assert n % 256 + 256 * r < 256 * p;
    Remainder(n, 256 * p, q, n % 256 + 256 * r);
  }

  /** A number too large for its field keeps its low-order bytes. */
  lemma {:induction false} ValueOfTruncated(n: nat, w: nat)
    ensures Value(LittleEndian(n, w)) == n % Limit(w)
    decreases w
  {
    hide ByteOf, ByteValue;
    if w > 0 {
      ValueOfTruncated(n / 256, w - 1);
      ValueOfByte(n % 256);
      SplitRemainder(n, Limit(w - 1));
      assert LittleEndian(n, w)[1..] == LittleEndian(n / 256, w - 1);
    }
  }

  lemma DivideTwice(n: nat, p: nat)
    requires p > 0
    ensures n / (256 * p) == n / 256 / p
  {
    var q, r := n / 256 / p, n / 256 % p;
    assert n / 256 == p * q + r;
    assert 256 * (p * q) == (256 * p) * q;
    Remainder(n, 256 * p, q, n % 256 + 256 * r);
  }

  /** Byte i of a stored number is its base-256 digit of weight 256^i. */
  lemma {:induction false} LittleEndianDigit(n: nat, w: nat, i: nat)
    requires i < w
    ensures LittleEndian(n, w)[i] as nat == n / Limit(i) % 256
    decreases w
  {
    hide ByteOf, ByteValue;
    if i == 0 {
      ValueOfByte(n % 256);
      ByteValueIsNumber(ByteOf(n % 256));
    } else {
      LittleEndianDigit(n / 256, w - 1, i - 1);
      DivideTwice(n, Limit(i - 1));
    }
  }

  lemma Limits()
    ensures Limit(4) == TWO_TO_32
    ensures Limit(8) == TWO_TO_64
  {
    assert Limit(4) == 256 * (256 * (256 * (256 * Limit(0))));
    assert Limit(8) == 256 * (256 * (256 * (256 * Limit(4))));
  }

  /** The stored form of a checksum. */
  function CrcBytes(c: bv32): (b: Bytes)
    ensures |b| == 4
  {
    [(c & 0xFF) as bv8, ((c >> 8) & 0xFF) as bv8, ((c >> 16) & 0xFF) as bv8, ((c >> 24) & 0xFF) as bv8]
  }

  lemma CrcBytesInjective(c: bv32, d: bv32)
    requires CrcBytes(c) == CrcBytes(d)
    ensures c == d
  {
    var x, y := CrcBytes(c), CrcBytes(d);
    assert x[0] == y[0] && x[1] == y[1] && x[2] == y[2] && x[3] == y[3];
  }

  lemma FromBytes(a: bv8, b: bv8, c: bv8, d: bv8)
    ensures (a as bv32 | (b as bv32 << 8) | (c as bv32 << 16) | (d as bv32 << 24)) as nat
         == a as nat + 256 * (b as nat) + 65536 * (c as nat) + 16777216 * (d as nat)
  {
  }

  lemma Reassembled(c: bv32, b: Bytes)
    requires b == CrcBytes(c)
    ensures c == b[0] as bv32 | (b[1] as bv32 << 8) | (b[2] as bv32 << 16) | (b[3] as bv32 << 24)
  {
  }

  lemma ValueOfFour(b: Bytes)
    requires |b| == 4
    ensures Value(b) == b[0] as nat + 256 * (b[1] as nat) + 65536 * (b[2] as nat) + 16777216 * (b[3] as nat)
  {
    hide ByteValue;
    forall i | 0 <= i < 4 {
      ByteValueIsNumber(b[i]);
    }
    var tail := b[1..][1..];
    assert Value(b) == ByteValue(b[0]) + 256 * (ByteValue(b[1]) + 256 * Value(tail));
    assert Value(tail) == ByteValue(b[2]) + 256 * (ByteValue(b[3]) + 256 * Value(tail[1..][1..]));
  }

  /** Read like the other fields, the stored form of a checksum is the checksum. */
  lemma ValueOfCrcBytes(c: bv32)
    ensures Value(CrcBytes(c)) == c as nat
  {
    hide Value;
    var b := CrcBytes(c);
    Reassembled(c, b);
    FromBytes(b[0], b[1], b[2], b[3]);
    ValueOfFour(b);
  }

  // ----- Encoding and decoding -----

  /** The framing of a payload of any length: the length field keeps only its 32
      low-order bits. */
  function Header(r: Record): (h: Bytes)
    ensures |h| == HEADER_BYTES
  {
    LittleEndian(r.number, 8) + LittleEndian(|r.payload|, 4) + CrcBytes(Crc32.Checksum(r.payload))
  }

  function Encode(r: Record): (b: Bytes)
    ensures |b| == r.Size()
  {
    Header(r) + r.payload
  }

  function DeclaredLength(b: Bytes): nat
    requires |b| >= HEADER_BYTES
  {
    Value(b[8..12])
  }

  /** The record that starts a byte string, if there is one. */
  function Decode(b: Bytes): (r: Option<Record>)
    ensures r.Some? ==> |r.value.payload| <= MAX_PAYLOAD_BYTES && r.value.Size() <= |b|
  {
    if |b| < HEADER_BYTES then None else
    var len := DeclaredLength(b);
    if len > MAX_PAYLOAD_BYTES || HEADER_BYTES + len > |b| then None else
    var payload := b[HEADER_BYTES..HEADER_BYTES + len];
    if CrcBytes(Crc32.Checksum(payload)) != b[12..16] then None else
    Some(Record(Value(b[..8]), payload))
  }

  /** What the decoder reads from the header of a valid record. */
  lemma HeaderFields(r: Record, b: Bytes)
    requires r.Valid() && HEADER_BYTES <= |b| && b[..HEADER_BYTES] == Header(r)
    ensures Value(b[..8]) == r.number
    ensures DeclaredLength(b) == |r.payload|
    ensures b[12..16] == CrcBytes(Crc32.Checksum(r.payload))
  {
    hide Crc32.Checksum, CrcBytes, LittleEndian, Value, Limit;
    Limits();
    ValueOfLittleEndian(r.number, 8);
    ValueOfLittleEndian(|r.payload|, 4);
    var h := Header(r);
    assert b[..8] == h[..8] == LittleEndian(r.number, 8);
    assert b[8..12] == h[8..12] == LittleEndian(|r.payload|, 4);
    assert b[12..16] == h[12..16] == CrcBytes(Crc32.Checksum(r.payload));
  }

  /** Whatever follows it, an encoded record decodes to itself. */
  lemma DecodeOfEncode(r: Record, rest: Bytes)
    requires r.Valid()
    ensures Decode(Encode(r) + rest) == Some(r)
  {
    hide Crc32.Checksum, CrcBytes, Value, Header, DeclaredLength;
    var b := Encode(r) + rest;
    assert b[..HEADER_BYTES] == Header(r);
    HeaderFields(r, b);
    assert b[HEADER_BYTES..HEADER_BYTES + |r.payload|] == r.payload;
  }

  /** What decodes was encoded. */
  lemma EncodeOfDecode(b: Bytes)
    requires Decode(b).Some?
    ensures var r := Decode(b).value; r.Valid() && b[..r.Size()] == Encode(r)
  {
    hide Crc32.Checksum, CrcBytes, LittleEndian, Value, Limit;
    var r := Decode(b).value;
    Limits();
    LittleEndianOfValue(b[..8]);
    LittleEndianOfValue(b[8..12]);
    assert b[..r.Size()] == b[..8] + b[8..12] + b[12..16] + b[16..r.Size()];
  }

  /** Decoding succeeds exactly on byte strings that begin with an encoded record,
      and returns that record. */
  lemma DecodeIff(b: Bytes, r: Record)
    ensures Decode(b) == Some(r) <==> r.Valid() && Encode(r) <= b
  {
    hide Decode, Encode;
    if Decode(b) == Some(r) {
      EncodeOfDecode(b);
      assert b == b[..r.Size()] + b[r.Size()..];
    }
    if r.Valid() && Encode(r) <= b {
      assert b == Encode(r) + b[r.Size()..];
      DecodeOfEncode(r, b[r.Size()..]);
    }
  }

  /** Where every field of a framed record lies and how it reads, for payloads of any
      length: the length field wraps at 2^32. */
  lemma FieldsOfEncode(r: Record)
    requires r.number < TWO_TO_64
    ensures |Encode(r)| == 16 + |r.payload|
    ensures Value(Encode(r)[..8]) == r.number
    ensures Value(Encode(r)[8..12]) == |r.payload| % 0x1_0000_0000
    ensures Value(Encode(r)[12..16]) == Crc32.Checksum(r.payload) as nat
    ensures Encode(r)[16..] == r.payload
  {
    hide Crc32.Checksum, CrcBytes, LittleEndian, Value, Limit;
    Limits();
    ValueOfLittleEndian(r.number, 8);
    ValueOfTruncated(|r.payload|, 4);
    ValueOfCrcBytes(Crc32.Checksum(r.payload));
    var b := Encode(r);
    assert b[..8] == LittleEndian(r.number, 8);
    assert b[8..12] == LittleEndian(|r.payload|, 4);
    assert b[12..16] == CrcBytes(Crc32.Checksum(r.payload));
  }

  lemma CrcMatches(b: Bytes, c: bv32)
    requires |b| == 4
    ensures b == CrcBytes(c) <==> Value(b) == c as nat
  {
    hide CrcBytes, Value, LittleEndian;
    ValueOfCrcBytes(c);
    LittleEndianOfValue(b);
    LittleEndianOfValue(CrcBytes(c));
  }

  /** A record is accepted exactly when a whole one is there: its header, a declared
      length within 16 MiB, that many more bytes, and their checksum. */
  lemma DecodeReads(b: Bytes, r: Record)
    ensures Decode(b) == Some(r) <==>
            && 16 <= |b|
            && Value(b[..8]) == r.number
            && Value(b[8..12]) == |r.payload| <= 16777216
            && 16 + |r.payload| <= |b|
            && b[16..16 + |r.payload|] == r.payload
            && Value(b[12..16]) == Crc32.Checksum(r.payload) as nat
  {
    hide Crc32.Checksum, CrcBytes, Value;
    if 16 <= |b| && 16 + Value(b[8..12]) <= |b| {
      CrcMatches(b[12..16], Crc32.Checksum(b[16..16 + Value(b[8..12])]));
    }
  }

  /** The cap is exact: the codec returns a framed record iff its payload is within it. */
  lemma RoundTripIffWithinCap(r: Record)
    requires r.number < TWO_TO_64
    ensures Decode(Encode(r)) == Some(r) <==> |r.payload| <= 16777216
  {
    if r.Valid() {
      DecodeOfEncode(r, []);
      assert Encode(r) + [] == Encode(r);
    }
  }

  /** A proper prefix of an encoded record holds no record: a torn write is never
      mistaken for a shorter one. */
  lemma TornRecord(r: Record, cut: nat)
    requires r.Valid() && cut < r.Size()
    ensures Decode(Encode(r)[..cut]) == None
  {
    hide Crc32.Checksum, CrcBytes, Value, Header, DeclaredLength;
    var b := Encode(r)[..cut];
    if HEADER_BYTES <= cut {
      assert b[..HEADER_BYTES] == Header(r);
      HeaderFields(r, b);
    }
  }

  /** A payload of the right length with the wrong checksum is not decoded. */
  lemma WrongChecksum(r: Record, damaged: Bytes, rest: Bytes)
    requires r.Valid() && |damaged| == |r.payload|
    requires Crc32.Checksum(damaged) != Crc32.Checksum(r.payload)
    ensures Decode(Header(r) + damaged + rest) == None
  {
    hide Crc32.Checksum, CrcBytes, Value, Header, DeclaredLength;
    var b := Header(r) + damaged + rest;
    assert b[..HEADER_BYTES] == Header(r);
    HeaderFields(r, b);
    assert b[HEADER_BYTES..HEADER_BYTES + |damaged|] == damaged;
    if CrcBytes(Crc32.Checksum(damaged)) == CrcBytes(Crc32.Checksum(r.payload)) {
      CrcBytesInjective(Crc32.Checksum(damaged), Crc32.Checksum(r.payload));
    }
  }

  /** Damaging up to four consecutive payload bytes leaves nothing to decode. */
  lemma DamagedRecord(r: Record, at: nat, patch: Bytes, rest: Bytes)
    requires r.Valid()
    requires |patch| <= 4 && at + |patch| <= |r.payload|
    requires patch != r.payload[at..at + |patch|]
    ensures Decode(Header(r) + (r.payload[..at] + patch + r.payload[at + |patch|..]) + rest) == None
  {
    hide Crc32.Checksum, Decode;
    var before, was, after := r.payload[..at], r.payload[at..at + |patch|], r.payload[at + |patch|..];
    assert r.payload == before + was + after;
    Crc32.BurstDetected(before, was, patch, after);
    WrongChecksum(r, before + patch + after, rest);
  }

  // ----- The code -----

  /** Copies bytes into a buffer in place. */
  method CopyInto(out: array<bv8>, at: nat, bytes: Bytes)
    requires at + |bytes| <= out.Length
    modifies out
    ensures out[..] == old(out[..at]) + bytes + old(out[at + |bytes|..])
  {
    for i := 0 to |bytes|
      invariant forall j :: 0 <= j < i ==> out[at + j] == bytes[j]
      invariant forall j :: 0 <= j < at || at + i <= j < out.Length ==> out[j] == old(out[j])
    {
      out[at + i] := bytes[i];
    }
  }

  method EncodeRecord(number: nat, payload: Bytes) returns (record: Bytes)
    requires number < TWO_TO_64
    ensures record == Encode(Record(number, payload))
    ensures |record| == 16 + |payload| && record[16..] == payload
    ensures Value(record[..8]) == number && Value(record[8..12]) == |payload| % 0x1_0000_0000
    ensures Value(record[12..16]) == Crc32.Checksum(payload) as nat
  {
    hide Crc32.Checksum, CrcBytes, LittleEndian, Value;
    FieldsOfEncode(Record(number, payload));
    var out := new bv8[HEADER_BYTES + |payload|];
    var crc := Crc32.Compute(payload);
    CopyInto(out, 0, LittleEndian(number, 8));
    CopyInto(out, 8, LittleEndian(|payload|, 4));
    CopyInto(out, 12, CrcBytes(crc));
    CopyInto(out, HEADER_BYTES, payload);
    record := out[..];
    assert record[..8] == LittleEndian(number, 8);
    assert record[8..12] == LittleEndian(|payload|, 4);
    assert record[12..16] == CrcBytes(crc);
    assert record == record[..8] + record[8..12] + record[12..16] + record[16..];
  }

  /** Decodes the record at offset; the offset, number and payload passed in come
      back unchanged when there is none. */
  method DecodeRecord(buf: Bytes, offset: nat, number: nat, payload: Bytes)
    returns (ok: bool, offset': nat, number': nat, payload': Bytes)
    ensures ok <==> offset <= |buf| && Decode(buf[offset..]).Some?
    ensures ok ==> Decode(buf[offset..]) == Some(Record(number', payload'))
    ensures ok ==> offset' == offset + Record(number', payload').Size() && offset < offset' <= |buf|
    ensures !ok ==> (offset', number', payload') == (offset, number, payload)
    ensures ok ==> buf[offset + 16..offset'] == payload' && Value(buf[offset..offset + 8]) == number'
    ensures ok ==> Value(buf[offset + 12..offset + 16]) == Crc32.Checksum(payload') as nat
  {
    hide Crc32.Checksum, CrcBytes, Value;
    ok, offset', number', payload' := false, offset, number, payload;
    if offset + HEADER_BYTES > |buf| {
      return;
    }
    assert buf[offset..][..8] == buf[offset..offset + 8];
    assert buf[offset..][8..12] == buf[offset + 8..offset + 12];
    assert buf[offset..][12..16] == buf[offset + 12..offset + 16];
    var recordNumber := Value(buf[offset..offset + 8]);
    var len := Value(buf[offset + 8..offset + 12]);
    if len > MAX_PAYLOAD_BYTES {
      return;
    }
    var recordEnd := offset + HEADER_BYTES + len;
    if recordEnd > |buf| {
      return;
    }
    var bytes := buf[offset + HEADER_BYTES..recordEnd];
    assert bytes == buf[offset..][HEADER_BYTES..HEADER_BYTES + len];
    var crc := Crc32.Compute(bytes);
    CrcMatches(buf[offset + 12..offset + 16], crc);
    if CrcBytes(crc) != buf[offset + 12..offset + 16] {
      return;
    }
    return true, recordEnd, recordNumber, bytes;
  }
}
