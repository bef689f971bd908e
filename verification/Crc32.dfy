/** The CRC-32 of IEEE 802.3 (reflected polynomial 0xEDB88320) that guards every
    write-ahead-log payload.  The shift register is specified one message bit at a
    time; the table-driven byte loop is proved to compute the same register, and any
    damage confined to four consecutive bytes is proved to change the checksum. */
module Crc32 {
  /** A 32-bit register.  The wrapper keeps bit-level reasoning inside the small
      lemmas below; everything above them is equational. */
  datatype Word = Word(bits: bv32)

  const ZERO := Word(0)
  const ALL_ONES := Word(0xFFFFFFFF)
  const POLYNOMIAL := Word(0xEDB88320)

  function Xor(a: Word, b: Word): Word {
    Word(a.bits ^ b.bits)
  }

  function Half(a: Word): Word {
    Word(a.bits >> 1)
  }

  predicate Odd(a: Word) {
    a.bits & 1 == 1
  }

  function LowByte(a: Word): Word {
    Word(a.bits & 0xFF)
  }

  function DropByte(a: Word): Word {
    Word(a.bits >> 8)
  }

  function Double(w: Word): Word {
    Word(w.bits << 1)
  }

  function RaiseByte(a: Word): Word {
    Double(Double(Double(Double(Double(Double(Double(Double(a))))))))
  }

  function OfByte(b: bv8): Word {
    Word(b as bv32)
  }

  /** e lies in the low w bytes. */
  predicate LowBytes(e: Word, w: nat) {
    if w == 0 then e == ZERO
    else if w == 1 then e.bits & 0xFFFFFF00 == 0
    else if w == 2 then e.bits & 0xFFFF0000 == 0
    else w == 3 ==> e.bits & 0xFF000000 == 0
  }

  // ----- The reference: one message bit at a time -----

  /** The register after one message bit: the polynomial is applied exactly when the
      outgoing bit differs from the message bit. */
  function FeedBit(c: Word, bit: bool): Word {
    if Odd(c) != bit then Xor(POLYNOMIAL, Half(c)) else Half(c)
  }

  /** Feeds the k low bits of v, least significant first. */
  function FeedBits(c: Word, v: Word, k: nat): Word
    decreases k
  {
    if k == 0 then c else FeedBits(FeedBit(c, Odd(v)), Half(v), k - 1)
  }

  function Register(c: Word, data: seq<bv8>): Word
    decreases |data|
  {
    if data == [] then c else Register(FeedBits(c, OfByte(data[0]), 8), data[1..])
  }

  function Checksum(data: seq<bv8>): bv32 {
    Xor(Register(ALL_ONES, data), ALL_ONES).bits
  }

  // ----- Shifts with no message bit -----

  function BitStep(c: Word): Word {
    if Odd(c) then Xor(POLYNOMIAL, Half(c)) else Half(c)
  }

  function BitSteps(c: Word, k: nat): Word
    decreases k
  {
    if k == 0 then c else BitSteps(BitStep(c), k - 1)
  }

  // ----- Bit-level algebra -----

  lemma XorAssoc(a: Word, b: Word, c: Word)
    ensures Xor(Xor(a, b), c) == Xor(a, Xor(b, c))
  {
  }

  lemma XorSwap(a: Word, b: Word, c: Word)
    ensures Xor(a, Xor(b, c)) == Xor(b, Xor(a, c))
  {
  }

  lemma XorCancel(a: Word, b: Word)
    ensures Xor(a, Xor(a, b)) == b
  {
  }

  lemma XorZero(a: Word, b: Word)
    ensures Xor(a, b) == ZERO <==> a == b
  {
  }

  lemma XorRearrange(a: Word, b: Word, x: Word, y: Word)
    ensures Xor(Xor(a, x), Xor(b, y)) == Xor(Xor(a, b), Xor(x, y))
  {
  }

  lemma XorInjective(a: Word, b: Word, x: Word)
    requires Xor(a, x) == Xor(b, x)
    ensures a == b
  {
    XorRearrange(a, b, x, x);
    XorZero(Xor(a, x), Xor(b, x));
    XorZero(x, x);
    XorZero(a, b);
    assert Xor(Xor(a, b), ZERO) == Xor(a, b);
  }

  lemma LowBitOfXor(a: bv32, b: bv32)
    ensures (a ^ b) & 1 == 1 <==> (a & 1 == 1) != (b & 1 == 1)
  {
  }

  lemma OddXor(a: Word, b: Word)
    ensures Odd(Xor(a, b)) <==> Odd(a) != Odd(b)
  {
    LowBitOfXor(a.bits, b.bits);
  }

  lemma HalfXor(a: Word, b: Word)
    ensures Half(Xor(a, b)) == Xor(Half(a), Half(b))
  {
  }

  /** Shifting the register is linear over exclusive-or. */
  lemma BitStepLinear(a: Word, b: Word)
    ensures BitStep(Xor(a, b)) == Xor(BitStep(a), BitStep(b))
  {
    hide Xor, Half, Odd;
    var p, x, y := POLYNOMIAL, Half(a), Half(b);
    OddXor(a, b);
    HalfXor(a, b);
    XorAssoc(p, x, y);
    XorSwap(x, p, y);
    XorAssoc(p, x, Xor(p, y));
    XorCancel(p, Xor(x, y));
  }

  lemma {:induction false} BitStepsLinear(a: Word, b: Word, k: nat)
    ensures BitSteps(Xor(a, b), k) == Xor(BitSteps(a, k), BitSteps(b, k))
    decreases k
  {
    hide Xor, BitStep;
    if k > 0 {
      BitStepLinear(a, b);
      BitStepsLinear(BitStep(a), BitStep(b), k - 1);
    }
  }

  /** The polynomial's top bit is set, so the bit shifted out can be recovered. */
  lemma BitStepInjective(a: Word, b: Word)
    requires BitStep(a) == BitStep(b)
    ensures a == b
  {
  }

  lemma {:induction false} BitStepsInjective(a: Word, b: Word, k: nat)
    requires BitSteps(a, k) == BitSteps(b, k)
    ensures a == b
    decreases k
  {
    hide BitStep;
    if k > 0 {
      BitStepsInjective(BitStep(a), BitStep(b), k - 1);
      BitStepInjective(a, b);
    }
  }

  lemma {:induction false} BitStepsAppend(c: Word, k: nat)
    ensures BitSteps(c, k + 1) == BitStep(BitSteps(c, k))
    decreases k
  {
    hide BitStep;
    if k > 0 {
      BitStepsAppend(BitStep(c), k - 1);
    }
  }

  function Doubled(w: Word, k: nat): Word
    decreases k
  {
    if k == 0 then w else Doubled(Double(w), k - 1)
  }

  /** The k top bits of w are clear. */
  predicate TopClear(w: Word, k: nat)
    decreases k
  {
    k == 0 || (w.bits & 0x80000000 == 0 && TopClear(Double(w), k - 1))
  }

  lemma StepUndoesDouble(w: Word)
    requires w.bits & 0x80000000 == 0
    ensures BitStep(Double(w)) == w
  {
  }

  lemma {:induction false} StepsUndoDoubled(w: Word, k: nat)
    requires TopClear(w, k)
    ensures BitSteps(Doubled(w, k), k) == w
    decreases k
  {
    hide BitStep, Double;
    if k > 0 {
      StepsUndoDoubled(Double(w), k - 1);
      BitStepsAppend(Doubled(w, k), k - 1);
      StepUndoesDouble(w);
    }
  }

  lemma RaiseIsDoubled(e: Word)
    ensures RaiseByte(e) == Doubled(e, 8)
  {
    hide Double;
    var f := Double(Double(Double(Double(e))));
    assert Doubled(e, 8) == Doubled(f, 4);
    assert Doubled(f, 4) == RaiseByte(e);
  }

  lemma TopByteClear(e: bv32)
    requires e & 0xFF000000 == 0
    ensures e & 0x80000000 == 0 && (e << 1) & 0x80000000 == 0
    ensures (e << 1 << 1) & 0x80000000 == 0 && (e << 1 << 1 << 1) & 0x80000000 == 0
    ensures (e << 1 << 1 << 1 << 1) & 0xF0000000 == 0
  {
  }

  lemma TopNibbleClear(e: bv32)
    requires e & 0xF0000000 == 0
    ensures e & 0x80000000 == 0 && (e << 1) & 0x80000000 == 0
    ensures (e << 1 << 1) & 0x80000000 == 0 && (e << 1 << 1 << 1) & 0x80000000 == 0
  {
  }

  lemma TopClearEight(e: Word)
    requires LowBytes(e, 3)
    ensures TopClear(e, 8)
  {
    var f := Word(e.bits << 1 << 1 << 1 << 1);
    TopByteClear(e.bits);
    TopNibbleClear(f.bits);
    assert TopClear(f, 4);
    assert TopClear(f, 4) ==> TopClear(e, 8);
  }

  /** Eight shifts merely move down what lies above the low byte. */
  lemma HighBytesMoveDown(e: Word)
    requires LowBytes(e, 3)
    ensures BitSteps(RaiseByte(e), 8) == e
  {
    hide BitSteps, Doubled, RaiseByte, TopClear, LowBytes;
    RaiseIsDoubled(e);
    TopClearEight(e);
    StepsUndoDoubled(e, 8);
  }

  // ----- Byte at a time equals bit at a time -----

  /** v has no set bit at position k or above. */
  predicate FitsBits(v: Word, k: nat)
    decreases k
  {
    if k == 0 then v == ZERO else FitsBits(Half(v), k - 1)
  }

  lemma FeedBitIsStep(c: Word, v: Word)
    ensures BitStep(Xor(c, v)) == Xor(FeedBit(c, Odd(v)), Half(v))
  {
    OddXor(c, v);
    HalfXor(c, v);
    XorAssoc(POLYNOMIAL, Half(c), Half(v));
  }

  lemma {:induction false} FeedBitsIsSteps(c: Word, v: Word, k: nat)
    requires FitsBits(v, k)
    ensures FeedBits(c, v, k) == BitSteps(Xor(c, v), k)
    decreases k
  {
    if k > 0 {
      FeedBitIsStep(c, v);
      FeedBitsIsSteps(FeedBit(c, Odd(v)), Half(v), k - 1);
    }
  }

  lemma ByteShiftsToZero(v: bv32)
    requires v & 0xFFFFFF00 == 0
    ensures v >> 1 >> 1 >> 1 >> 1 >> 1 >> 1 >> 1 >> 1 == 0
  {
  }

  lemma ByteFitsEightBits(b: bv8)
    ensures FitsBits(OfByte(b), 8)
    ensures LowBytes(OfByte(b), 1)
  {
    var v := b as bv32;
    ByteShiftsToZero(v);
    assert FitsBits(Word(v >> 1 >> 1 >> 1 >> 1), 4) ==> FitsBits(OfByte(b), 8);
  }

  /** Feeding a byte bit by bit is eight plain shifts of the register with the byte
      exclusive-ored into it. */
  lemma FeedByte(c: Word, b: bv8)
    ensures FeedBits(c, OfByte(b), 8) == BitSteps(Xor(c, OfByte(b)), 8)
  {
    ByteFitsEightBits(b);
    FeedBitsIsSteps(c, OfByte(b), 8);
  }

  lemma SplitLowByteBits(c: bv32, b: bv32)
    requires b & 0xFFFFFF00 == 0
    ensures c ^ b == ((c ^ b) & 0xFF) ^ (c >> 8 << 1 << 1 << 1 << 1 << 1 << 1 << 1 << 1)
    ensures (c >> 8) & 0xFF000000 == 0
  {
  }

  lemma SplitLowByte(c: Word, b: Word)
    requires LowBytes(b, 1)
    ensures Xor(c, b) == Xor(LowByte(Xor(c, b)), RaiseByte(DropByte(c)))
    ensures LowBytes(DropByte(c), 3)
  {
    SplitLowByteBits(c.bits, b.bits);
  }

  /** The table step: one lookup and one shift do the work of eight fed bits. */
  lemma TableStep(c: Word, b: bv8)
    ensures FeedBits(c, OfByte(b), 8) == Xor(BitSteps(LowByte(Xor(c, OfByte(b))), 8), DropByte(c))
  {
    hide FeedBits, BitSteps, Xor, LowByte, RaiseByte, DropByte, OfByte, LowBytes;
    FeedByte(c, b);
    ByteFitsEightBits(b);
    SplitLowByte(c, OfByte(b));
    BitStepsLinear(LowByte(Xor(c, OfByte(b))), RaiseByte(DropByte(c)), 8);
    HighBytesMoveDown(DropByte(c));
  }

  // ----- The table-driven code -----

  function Entry(i: nat): bv32
    requires i < 256
  {
    BitSteps(Word(i as bv32), 8).bits
  }

  method ComputeEntry(i: nat) returns (c: bv32)
    requires i < 256
    ensures c == Entry(i)
  {
    c := i as bv32;
    for k := 0 to 8
      invariant Word(c) == BitSteps(Word(i as bv32), k)
    {
      BitStepsAppend(Word(i as bv32), k);
      c := if c & 1 == 1 then 0xEDB88320 ^ (c >> 1) else c >> 1;
    }
  }

  method BuildTable() returns (table: array<bv32>)
    ensures fresh(table) && table.Length == 256
    ensures forall i :: 0 <= i < 256 ==> table[i] == Entry(i)
  {
    hide Entry;
    table := new bv32[256];
    for i := 0 to 256
      invariant forall j :: 0 <= j < i ==> table[j] == Entry(j)
    {
      var c := ComputeEntry(i);
      table[i] := c;
    }
  }

  lemma NarrowAndWiden(i: int)
    requires 0 <= i < 256
    ensures (i as bv8) as bv32 == i as bv32
  {
  }

  lemma ByteThroughInt(b: bv8)
    ensures (b as int) as bv8 == b
  {
  }

  lemma LowByteKept(v: bv32)
    ensures ((v & 0xFF) as bv8) as bv32 == v & 0xFF
  {
  }

  lemma IndexWord(w: Word, index: bv8)
    requires index == (w.bits & 0xFF) as bv8
    ensures Word((index as int) as bv32) == LowByte(w)
  {
    LowByteKept(w.bits);
    ByteThroughInt(index);
    NarrowAndWiden(index as int);
  }

  function IndexOf(crc: bv32, b: bv8): bv8 {
    ((crc ^ (b as bv32)) & 0xFF) as bv8
  }

  function Combine(entry: bv32, crc: bv32): bv32 {
    entry ^ (crc >> 8)
  }

  lemma Lookup(c: Word, b: bv8, index: bv8)
    requires index == (Xor(c, OfByte(b)).bits & 0xFF) as bv8
    ensures FeedBits(c, OfByte(b), 8) == Xor(Word(Entry(index as int)), DropByte(c))
  {
    hide FeedBits, BitSteps, Xor, LowByte, DropByte, OfByte;
    TableStep(c, b);
    IndexWord(Xor(c, OfByte(b)), index);
  }

  lemma LookupAndCombine(crc: bv32, b: bv8)
    ensures 0 <= IndexOf(crc, b) as int < 256
    ensures Word(Combine(Entry(IndexOf(crc, b) as int), crc)) == FeedBits(Word(crc), OfByte(b), 8)
  {
    hide FeedBits, Entry;
    Lookup(Word(crc), b, IndexOf(crc, b));
  }

  /** The table-driven loop computes the bit-at-a-time checksum on every input. */
  method Compute(data: seq<bv8>) returns (crc: bv32)
    ensures crc == Checksum(data)
  {
    hide FeedBits, Entry, IndexOf, Combine, OfByte;
    var table := BuildTable();
    crc := 0xFFFFFFFF;
    for i := 0 to |data|
      invariant forall j :: 0 <= j < 256 ==> table[j] == Entry(j)
      invariant Register(ALL_ONES, data) == Register(Word(crc), data[i..])
    {
      assert data[i..][0] == data[i] && data[i..][1..] == data[i + 1..];
      LookupAndCombine(crc, data[i]);
      crc := Combine(table[IndexOf(crc, data[i]) as int], crc);
    }
    crc := crc ^ 0xFFFFFFFF;
  }

  // ----- Error detection -----

  lemma {:induction false} RegisterInjective(c: Word, d: Word, data: seq<bv8>)
    requires Register(c, data) == Register(d, data)
    ensures c == d
    decreases |data|
  {
    hide Xor, FeedBits, BitSteps;
    if data != [] {
      var b := OfByte(data[0]);
      RegisterInjective(FeedBits(c, b, 8), FeedBits(d, b, 8), data[1..]);
      FeedByte(c, data[0]);
      FeedByte(d, data[0]);
      BitStepsInjective(Xor(c, b), Xor(d, b), 8);
      XorInjective(c, d, b);
    }
  }

  lemma {:induction false} RegisterConcat(c: Word, xs: seq<bv8>, ys: seq<bv8>)
    ensures Register(c, xs + ys) == Register(Register(c, xs), ys)
    decreases |xs|
  {
    hide FeedBits;
    if xs == [] {
      assert xs + ys == ys;
    } else {
      assert (xs + ys)[1..] == xs[1..] + ys;
      RegisterConcat(FeedBits(c, OfByte(xs[0]), 8), xs[1..], ys);
    }
  }

  /** A difference that eight shifts bring into the low three bytes was that
      difference one byte higher. */
  lemma ShiftBack(v: Word, e: Word)
    requires BitSteps(v, 8) == e && LowBytes(e, 3)
    ensures v == RaiseByte(e)
  {
    hide BitSteps, RaiseByte, LowBytes;
    HighBytesMoveDown(e);
    BitStepsInjective(v, RaiseByte(e), 8);
  }

  lemma NoDifferenceBits(x: bv32, e: bv32)
    requires x & 0xFFFFFF00 == 0 && x == e << 1 << 1 << 1 << 1 << 1 << 1 << 1 << 1 && e & 0xFF000000 == 0
    ensures x == 0 && e == 0
  {
  }

  lemma NoDifference(x: Word, e: Word)
    requires LowBytes(x, 1) && LowBytes(e, 3)
    requires Xor(ZERO, x) == RaiseByte(e)
    ensures x == ZERO && e == ZERO
  {
    NoDifferenceBits(x.bits, e.bits);
  }

  lemma GrowToTwo(d: bv32, x: bv32, e: bv32)
    requires x & 0xFFFFFF00 == 0 && e & 0xFFFFFF00 == 0 && d ^ x == e << 1 << 1 << 1 << 1 << 1 << 1 << 1 << 1
    ensures d & 0xFFFF0000 == 0
  {
  }

  lemma GrowToThree(d: bv32, x: bv32, e: bv32)
    requires x & 0xFFFFFF00 == 0 && e & 0xFFFF0000 == 0 && d ^ x == e << 1 << 1 << 1 << 1 << 1 << 1 << 1 << 1
    ensures d & 0xFF000000 == 0
  {
  }

  lemma DifferenceGrows(d: Word, x: Word, e: Word, w: nat)
    requires w <= 3 && LowBytes(e, w) && LowBytes(x, 1)
    requires Xor(d, x) == RaiseByte(e)
    ensures LowBytes(d, w + 1)
  {
    if w == 0 {
      assert RaiseByte(ZERO) == ZERO;
      XorZero(d, x);
    } else if w == 1 {
      GrowToTwo(d.bits, x.bits, e.bits);
    } else if w == 2 {
      GrowToThree(d.bits, x.bits, e.bits);
    }
  }

  lemma OneByteIsThree(e: bv32)
    requires e & 0xFFFFFF00 == 0
    ensures e & 0xFF000000 == 0
  {
  }

  lemma TwoBytesAreThree(e: bv32)
    requires e & 0xFFFF0000 == 0
    ensures e & 0xFF000000 == 0
  {
  }

  lemma LowBytesWiden(e: Word, w: nat)
    requires w <= 3 && LowBytes(e, w)
    ensures LowBytes(e, 3)
  {
    if w == 1 {
      OneByteIsThree(e.bits);
    } else if w == 2 {
      TwoBytesAreThree(e.bits);
    }
  }

  lemma ByteDifference(x: bv8, y: bv8)
    ensures LowBytes(Xor(OfByte(x), OfByte(y)), 1)
    ensures Xor(OfByte(x), OfByte(y)) == ZERO ==> x == y
  {
  }

  lemma SelfDifference(c: Word)
    ensures LowBytes(Xor(c, c), 0)
  {
  }

  /** Working back over one byte. */
  lemma ByteBack(c: Word, d: Word, x: bv8, y: bv8, w: nat)
    requires w <= 3 && LowBytes(Xor(FeedBits(c, OfByte(x), 8), FeedBits(d, OfByte(y), 8)), w)
    ensures LowBytes(Xor(c, d), w + 1)
    ensures c == d ==> x == y && FeedBits(c, OfByte(x), 8) == FeedBits(d, OfByte(y), 8)
  {
    hide Xor, FeedBits, BitSteps, OfByte, RaiseByte, LowBytes;
    var u, v := OfByte(x), OfByte(y);
    var e := Xor(FeedBits(c, u, 8), FeedBits(d, v, 8));
    FeedByte(c, x);
    FeedByte(d, y);
    BitStepsLinear(Xor(c, u), Xor(d, v), 8);
    XorRearrange(c, d, u, v);
    LowBytesWiden(e, w);
    ShiftBack(Xor(Xor(c, u), Xor(d, v)), e);
    ByteDifference(x, y);
    DifferenceGrows(Xor(c, d), Xor(u, v), e, w);
    if c == d {
      XorZero(c, d);
      NoDifference(Xor(u, v), e);
    }
  }

  /** Working back over at most four bytes: registers that end equal started within
      the low bytes of each other, and if they started equal, the bytes were equal. */
  lemma {:induction false} ShortWindow(c: Word, d: Word, xs: seq<bv8>, ys: seq<bv8>)
    requires |xs| == |ys| <= 4
    requires Register(c, xs) == Register(d, ys)
    ensures LowBytes(Xor(c, d), |xs|)
    ensures c == d ==> xs == ys
    decreases |xs|
  {
    hide Xor, FeedBits, OfByte, LowBytes;
    if xs == [] {
      SelfDifference(c);
    } else {
      var c1, d1 := FeedBits(c, OfByte(xs[0]), 8), FeedBits(d, OfByte(ys[0]), 8);
      ShortWindow(c1, d1, xs[1..], ys[1..]);
      ByteBack(c, d, xs[0], ys[0], |xs| - 1);
      assert xs == [xs[0]] + xs[1..] && ys == [ys[0]] + ys[1..];
    }
  }

  /** Replacing at most four consecutive bytes by anything else changes the checksum. */
  lemma BurstDetected(before: seq<bv8>, xs: seq<bv8>, ys: seq<bv8>, after: seq<bv8>)
    requires |xs| == |ys| <= 4 && xs != ys
    ensures Checksum(before + xs + after) != Checksum(before + ys + after)
  {
    var c := Register(ALL_ONES, before);
    RegisterConcat(ALL_ONES, before, xs);
    RegisterConcat(ALL_ONES, before, ys);
    RegisterConcat(ALL_ONES, before + xs, after);
    RegisterConcat(ALL_ONES, before + ys, after);
    if Checksum(before + xs + after) == Checksum(before + ys + after) {
      XorInjective(Register(Register(c, xs), after), Register(Register(c, ys), after), ALL_ONES);
      RegisterInjective(Register(c, xs), Register(c, ys), after);
      ShortWindow(c, c, xs, ys);
    }
  }
}
