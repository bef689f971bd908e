/** What the checksum is: the remainder of a division of polynomials over the two-element
    field by the CRC-32 generator of section 3.2.9 of IEEE Std 802.3, with the first 32
    message bits and the remainder complemented. */
module CrcPolynomial {
  import opened Crc32

  /** A polynomial is the set of the exponents whose coefficient is 1. */
  type Poly = set<nat>

  const GENERATOR: Poly := {32, 26, 23, 22, 16, 12, 11, 10, 8, 7, 5, 4, 2, 1, 0}

  function Plus(a: Poly, b: Poly): Poly {
    (a - b) + (b - a)
  }

  /** x^k times a. */
  function Raised(a: Poly, k: nat): Poly {
    set e | e in a :: e + k
  }

  /** The product with a polynomial given by its coefficients, highest power first. */
  function Product(q: seq<bool>, g: Poly): Poly {
    if q == [] then {} else
    var n := |q| - 1;
    Plus(Raised(Product(q[..n], g), 1), if q[n] then g else {})
  }

  /** The polynomial with these coefficients, highest power first. */
  function OfBits(bits: seq<bool>): Poly {
    set e | 0 <= e < |bits| && Coefficient(bits, e)
  }

  predicate Coefficient(bits: seq<bool>, e: nat)
    requires e < |bits|
  {
    bits[|bits| - 1 - e]
  }

  /** The n low bits of a word, least significant first. */
  function Bits(w: Word, n: nat): (bits: seq<bool>)
    ensures |bits| == n
    decreases n
  {
    if n == 0 then [] else [Odd(w)] + Bits(Half(w), n - 1)
  }

  /** The bits of a message in the order they are sent: each byte's low bit first. */
  function MessageBits(data: seq<bv8>): seq<bool>
    decreases |data|
  {
    if data == [] then [] else Bits(OfByte(data[0]), 8) + MessageBits(data[1..])
  }

  /** 1 + x + ... + x^(n - 1). */
  function Ones(n: nat): (a: Poly)
    ensures forall e: nat :: e in a <==> e < n
  {
    if n == 0 then {} else Ones(n - 1) + {n - 1}
  }

  // ----- Algebra -----

  lemma PlusMember(a: Poly, b: Poly, e: nat)
    ensures e in Plus(a, b) <==> (e in a) != (e in b)
  {
  }

  lemma RaisedMember(a: Poly, k: nat, e: nat)
    ensures e in Raised(a, k) <==> e >= k && e - k in a
  {
    if e >= k && e - k in a {
      assert (e - k) + k == e;
    }
  }

  lemma RaisedPlus(a: Poly, b: Poly)
    ensures Raised(Plus(a, b), 1) == Plus(Raised(a, 1), Raised(b, 1))
  {
    forall e: nat
      ensures e in Raised(Plus(a, b), 1) <==> e in Plus(Raised(a, 1), Raised(b, 1))
    {
      RaisedMember(Plus(a, b), 1, e);
      RaisedMember(a, 1, e);
      RaisedMember(b, 1, e);
    }
  }

  lemma OneMoreBit(bits: seq<bool>, bit: bool)
    ensures OfBits(bits + [bit]) == Plus(Raised(OfBits(bits), 1), if bit then {0} else {})
  {
    var more := bits + [bit];
    forall e: nat
      ensures e in OfBits(more) <==> e in Plus(Raised(OfBits(bits), 1), if bit then {0} else {})
    {
      RaisedMember(OfBits(bits), 1, e);
      if 0 < e < |more| {
        assert more[|more| - 1 - e] == bits[|bits| - 1 - (e - 1)];
      }
    }
  }

  // ----- The register as a polynomial -----

  function Of(c: Word): Poly {
    OfBits(Bits(c, 32))
  }

  lemma {:induction false} XorBits(x: Word, y: Word, n: nat)
    ensures forall i | 0 <= i < n :: Bits(Xor(x, y), n)[i] == (Bits(x, n)[i] != Bits(y, n)[i])
    decreases n
  {
    hide Xor, Half, Odd;
    if n > 0 {
      OddXor(x, y);
      HalfXor(x, y);
      XorBits(Half(x), Half(y), n - 1);
    }
  }

  lemma OfXor(x: Word, y: Word)
    ensures Of(Xor(x, y)) == Plus(Of(x), Of(y))
  {
    hide Bits, Xor;
    XorBits(x, y, 32);
    forall e: nat
      ensures e in Of(Xor(x, y)) <==> e in Plus(Of(x), Of(y))
    {
      if e < 32 {
        assert Bits(Xor(x, y), 32)[31 - e] == (Bits(x, 32)[31 - e] != Bits(y, 32)[31 - e]);
      }
    }
  }

  lemma {:induction false} FirstBits(w: Word, n: nat)
    ensures Bits(w, n + 1)[..n] == Bits(w, n)
    decreases n
  {
    hide Half, Odd;
    if n > 0 {
      FirstBits(Half(w), n - 1);
      assert Bits(w, n + 1)[..n] == [Odd(w)] + Bits(Half(w), n)[..n - 1];
    }
  }

  /** m has bit n set and no bit below it. */
  predicate Mask(m: Word, n: nat)
    decreases n
  {
    if n == 0 then Odd(m) && Half(m) == ZERO else !Odd(m) && Mask(Half(m), n - 1)
  }

  predicate Meets(w: Word, m: Word) {
    w.bits & m.bits != 0
  }

  lemma MeetsAbove(w: Word, m: Word)
    requires !Odd(m)
    ensures Meets(w, m) <==> Meets(Half(w), Half(m))
  {
  }

  lemma MeetsLowest(w: Word, m: Word)
    requires Odd(m) && Half(m) == ZERO
    ensures Meets(w, m) <==> Odd(w)
  {
  }

  lemma {:induction false} BitAt(w: Word, m: Word, n: nat)
    requires Mask(m, n)
    ensures Bits(w, n + 1)[n] <==> Meets(w, m)
    decreases n
  {
    hide Half, Odd, Meets;
    if n == 0 {
      MeetsLowest(w, m);
    } else {
      MeetsAbove(w, m);
      BitAt(Half(w), Half(m), n - 1);
    }
  }

  lemma MaskDoubles(m: bv32, d: bv32, n: nat)
    requires Mask(Word(m), n) && d >> 1 == m && d & 1 != 1
    ensures Mask(Word(d), n + 1)
  {
  }

  lemma {:induction false} BitsPrefix(w: Word, i: nat, n: nat)
    requires i < n
    ensures Bits(w, n)[i] == Bits(w, i + 1)[i]
    decreases n
  {
    hide Half, Odd;
    if n > i + 1 {
      FirstBits(w, n - 1);
      BitsPrefix(w, i, n - 1);
    }
  }

  /** Bit i of the register is the coefficient of x^(31 - i). */
  lemma TermIsBit(w: Word, i: nat)
    requires i < 32
    ensures 31 - i in Of(w) <==> Bits(w, 32)[i]
  {
    hide Bits;
  }

  lemma BelowThirtyTwo(w: Word)
    ensures forall e | e in Of(w) :: e < 32
  {
    hide Bits;
  }

  lemma TermAt(w: Word, m: Word, i: nat)
    requires i < 32 && Mask(m, i)
    ensures 31 - i in Of(w) <==> Meets(w, m)
  {
    hide Bits, Mask, Of, Meets;
    BitAt(w, m, i);
    BitsPrefix(w, i, 32);
    TermIsBit(w, i);
  }

  /** One term of the reversed polynomial, and the mask of the next one. */
  lemma PolynomialTerm(m: bv32, d: bv32, i: nat)
    requires i < 32 && Mask(Word(m), i) && d >> 1 == m && d & 1 != 1
    ensures 31 - i in Of(POLYNOMIAL) <==> 0xEDB88320 & m != 0
    ensures Mask(Word(d), i + 1)
  {
    hide Of;
    MaskDoubles(m, d, i);
    TermAt(POLYNOMIAL, Word(m), i);
  }

  lemma Terms0()
    ensures 31 !in Of(POLYNOMIAL) && 30 !in Of(POLYNOMIAL) && 29 !in Of(POLYNOMIAL) && 28 !in Of(POLYNOMIAL)
    ensures 27 !in Of(POLYNOMIAL) && 26 in Of(POLYNOMIAL) && 25 !in Of(POLYNOMIAL) && 24 !in Of(POLYNOMIAL)
    ensures Mask(Word(0x100), 8)
  {
    hide Of;
    PolynomialTerm(0x1, 0x2, 0);
    PolynomialTerm(0x2, 0x4, 1);
    PolynomialTerm(0x4, 0x8, 2);
    PolynomialTerm(0x8, 0x10, 3);
    PolynomialTerm(0x10, 0x20, 4);
    PolynomialTerm(0x20, 0x40, 5);
    PolynomialTerm(0x40, 0x80, 6);
    PolynomialTerm(0x80, 0x100, 7);
  }

  lemma Terms1()
    requires Mask(Word(0x100), 8)
    ensures 23 in Of(POLYNOMIAL) && 22 in Of(POLYNOMIAL) && 21 !in Of(POLYNOMIAL) && 20 !in Of(POLYNOMIAL)
    ensures 19 !in Of(POLYNOMIAL) && 18 !in Of(POLYNOMIAL) && 17 !in Of(POLYNOMIAL) && 16 in Of(POLYNOMIAL)
    ensures Mask(Word(0x10000), 16)
  {
    hide Of, Mask;
    PolynomialTerm(0x100, 0x200, 8);
    PolynomialTerm(0x200, 0x400, 9);
    PolynomialTerm(0x400, 0x800, 10);
    PolynomialTerm(0x800, 0x1000, 11);
    PolynomialTerm(0x1000, 0x2000, 12);
    PolynomialTerm(0x2000, 0x4000, 13);
    PolynomialTerm(0x4000, 0x8000, 14);
    PolynomialTerm(0x8000, 0x10000, 15);
  }

  lemma Terms2()
    requires Mask(Word(0x10000), 16)
    ensures 15 !in Of(POLYNOMIAL) && 14 !in Of(POLYNOMIAL) && 13 !in Of(POLYNOMIAL) && 12 in Of(POLYNOMIAL)
    ensures 11 in Of(POLYNOMIAL) && 10 in Of(POLYNOMIAL) && 9 !in Of(POLYNOMIAL) && 8 in Of(POLYNOMIAL)
    ensures Mask(Word(0x1000000), 24)
  {
    hide Of, Mask;
    PolynomialTerm(0x10000, 0x20000, 16);
    PolynomialTerm(0x20000, 0x40000, 17);
    PolynomialTerm(0x40000, 0x80000, 18);
    PolynomialTerm(0x80000, 0x100000, 19);
    PolynomialTerm(0x100000, 0x200000, 20);
    PolynomialTerm(0x200000, 0x400000, 21);
    PolynomialTerm(0x400000, 0x800000, 22);
    PolynomialTerm(0x800000, 0x1000000, 23);
  }

  lemma Terms3()
    requires Mask(Word(0x1000000), 24)
    ensures 7 in Of(POLYNOMIAL) && 6 !in Of(POLYNOMIAL) && 5 in Of(POLYNOMIAL) && 4 in Of(POLYNOMIAL)
    ensures 3 !in Of(POLYNOMIAL) && 2 in Of(POLYNOMIAL) && 1 in Of(POLYNOMIAL) && 0 in Of(POLYNOMIAL)
    ensures Mask(Word(0x80000000), 31)
  {
    hide Of, Mask;
    PolynomialTerm(0x1000000, 0x2000000, 24);
    PolynomialTerm(0x2000000, 0x4000000, 25);
    PolynomialTerm(0x4000000, 0x8000000, 26);
    PolynomialTerm(0x8000000, 0x10000000, 27);
    PolynomialTerm(0x10000000, 0x20000000, 28);
    PolynomialTerm(0x20000000, 0x40000000, 29);
    PolynomialTerm(0x40000000, 0x80000000, 30);
    TermAt(POLYNOMIAL, Word(0x80000000), 31);
  }

  /** The reversed constant of the code holds the generator's terms below x^32. */
  lemma PolynomialIsGenerator()
    ensures 32 !in Of(POLYNOMIAL) && Of(POLYNOMIAL) + {32} == GENERATOR
  {
    hide Mask, Of;
    Terms0();
    Terms1();
    Terms2();
    Terms3();
    BelowThirtyTwo(POLYNOMIAL);
    assert forall e: nat | e < 32 :: e in Of(POLYNOMIAL) <==> e in GENERATOR;
  }

  lemma TopMask()
    ensures Mask(Word(0x80000000), 31)
  {
    hide Mask, Of;
    Terms0();
    Terms1();
    Terms2();
    Terms3();
  }

  // ----- Shifting -----

  lemma TopBitClears(w: Word)
    ensures !Meets(Half(w), Word(0x80000000))
  {
  }

  lemma ShiftedTerms(bits: seq<bool>, next: seq<bool>)
    requires |bits| == |next| == 32 && bits[1..] == next[..31] && !next[31]
    ensures Raised(OfBits(bits), 1) == Plus(if bits[0] then {32} else {}, OfBits(next))
  {
    forall e: nat
      ensures e in Raised(OfBits(bits), 1) <==> e in Plus(if bits[0] then {32} else {}, OfBits(next))
    {
      RaisedMember(OfBits(bits), 1, e);
      if 0 < e < 32 {
        assert next[31 - e] == next[..31][31 - e] == bits[1..][31 - e] == bits[32 - e];
      }
    }
  }

  lemma BitsStep(w: Word, n: nat)
    requires n > 0
    ensures Bits(w, n) == [Odd(w)] + Bits(Half(w), n - 1)
  {
    hide Half, Odd;
  }

  lemma ShiftedBits(c: Word)
    ensures Bits(c, 32)[0] == Odd(c) && Bits(c, 32)[1..] == Bits(Half(c), 32)[..31] && !Bits(Half(c), 32)[31]
  {
    hide Half, Odd, Meets, Mask, Bits;
    TopMask();
    TopBitClears(c);
    BitAt(Half(c), Word(0x80000000), 31);
    FirstBits(Half(c), 31);
    BitsStep(c, 32);
  }

  /** A shift drops x^31 and raises everything else by one. */
  lemma OfHalf(c: Word)
    ensures Raised(Of(c), 1) == Plus(if Odd(c) then {32} else {}, Of(Half(c)))
  {
    hide Half, Odd, Bits, Raised, Plus, OfBits;
    ShiftedBits(c);
    ShiftedTerms(Bits(c, 32), Bits(Half(c), 32));
  }

  /** One message bit is one step of long division: the register is raised, the bit
      enters at x^32, and the generator is subtracted when x^32 is then present. */
  lemma DivisionStep(c: Word, bit: bool)
    ensures Plus(Raised(Of(c), 1), if bit then {32} else {})
         == Plus(if Odd(c) != bit then GENERATOR else {}, Of(FeedBit(c, bit)))
  {
    hide Of, Raised, Odd, Half, Xor;
    OfHalf(c);
    OfXor(POLYNOMIAL, Half(c));
    PolynomialIsGenerator();
  }

  // ----- Long division -----

  function Feeds(c: Word, bits: seq<bool>): Word {
    if bits == [] then c else FeedBit(Feeds(c, bits[..|bits| - 1]), bits[|bits| - 1])
  }

  lemma {:induction false} FeedsConcat(c: Word, xs: seq<bool>, ys: seq<bool>)
    ensures Feeds(c, xs + ys) == Feeds(Feeds(c, xs), ys)
    decreases |ys|
  {
    hide FeedBit;
    if ys == [] {
      assert xs + ys == xs;
    } else {
      var n := |ys| - 1;
      assert (xs + ys)[..|xs + ys| - 1] == xs + ys[..n];
      FeedsConcat(c, xs, ys[..n]);
    }
  }

  lemma FeedsNone(c: Word)
    ensures Feeds(c, []) == c
  {
  }

  lemma FeedsOne(c: Word, bit: bool)
    ensures Feeds(c, [bit]) == FeedBit(c, bit)
  {
    hide FeedBit;
    assert [bit][..0] == [];
  }

  lemma {:induction false} FeedBitsFeeds(c: Word, v: Word, k: nat)
    ensures FeedBits(c, v, k) == Feeds(c, Bits(v, k))
    decreases k
  {
    hide FeedBit, Half, Odd;
    if k > 0 {
      FeedBitsFeeds(FeedBit(c, Odd(v)), Half(v), k - 1);
      FeedsOne(c, Odd(v));
      FeedsConcat(c, [Odd(v)], Bits(Half(v), k - 1));
    }
  }

  lemma {:induction false} RegisterFeeds(c: Word, data: seq<bv8>)
    ensures Register(c, data) == Feeds(c, MessageBits(data))
    ensures |MessageBits(data)| == 8 * |data|
    decreases |data|
  {
    hide Feeds, FeedBits, OfByte, Bits;
    if data == [] {
      FeedsNone(c);
    } else {
      var b := OfByte(data[0]);
      FeedBitsFeeds(c, b, 8);
      RegisterFeeds(FeedBits(c, b, 8), data[1..]);
      FeedsConcat(c, Bits(b, 8), MessageBits(data[1..]));
    }
  }

  function BroughtDown(a: Poly, bits: seq<bool>, enter: Poly): Poly {
    Plus(Raised(Plus(Raised(a, |bits|), Raised(OfBits(bits), 32)), 1), enter)
  }

  lemma BroughtDownMember(a: Poly, bits: seq<bool>, enter: Poly, e: nat)
    ensures e in BroughtDown(a, bits, enter)
       <==> ((e >= |bits| + 1 && e - |bits| - 1 in a) != (e >= 33 && e - 33 in OfBits(bits))) != (e in enter)
  {
    hide OfBits, Raised, Plus;
    var n := |bits|;
    var sum := Plus(Raised(a, n), Raised(OfBits(bits), 32));
    PlusMember(Raised(sum, 1), enter, e);
    RaisedMember(sum, 1, e);
    if e >= 1 {
      PlusMember(Raised(a, n), Raised(OfBits(bits), 32), e - 1);
      RaisedMember(a, n, e - 1);
      RaisedMember(OfBits(bits), 32, e - 1);
    }
  }

  lemma LongerMember(a: Poly, bits: seq<bool>, bit: bool, e: nat)
    ensures e in Plus(Raised(a, |bits| + 1), Raised(OfBits(bits + [bit]), 32))
       <==> (e >= |bits| + 1 && e - |bits| - 1 in a) != (e >= 32 && (e - 32 in OfBits(bits + [bit])))
  {
    hide OfBits, Raised, Plus;
    PlusMember(Raised(a, |bits| + 1), Raised(OfBits(bits + [bit]), 32), e);
    RaisedMember(a, |bits| + 1, e);
    RaisedMember(OfBits(bits + [bit]), 32, e);
  }

  lemma LastBitMember(bits: seq<bool>, bit: bool, e: nat)
    ensures e in OfBits(bits + [bit]) <==> if e == 0 then bit else e - 1 in OfBits(bits)
  {
    hide OfBits, Raised;
    OneMoreBit(bits, bit);
    RaisedMember(OfBits(bits), 1, e);
  }

  /** Bringing down one more bit of the dividend. */
  lemma BringDown(a: Poly, bits: seq<bool>, bit: bool, enter: Poly)
    requires enter == if bit then {32} else {}
    ensures Plus(Raised(a, |bits| + 1), Raised(OfBits(bits + [bit]), 32)) == BroughtDown(a, bits, enter)
  {
    hide OfBits, Raised, Plus, BroughtDown;
    var longer, below := Plus(Raised(a, |bits| + 1), Raised(OfBits(bits + [bit]), 32)), BroughtDown(a, bits, enter);
    forall e: nat
      ensures e in longer <==> e in below
    {
      LongerMember(a, bits, bit, e);
      BroughtDownMember(a, bits, enter, e);
      if e >= 32 {
        LastBitMember(bits, bit, e - 32);
      }
    }
  }

  lemma NothingRaised(a: Poly)
    ensures Plus(Raised(a, 0), Raised(OfBits([]), 32)) == a
  {
    assert Raised(a, 0) == a by {
      forall e: nat
        ensures e in Raised(a, 0) <==> e + 0 in a
      {
        RaisedMember(a, 0, e);
      }
    }
    assert Raised(OfBits([]), 32) == {};
  }

  lemma Associate(a: Poly, b: Poly, c: Poly)
    ensures Plus(Plus(a, b), c) == Plus(a, Plus(b, c))
  {
  }

  lemma OneMoreStep(q: seq<bool>, t: bool, before: Poly, after: Poly, bit: Poly) returns (more: seq<bool>)
    requires Plus(Raised(before, 1), bit) == Plus(if t then GENERATOR else {}, after)
    ensures more == q + [t]
    ensures Plus(Raised(Plus(Product(q, GENERATOR), before), 1), bit) == Plus(Product(more, GENERATOR), after)
  {
    hide Raised;
    more := q + [t];
    assert more[..|q|] == q;
    var product, step := Product(q, GENERATOR), if t then GENERATOR else {};
    assert Product(more, GENERATOR) == Plus(Raised(product, 1), step);
    RaisedPlus(product, before);
    Associate(Raised(product, 1), Raised(before, 1), bit);
    Associate(Raised(product, 1), step, after);
  }

  /** Feeding bits divides: register and message together, as one dividend, are a
      multiple of the generator plus the final register. */
  lemma {:induction false} Division(c: Word, bits: seq<bool>) returns (quotient: seq<bool>)
    ensures |quotient| == |bits|
    ensures Plus(Raised(Of(c), |bits|), Raised(OfBits(bits), 32))
         == Plus(Product(quotient, GENERATOR), Of(Feeds(c, bits)))
    decreases |bits|
  {
    hide Of, FeedBit, Raised;
    if bits == [] {
      quotient := [];
      NothingRaised(Of(c));
    } else {
      var n := |bits| - 1;
      var front, bit := bits[..n], bits[n];
      var d := Feeds(c, front);
      quotient := Division(c, front);
      assert bits == front + [bit];
      var enter: Poly := if bit then {32} else {};
      BringDown(Of(c), front, bit, enter);
      DivisionStep(d, bit);
      quotient := OneMoreStep(quotient, Odd(d) != bit, Of(d), Of(FeedBit(d, bit)), enter);
    }
  }

  // ----- The checksum -----

  lemma {:induction false} MaskBelow(m: Word, n: nat, i: nat) returns (r: Word)
    requires i <= n && Mask(m, n)
    ensures Mask(r, i)
    decreases n
  {
    hide Half, Odd;
    if i == n {
      r := m;
    } else {
      r := MaskBelow(Half(m), n - 1, i);
    }
  }

  lemma ZeroHalves()
    ensures !Odd(ZERO) && Half(ZERO) == ZERO
  {
  }

  lemma {:induction false} MaskIsNotZero(m: Word, n: nat)
    requires Mask(m, n)
    ensures m != ZERO
    decreases n
  {
    hide Half, Odd;
    ZeroHalves();
    if n > 0 {
      MaskIsNotZero(Half(m), n - 1);
    }
  }

  lemma AllOnesMeets(m: Word)
    ensures Meets(ALL_ONES, m) <==> m != ZERO
  {
  }

  lemma OfAllOnes()
    ensures Of(ALL_ONES) == Ones(32)
  {
    hide Mask, Meets, Of;
    BelowThirtyTwo(ALL_ONES);
    TopMask();
    forall e: nat | e < 32
      ensures e in Of(ALL_ONES)
    {
      var m := MaskBelow(Word(0x80000000), 31, 31 - e);
      MaskIsNotZero(m, 31 - e);
      AllOnesMeets(m);
      TermAt(ALL_ONES, m, 31 - e);
    }
  }

  /** The checksum of a message, least significant bit first, is the complement of the
      remainder of the message, times x^32 and with its first 32 bits complemented, by
      x^32 + x^26 + x^23 + x^22 + x^16 + x^12 + x^11 + x^10 + x^8 + x^7 + x^5 + x^4 + x^2 + x + 1. */
  lemma ChecksumIsRemainder(data: seq<bv8>) returns (quotient: seq<bool>, remainder: Poly)
    ensures forall e | e in remainder :: e < 32
    ensures Plus(Raised(Ones(32), 8 * |data|), Raised(OfBits(MessageBits(data)), 32))
         == Plus(Product(quotient, {32, 26, 23, 22, 16, 12, 11, 10, 8, 7, 5, 4, 2, 1, 0}), remainder)
    ensures OfBits(Bits(Word(Checksum(data)), 32)) == Ones(32) - remainder
  {
    hide Bits, OfBits, MessageBits, Register, Raised, Product, Xor, Feeds;
    var r := Register(ALL_ONES, data);
    RegisterFeeds(ALL_ONES, data);
    quotient := Division(ALL_ONES, MessageBits(data));
    remainder := Of(r);
    OfAllOnes();
    OfXor(r, ALL_ONES);
    BelowThirtyTwo(r);
    assert Word(Checksum(data)) == Xor(r, ALL_ONES);
  }
}
