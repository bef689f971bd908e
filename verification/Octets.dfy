/** Bytes and the small numbers they stand for, related one bit at a time. */
module Octets {
  /** The number in the k low bits of b. */
  function BitsValue(b: bv8, k: nat): nat
    decreases k
  {
    if k == 0 then 0 else (if b & 1 == 1 then 1 else 0) + 2 * BitsValue(b >> 1, k - 1)
  }

  /** The k low bits of v as a byte. */
  function BitsOf(v: nat, k: nat): bv8
    decreases k
  {
    if k == 0 then 0 else (BitsOf(v / 2, k - 1) << 1) | (if v % 2 == 1 then 1 else 0)
  }

  function ByteValue(b: bv8): nat {
    BitsValue(b, 8)
  }

  function ByteOf(v: nat): bv8 {
    BitsOf(v, 8)
  }

  function Power(k: nat): nat {
    if k == 0 then 1 else 2 * Power(k - 1)
  }

  function Mask(k: nat): bv8 {
    match k
    case 0 => 0
    case 1 => 1
    case 2 => 3
    case 3 => 7
    case 4 => 15
    case 5 => 31
    case 6 => 63
    case 7 => 127
    case _ => 255
  }

  lemma ShiftInside(x: bv8, c: bv8, m: bv8)
    requires x <= m <= 127 && c <= 1
    ensures (x << 1) | c <= (m << 1) | 1
  {
  }

  lemma {:induction false} BitsOfBounded(v: nat, k: nat)
    requires k <= 8
    ensures BitsOf(v, k) <= Mask(k)
    decreases k
  {
    if k > 0 {
      BitsOfBounded(v / 2, k - 1);
      ShiftInside(BitsOf(v / 2, k - 1), if v % 2 == 1 then 1 else 0, Mask(k - 1));
      assert (Mask(k - 1) << 1) | 1 == Mask(k);
    }
  }

  lemma LowBit(x: bv8, c: bv8)
    requires x <= 127 && c <= 1
    ensures ((x << 1) | c) & 1 == c && ((x << 1) | c) >> 1 == x
  {
  }

  lemma {:induction false} ValueOfBits(v: nat, k: nat)
    requires k <= 8 && v < Power(k)
    ensures BitsValue(BitsOf(v, k), k) == v
    decreases k
  {
    if k > 0 {
      BitsOfBounded(v / 2, k - 1);
      assert Mask(k - 1) <= 127;
      LowBit(BitsOf(v / 2, k - 1), if v % 2 == 1 then 1 else 0);
      ValueOfBits(v / 2, k - 1);
    }
  }

  /** Every number below 256 survives the trip through a byte. */
  lemma ValueOfByte(v: nat)
    requires v < 256
    ensures ByteValue(ByteOf(v)) == v
  {
    assert Power(8) == 2 * 2 * 2 * 2 * Power(4);
    ValueOfBits(v, 8);
  }

  lemma SplitLowBit(b: bv8)
    ensures ((b >> 1) << 1) | (if b & 1 == 1 then 1 else 0) == b
  {
  }

  predicate Fits(b: bv8, k: nat)
    decreases k
  {
    if k == 0 then b == 0 else Fits(b >> 1, k - 1)
  }

  lemma {:induction false} BitsOfValue(b: bv8, k: nat)
    requires Fits(b, k)
    ensures BitsOf(BitsValue(b, k), k) == b && BitsValue(b, k) < Power(k)
    decreases k
  {
    if k > 0 {
      BitsOfValue(b >> 1, k - 1);
      SplitLowBit(b);
    }
  }

  lemma AllShiftedOut(b: bv8)
    ensures b >> 1 >> 1 >> 1 >> 1 >> 1 >> 1 >> 1 >> 1 == 0
  {
  }

  /** Every byte survives the trip through its number. */
  lemma ByteOfValue(b: bv8)
    ensures ByteValue(b) < 256 && ByteOf(ByteValue(b)) == b
  {
    AllShiftedOut(b);
    assert Fits(b >> 1 >> 1 >> 1 >> 1, 4);
    assert Fits(b, 8);
    assert Power(8) == 2 * 2 * 2 * 2 * Power(4);
    BitsOfValue(b, 8);
  }

  lemma SplitNumber(b: bv8)
    ensures b as int == 2 * ((b >> 1) as int) + (if b & 1 == 1 then 1 else 0)
  {
  }

  lemma {:induction false} BitsValueIsNumber(b: bv8, k: nat)
    requires Fits(b, k)
    ensures BitsValue(b, k) == b as nat
    decreases k
  {
    if k > 0 {
      SplitNumber(b);
      BitsValueIsNumber(b >> 1, k - 1);
    }
  }

  /** The number of a byte, summed bit by bit, is the byte's own number. */
  lemma ByteValueIsNumber(b: bv8)
    ensures ByteValue(b) == b as nat
  {
    AllShiftedOut(b);
    assert Fits(b >> 1 >> 1 >> 1 >> 1, 4);
    assert Fits(b, 8);
    BitsValueIsNumber(b, 8);
  }
}
