/** Small things several modules share. */
module Basics {
  /** A byte as a number. */
  type Byte = x: int | 0 <= x < 256

  const TWO_TO_63: int := 0x8000_0000_0000_0000
  const TWO_TO_64: int := 0x1_0000_0000_0000_0000

  function Min(x: real, y: real): real {
    if y < x then y else x
  }

  function Max(x: real, y: real): real {
    if x < y then y else x
  }

  /** A product as a term of its own. */
  function Times(k: real, x: real): real {
    k * x
  }

  lemma SamePrefix<T>(p: seq<T>, x: seq<T>, y: seq<T>)
    requires p + x == p + y
    ensures x == y
  {
    assert (p + x)[|p|..] == x && (p + y)[|p|..] == y;
  }

  /** Different multiples of s are at least s apart. */
  lemma {:induction false} MultiplesApart(a: nat, b: nat, s: nat)
    requires a < b
    ensures a * s + s <= b * s
    decreases b
  {
    assert b * s == (b - 1) * s + s;
    if a < b - 1 {
      MultiplesApart(a, b - 1, s);
    }
  }

  lemma Remainder(f: nat, p: nat, b: nat, j: nat)
    requires p > 0 && f == p * b + j && j < p
    ensures f % p == j && f / p == b
  {
    if f / p > b {
      MultiplesApart(b, f / p, p);
    } else if f / p < b {
      MultiplesApart(f / p, b, p);
    }
  }
}
