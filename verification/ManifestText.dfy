/** Text conversions of the manifest tool: decimal numbers as strtoull and strtoll read
    them, hexadecimal as stoi reads it two characters at a time, and lines. */
module ManifestText {
  import opened Basics
  import opened Options

  // ----- Decimal -----

  predicate IsDigit(c: char) {
    '0' <= c <= '9'
  }

  function DigitValue(c: char): (d: nat)
    requires IsDigit(c)
    ensures d < 10
  {
    c as int - '0' as int
  }

  function Digit(d: nat): (c: char)
    requires d < 10
    ensures IsDigit(c) && DigitValue(c) == d
  {
    ('0' as int + d) as char
  }

  function Decimal(n: nat): (s: string)
    ensures s != "" && forall i | 0 <= i < |s| :: IsDigit(s[i])
  {
    if n < 10 then [Digit(n)] else Decimal(n / 10) + [Digit(n % 10)]
  }

  function SignedDecimal(n: int): string {
    if n < 0 then "-" + Decimal(-n) else Decimal(n)
  }

  predicate IsSpace(c: char) {
    c == ' ' || '\t' as int <= c as int <= '\r' as int
  }

  function SkipSpace(s: string): string {
    if s != "" && IsSpace(s[0]) then SkipSpace(s[1..]) else s
  }

  /** Leading digits, accumulated from the left. */
  function ReadDigits(value: nat, s: string): nat
    decreases |s|
  {
    if s == "" || !IsDigit(s[0]) then value else ReadDigits(value * 10 + DigitValue(s[0]), s[1..])
  }

  /** The sign if any, and the digits after it. */
  function ReadNumber(s: string): (bool, nat) {
    var t := SkipSpace(s);
    if t != "" && t[0] == '-' then (true, ReadDigits(0, t[1..]))
    else if t != "" && t[0] == '+' then (false, ReadDigits(0, t[1..]))
    else (false, ReadDigits(0, t))
  }

  /** strtoull in base 10: saturates, and negates modulo 2^64. */
  function ReadUnsigned(s: string): nat {
    var (negative, value) := ReadNumber(s);
    if value >= TWO_TO_64 then TWO_TO_64 - 1 else if negative && value > 0 then TWO_TO_64 - value else value
  }

  /** strtoll in base 10: saturates at both ends. */
  function ReadSigned(s: string): int {
    var (negative, value) := ReadNumber(s);
    if negative then (if value > TWO_TO_63 then -TWO_TO_63 else -(value as int))
    else if value >= TWO_TO_63 then TWO_TO_63 - 1 else value
  }

  lemma {:induction false} ReadOneMore(value: nat, s: string, c: char)
    requires IsDigit(c) && forall i | 0 <= i < |s| :: IsDigit(s[i])
    ensures ReadDigits(value, s + [c]) == ReadDigits(value, s) * 10 + DigitValue(c)
    decreases |s|
  {
    if s == "" {
      assert (s + [c])[1..] == "";
    } else {
      assert (s + [c])[1..] == s[1..] + [c];
      ReadOneMore(value * 10 + DigitValue(s[0]), s[1..], c);
    }
  }

  lemma {:induction false} DecimalReadsBack(n: nat)
    ensures ReadDigits(0, Decimal(n)) == n
  {
    if n < 10 {
      assert Decimal(n)[1..] == "";
    } else {
      DecimalReadsBack(n / 10);
      ReadOneMore(0, Decimal(n / 10), Digit(n % 10));
    }
  }

  lemma UnsignedRoundTrip(n: nat)
    requires n < TWO_TO_64
    ensures ReadUnsigned(Decimal(n)) == n
  {
    DecimalReadsBack(n);
    assert IsDigit(Decimal(n)[0]);
  }

  lemma SignedRoundTrip(n: int)
    requires -TWO_TO_63 <= n < TWO_TO_63
    ensures ReadSigned(SignedDecimal(n)) == n
  {
    if n < 0 {
      DecimalReadsBack(-n);
      assert SignedDecimal(n)[1..] == Decimal(-n);
    } else {
      DecimalReadsBack(n);
      assert IsDigit(Decimal(n)[0]);
    }
  }

  // ----- Hexadecimal -----

  const HEX: string := "0123456789abcdef"

  function HexDigit(d: nat): char
    requires d < 16
  {
    HEX[d]
  }

  function HexValue(c: char): (v: Option<nat>)
    ensures v.Some? ==> v.value < 16
  {
    if '0' <= c <= '9' then Some(c as int - '0' as int)
    else if 'a' <= c <= 'f' then Some(c as int - 'a' as int + 10)
    else if 'A' <= c <= 'F' then Some(c as int - 'A' as int + 10)
    else None
  }

  lemma HexDigitReadsBack(d: nat)
    requires d < 16
    ensures HexValue(HexDigit(d)) == Some(d)
    ensures HexDigit(d) != '\n'
  {
  }

  /** stoi in base 16 of two characters, cut to a byte; None where it throws.  A space or a
      sign may stand for the first digit, and a second character that is no digit ends the
      number. */
  function ReadPair(a: char, b: char): Option<Byte> {
    var (high, low) := (HexValue(a), HexValue(b));
    if high.Some? then (if low.Some? then Some(16 * high.value + low.value) else Some(high.value))
    else if low.None? then None
    else if IsSpace(a) || a == '+' then Some(low.value)
    else if a == '-' then Some(if low.value == 0 then 0 else 256 - low.value)
    else None
  }

  function HexOf(bytes: seq<Byte>): string
    decreases |bytes|
  {
    if bytes == [] then "" else
    [HexDigit(bytes[0] / 16), HexDigit(bytes[0] % 16)] + HexOf(bytes[1..])
  }

  method ToHex(bytes: seq<Byte>) returns (hex: string)
    ensures hex == HexOf(bytes)
  {
    hide HexDigit;
    hex := "";
    for i := 0 to |bytes|
      invariant HexOf(bytes) == hex + HexOf(bytes[i..])
    {
      assert bytes[i..][1..] == bytes[i + 1..];
      hex := hex + [HexDigit(bytes[i] / 16)];
      hex := hex + [HexDigit(bytes[i] % 16)];
    }
  }

  function Prepend(read: seq<Byte>, rest: Option<seq<Byte>>): Option<seq<Byte>> {
    if rest.None? then None else Some(read + rest.value)
  }

  /** The pairs from the left; an odd last character is ignored. */
  function BytesOf(hex: string): Option<seq<Byte>>
    decreases |hex|
  {
    if |hex| < 2 then Some([]) else
    var first := ReadPair(hex[0], hex[1]);
    if first.None? then None else Prepend([first.value], BytesOf(hex[2..]))
  }

  method FromHex(hex: string) returns (bytes: Option<seq<Byte>>)
    ensures bytes == BytesOf(hex)
  {
    hide ReadPair;
    var read: seq<Byte> := [];
    var i: nat := 0;
    assert hex[0..] == hex;
    assert BytesOf(hex).Some? ==> [] + BytesOf(hex).value == BytesOf(hex).value;
    while i + 1 < |hex|
      invariant i <= |hex|
      invariant BytesOf(hex) == Prepend(read, BytesOf(hex[i..]))
      decreases |hex| - i
    {
      var next := ReadPair(hex[i], hex[i + 1]);
      assert hex[i..][2..] == hex[i + 2..];
      if next.None? {
        return None;
      }
      ghost var rest := BytesOf(hex[i + 2..]);
      assert rest.Some? ==> read + ([next.value] + rest.value) == (read + [next.value]) + rest.value;
      read := read + [next.value];
      i := i + 2;
    }
    assert BytesOf(hex[i..]) == Some([]) && read + [] == read;
    return Some(read);
  }

  lemma PairReadsBack(b: Byte)
    ensures ReadPair(HexDigit(b / 16), HexDigit(b % 16)) == Some(b)
  {
    hide HexDigit, HexValue;
    HexDigitReadsBack(b / 16);
    HexDigitReadsBack(b % 16);
  }

  lemma {:induction false} HexRoundTrip(bytes: seq<Byte>)
    ensures BytesOf(HexOf(bytes)) == Some(bytes)
    ensures |HexOf(bytes)| == 2 * |bytes| && '\n' !in HexOf(bytes)
    decreases |bytes|
  {
    hide ReadPair, HexDigit;
    if bytes != [] {
      var hex := HexOf(bytes);
      HexRoundTrip(bytes[1..]);
      HexDigitReadsBack(bytes[0] / 16);
      HexDigitReadsBack(bytes[0] % 16);
      PairReadsBack(bytes[0]);
      assert hex[2..] == HexOf(bytes[1..]);
      assert [bytes[0]] + bytes[1..] == bytes;
    }
  }

  // ----- Lines -----

  /** The first place of a character, or the length. */
  function Find(s: string, c: char): (i: nat)
    ensures i <= |s| && (i < |s| ==> s[i] == c) && forall j | 0 <= j < i :: s[j] != c
  {
    if s == "" || s[0] == c then 0 else 1 + Find(s[1..], c)
  }

  /** Lines as getline reads them: a last newline starts no further line. */
  function Lines(text: string): seq<string>
    decreases |text|
  {
    if text == "" then [] else
    var i := Find(text, '\n');
    if i == |text| then [text] else [text[..i]] + Lines(text[i + 1..])
  }

  lemma FindFirst(line: string, c: char, rest: string)
    requires c !in line
    ensures Find(line + [c] + rest, c) == |line|
  {
    hide Find;
    var text := line + [c] + rest;
    assert text[|line|] == c && forall j | 0 <= j < |line| :: text[j] == line[j];
  }

  lemma FirstLine(line: string, rest: string)
    requires '\n' !in line
    ensures Lines(line + "\n" + rest) == [line] + Lines(rest)
  {
    hide Find;
    var text := line + "\n" + rest;
    FindFirst(line, '\n', rest);
    assert text[..|line|] == line && text[|line| + 1..] == rest;
  }
}
