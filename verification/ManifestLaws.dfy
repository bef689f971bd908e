/** The manifest's text formats, stated without the functions that read and write them: what
    each printed character is, what the number readers make of any text around a number, and
    exactly which files parse, to what. */
module ManifestLaws {
  import opened Basics
  import opened ManifestText
  import opened Options
  import opened OtaManifest
  import opened SignedManifest

  // ----- Printed numbers -----

  function PowerOfTen(k: nat): (p: nat)
    ensures p > 0
  {
    if k == 0 then 1 else 10 * PowerOfTen(k - 1)
  }

  lemma DivideAgain(n: nat, p: nat)
    requires p > 0
    ensures n / (10 * p) == n / 10 / p
  {
    var q, r := n / 10 / p, n / 10 % p;
    assert n / 10 == p * q + r;
    assert 10 * (p * q) == (10 * p) * q;
    Remainder(n, 10 * p, q, n % 10 + 10 * r);
  }

  lemma DecimalStep(n: nat)
    ensures Decimal(n) == if n < 10 then [Digit(n)] else Decimal(n / 10) + [Digit(n % 10)]
  {
  }

  lemma DigitIs(d: nat)
    requires d < 10
    ensures Digit(d) as int == 48 + d
  {
  }

  lemma PowerStep(n: nat, i: nat)
    ensures i == 0 ==> n / PowerOfTen(i) == n
    ensures i > 0 ==> n / PowerOfTen(i) == n / 10 / PowerOfTen(i - 1)
  {
    if i > 0 {
      DivideAgain(n, PowerOfTen(i - 1));
    }
  }

  /** Place i from the right holds the digit of weight 10^i. */
  lemma {:induction false} DecimalDigit(n: nat, i: nat)
    requires i < |Decimal(n)|
    ensures Decimal(n)[|Decimal(n)| - 1 - i] as int == 48 + n / PowerOfTen(i) % 10
    decreases n
  {
    hide Decimal, Digit, PowerOfTen;
    DecimalStep(n);
    PowerStep(n, i);
    DigitIs(n % 10);
    if i > 0 {
      DecimalDigit(n / 10, i - 1);
    }
  }

  /** There are as many places as the number needs, so no leading zero. */
  lemma {:induction false} DecimalLength(n: nat)
    ensures n < PowerOfTen(|Decimal(n)|)
    ensures n > 0 ==> PowerOfTen(|Decimal(n)| - 1) <= n
    decreases n
  {
    if n >= 10 {
      DecimalLength(n / 10);
      assert PowerOfTen(|Decimal(n)|) == 10 * PowerOfTen(|Decimal(n / 10)|);
    } else {
      assert PowerOfTen(1) == 10 * PowerOfTen(0);
    }
  }

  // ----- Numbers as the C library reads them -----

  lemma {:induction false} SpaceIsSkipped(space: string, rest: string)
    requires (forall i | 0 <= i < |space| :: IsSpace(space[i])) && (rest != "" ==> !IsSpace(rest[0]))
    ensures SkipSpace(space + rest) == rest
    decreases |space|
  {
    if space == "" {
      assert space + rest == rest;
    } else {
      assert (space + rest)[1..] == space[1..] + rest;
      SpaceIsSkipped(space[1..], rest);
    }
  }

  lemma {:induction false} JunkIsIgnored(value: nat, digits: string, junk: string)
    requires (forall i | 0 <= i < |digits| :: IsDigit(digits[i])) && (junk != "" ==> !IsDigit(junk[0]))
    ensures ReadDigits(value, digits + junk) == ReadDigits(value, digits)
    decreases |digits|
  {
    if digits == "" {
      assert digits + junk == junk;
    } else {
      assert (digits + junk)[1..] == digits[1..] + junk;
      JunkIsIgnored(value * 10 + DigitValue(digits[0]), digits[1..], junk);
    }
  }

  /** Reading a number surrounded by anything the readers skip. */
  lemma ReadsSurrounded(space: string, sign: string, n: nat, junk: string)
    requires forall i | 0 <= i < |space| :: space[i] in " \t\n\r" || space[i] as int in {11, 12}
    requires sign in {"", "+", "-"} && (junk != "" ==> !('0' <= junk[0] <= '9'))
    ensures ReadNumber(space + (sign + (Decimal(n) + junk))) == (sign == "-", n)
  {
    hide Decimal;
    var text := sign + (Decimal(n) + junk);
    assert IsDigit(Decimal(n)[0]);
    assert !IsSpace(text[0]);
    SpaceIsSkipped(space, text);
    if sign == "" {
      assert text == Decimal(n) + junk;
    } else {
      assert text[1..] == Decimal(n) + junk;
    }
    JunkIsIgnored(0, Decimal(n), junk);
    DecimalReadsBack(n);
  }

  /** The version field: a value too large saturates, a negative one wraps. */
  lemma ReadsUnsigned(space: string, sign: string, n: nat, junk: string)
    requires forall i | 0 <= i < |space| :: space[i] in " \t\n\r" || space[i] as int in {11, 12}
    requires sign in {"", "+", "-"} && (junk != "" ==> !('0' <= junk[0] <= '9'))
    ensures ReadUnsigned(space + (sign + (Decimal(n) + junk)))
         == if n >= 0x1_0000_0000_0000_0000 then 0xFFFF_FFFF_FFFF_FFFF
            else if sign == "-" then (0x1_0000_0000_0000_0000 - n) % 0x1_0000_0000_0000_0000 else n
  {
    hide ReadNumber, Decimal;
    ReadsSurrounded(space, sign, n, junk);
  }

  /** The time field: a value too large saturates at either end. */
  lemma ReadsSigned(space: string, sign: string, n: nat, junk: string)
    requires forall i | 0 <= i < |space| :: space[i] in " \t\n\r" || space[i] as int in {11, 12}
    requires sign in {"", "+", "-"} && (junk != "" ==> !('0' <= junk[0] <= '9'))
    ensures ReadSigned(space + (sign + (Decimal(n) + junk)))
         == if sign == "-" then (if n <= 0x8000_0000_0000_0000 then -(n as int) else -0x8000_0000_0000_0000)
            else if n <= 0x7FFF_FFFF_FFFF_FFFF then n else 0x7FFF_FFFF_FFFF_FFFF
  {
    hide ReadNumber, Decimal;
    ReadsSurrounded(space, sign, n, junk);
  }

  // ----- Hexadecimal -----

  /** Each byte is two digits, the high one first. */
  lemma {:induction false} HexDigits(bytes: seq<Byte>, i: nat)
    requires i < |bytes|
    ensures |HexOf(bytes)| == 2 * |bytes|
    ensures HexOf(bytes)[2 * i] == "0123456789abcdef"[bytes[i] / 16]
    ensures HexOf(bytes)[2 * i + 1] == "0123456789abcdef"[bytes[i] % 16]
    decreases |bytes|
  {
    hide BytesOf;
    HexRoundTrip(bytes);
    var rest := HexOf(bytes[1..]);
    var hex := [HexDigit(bytes[0] / 16), HexDigit(bytes[0] % 16)] + rest;
    assert HexOf(bytes) == hex;
    if i > 0 {
      HexDigits(bytes[1..], i - 1);
      assert hex[2 * i] == rest[2 * (i - 1)] && hex[2 * i + 1] == rest[2 * (i - 1) + 1];
    }
  }

  /** Leading hexadecimal digits, accumulated from the left. */
  function ReadHex(value: nat, s: string): nat
    decreases |s|
  {
    if s == "" || HexValue(s[0]).None? then value else ReadHex(16 * value + HexValue(s[0]).value, s[1..])
  }

  /** stoi in base 16 of any text: space, a sign, an 0x that digits follow, then digits; it
      throws without one. */
  function Stoi16(s: string): Option<int> {
    var t := SkipSpace(s);
    var signed := t != "" && (t[0] == '-' || t[0] == '+');
    var u := if signed then t[1..] else t;
    var digits := if |u| >= 3 && u[0] == '0' && u[1] in "xX" && HexValue(u[2]).Some? then u[2..] else u;
    var value: int := ReadHex(0, digits);
    if digits == "" || HexValue(digits[0]).None? then None else Some(if signed && t[0] == '-' then -value else value)
  }

  lemma ReadHexStep(value: nat, s: string)
    ensures ReadHex(value, s) == if s == "" || HexValue(s[0]).None? then value
                                 else ReadHex(16 * value + HexValue(s[0]).value, s[1..])
  {
  }

  lemma ReadHexOne(value: nat, c: char)
    ensures ReadHex(value, [c]) == if HexValue(c).None? then value else 16 * value + HexValue(c).value
  {
    hide HexValue, ReadHex;
    ReadHexStep(value, [c]);
    assert [c][1..] == "";
    if HexValue(c).Some? {
      ReadHexStep(16 * value + HexValue(c).value, "");
    }
  }

  lemma ReadHexTwo(a: char, b: char)
    requires HexValue(a).Some?
    ensures ReadHex(0, [a, b]) == if HexValue(b).None? then HexValue(a).value
                                  else 16 * HexValue(a).value + HexValue(b).value
  {
    hide HexValue, ReadHex;
    ReadHexStep(0, [a, b]);
    assert [a, b][1..] == [b];
    ReadHexOne(HexValue(a).value, b);
  }

  lemma SkipStep(s: string)
    ensures SkipSpace(s) == if s != "" && IsSpace(s[0]) then SkipSpace(s[1..]) else s
  {
  }

  lemma SkipShort(a: char, b: char)
    ensures SkipSpace([a, b]) == if !IsSpace(a) then [a, b] else if !IsSpace(b) then [b] else ""
  {
    hide SkipSpace, IsSpace;
    SkipStep([a, b]);
    SkipStep([b]);
    SkipStep("");
    assert [a, b][1..] == [b] && [b][1..] == "";
  }

  lemma NotHex(c: char)
    ensures IsSpace(c) || c == '+' || c == '-' ==> HexValue(c) == None
    ensures IsSpace(c) ==> c != '+' && c != '-'
  {
  }

  /** Each pair is read as stoi reads it, cut to a byte. */
  lemma PairIsStoi(a: char, b: char)
    ensures ReadPair(a, b) == match Stoi16([a, b]) case None => None case Some(v) => Some(v % 256)
  {
    hide HexValue, SkipSpace, ReadHex, IsSpace;
    SkipShort(a, b);
    NotHex(a);
    NotHex(b);
    if HexValue(a).Some? {
      ReadHexTwo(a, b);
    }
    ReadHexOne(0, b);
    assert [a, b][1..] == [b] && [b][1..] == "";
  }

  // ----- Whole files -----

  lemma Field(before: string, bar: string, key: string, value: string, named: string)
    requires named == bar + key
    ensures before + (bar + (key + value)) == before + named + value
  {
  }

  lemma Fields4(name: string, bar: string, k1: string, k2: string, k3: string, k4: string,
      first: string, n2: string, n3: string, n4: string, a: string, b: string, c: string, d: string)
    requires first == name + (bar + k1) && n2 == bar + k2 && n3 == bar + k3 && n4 == bar + k4
    ensures first + a + n2 + b + n3 + c + n4 + d
         == name + (bar + (k1 + a)) + (bar + (k2 + b)) + (bar + (k3 + c)) + (bar + (k4 + d))
  {
    Field(name, bar, k1, a, bar + k1);
    Field(first + a, bar, k2, b, n2);
    Field(first + a + n2 + b, bar, k3, c, n3);
    Field(first + a + n2 + b + n3 + c, bar, k4, d, n4);
  }

  lemma Bars()
    ensures "v1|version=" == "v1" + ("|" + "version=") && "|binary_sha256=" == "|" + "binary_sha256="
    ensures "|url=" == "|" + "url=" && "|issued_unix_ns=" == "|" + "issued_unix_ns="
  {
  }

  /** The canonical bytes are the format's name and the four fields, joined by bars. */
  lemma CanonicalFields(m: Manifest)
    ensures CanonicalBytes(m)
         == "v1" + ("|" + ("version=" + Decimal(m.version))) + ("|" + ("binary_sha256=" + m.hash))
            + ("|" + ("url=" + m.url)) + ("|" + ("issued_unix_ns=" + SignedDecimal(m.issued)))
  {
    hide Decimal, SignedDecimal;
    Bars();
    Fields4("v1", "|", "version=", "binary_sha256=", "url=", "issued_unix_ns=",
            "v1|version=", "|binary_sha256=", "|url=", "|issued_unix_ns=",
            Decimal(m.version), m.hash, m.url, SignedDecimal(m.issued));
  }

  /** A signed file is five lines in this order, each ended by a newline. */
  lemma SerializedLines(m: Manifest, signature: seq<Byte>)
    requires '\n' !in m.hash && '\n' !in m.url
    ensures var lines := ["version=" + Decimal(m.version), "binary_sha256=" + m.hash, "url=" + m.url,
                          "issued_unix_ns=" + SignedDecimal(m.issued), "signature_hex=" + HexOf(signature)];
            Serialize(m, signature) == Joined(lines) && Lines(Serialize(m, signature)) == lines
  {
    hide Decimal, SignedDecimal, HexOf, Serialize, Joined, Lines;
    SerializeShape(m, signature);
    NumbersAreOneLine(m.version, m.issued);
    HexRoundTrip(signature);
    LinesOfJoined(FieldLines(m, signature));
  }

  /** The text after the key in the last line that starts with it; otherwise what was there
      before. */
  function LastValue(lines: seq<string>, key: string, before: string): string
    decreases |lines|
  {
    if lines == [] then before else
    LastValue(lines[1..], key, if key <= lines[0] then lines[0][|key|..] else before)
  }

  /** The line is empty or names one of the five fields, and a signature converts. */
  predicate Readable(line: string) {
    || line == "" || "version=" <= line || "binary_sha256=" <= line || "url=" <= line || "issued_unix_ns=" <= line
    || ("signature_hex=" <= line && BytesOf(line[14..]).Some?)
  }

  /** The texts last seen for the five fields. */
  datatype Texts = Texts(version: string, hash: string, url: string, issued: string, signature: string)

  predicate Stand(t: Texts, f: Fields) {
    && f.manifest == Manifest(ReadUnsigned(t.version), t.hash, t.url, ReadSigned(t.issued))
    && BytesOf(t.signature) == Some(f.signature)
  }

  function Value(line: string, key: string, before: string): string {
    if key <= line then line[|key|..] else before
  }

  function Next(t: Texts, line: string): Texts {
    Texts(Value(line, "version=", t.version), Value(line, "binary_sha256=", t.hash), Value(line, "url=", t.url),
          Value(line, "issued_unix_ns=", t.issued), Value(line, "signature_hex=", t.signature))
  }

  /** At most one key starts a line. */
  lemma OneKey(line: string)
    ensures line != "" ==>
              && ("version=" <= line ==> line[0] == 'v') && ("binary_sha256=" <= line ==> line[0] == 'b')
              && ("url=" <= line ==> line[0] == 'u') && ("issued_unix_ns=" <= line ==> line[0] == 'i')
              && ("signature_hex=" <= line ==> line[0] == 's')
  {
  }

  lemma FeedIff(f: Fields, line: string, t: Texts)
    requires Stand(t, f)
    ensures Feed(f, line).Parsed? <==> Readable(line)
    ensures Feed(f, line).Parsed? ==> Stand(Next(t, line), Feed(f, line).fields)
  {
    hide ReadUnsigned, ReadSigned, BytesOf;
    OneKey(line);
  }

  lemma {:induction false} FeedAllIff(f: Fields, lines: seq<string>, t: Texts, g: Fields)
    requires Stand(t, f)
    ensures var last := Texts(LastValue(lines, "version=", t.version), LastValue(lines, "binary_sha256=", t.hash),
                              LastValue(lines, "url=", t.url), LastValue(lines, "issued_unix_ns=", t.issued),
                              LastValue(lines, "signature_hex=", t.signature));
            FeedAll(f, lines) == Parsed(g) <==>
            (forall i | 0 <= i < |lines| :: Readable(lines[i])) && g.signature != [] && Stand(last, g)
    decreases |lines|
  {
    hide Feed, Readable, ReadUnsigned, ReadSigned, BytesOf;
    if lines != [] {
      FeedIff(f, lines[0], t);
      if Readable(lines[0]) {
        FeedAllIff(Feed(f, lines[0]).fields, lines[1..], Next(t, lines[0]), g);
        assert (forall i | 0 <= i < |lines| :: Readable(lines[i])) <==>
               (forall i | 0 <= i < |lines[1..]| :: Readable(lines[1..][i]));
      }
    }
  }

  /** A file parses exactly when every line is empty or names one of the five fields, every
      signature line converts and the last one is not empty; each field is then what its
      last line says, and empty or zero without one. */
  lemma ParsesIff(text: string, f: Fields)
    ensures var lines := Lines(text);
            Parse(text) == Parsed(f) <==>
            && (forall i | 0 <= i < |lines| :: Readable(lines[i]))
            && f.signature != [] && BytesOf(LastValue(lines, "signature_hex=", "")) == Some(f.signature)
            && f.manifest.version == ReadUnsigned(LastValue(lines, "version=", ""))
            && f.manifest.hash == LastValue(lines, "binary_sha256=", "")
            && f.manifest.url == LastValue(lines, "url=", "")
            && f.manifest.issued == ReadSigned(LastValue(lines, "issued_unix_ns=", ""))
  {
    hide FeedAll, Readable, LastValue, Lines;
    var t := Texts("", "", "", "", "");
    assert Stand(t, EMPTY);
    FeedAllIff(EMPTY, Lines(text), t, f);
  }
}
