/** The signed manifest file: one field per line, the signature last, in hexadecimal. */
module SignedManifest {
  import opened Basics
  import opened ManifestText
  import opened OtaManifest
  import opened Options

  /** The two objects the parser fills. */
  datatype Fields = Fields(manifest: Manifest, signature: seq<Byte>)

  /** Threw: the hexadecimal of a signature line did not convert. */
  datatype Outcome = Parsed(fields: Fields) | Rejected | Threw

  const VERSION: string := "version="
  const HASH: string := "binary_sha256="
  const URL: string := "url="
  const ISSUED: string := "issued_unix_ns="
  const SIGNATURE: string := "signature_hex="

  const EMPTY: Fields := Fields(Manifest(0, "", "", 0), [])

  function Serialize(m: Manifest, signature: seq<Byte>): string {
    VERSION + Decimal(m.version) + "\n" + HASH + m.hash + "\n" + URL + m.url + "\n"
      + ISSUED + SignedDecimal(m.issued) + "\n" + SIGNATURE + HexOf(signature) + "\n"
  }

  /** One line of the file. */
  function Feed(f: Fields, line: string): Outcome {
    if VERSION <= line then Parsed(f.(manifest := f.manifest.(version := ReadUnsigned(line[|VERSION|..]))))
    else if HASH <= line then Parsed(f.(manifest := f.manifest.(hash := line[|HASH|..])))
    else if URL <= line then Parsed(f.(manifest := f.manifest.(url := line[|URL|..])))
    else if ISSUED <= line then Parsed(f.(manifest := f.manifest.(issued := ReadSigned(line[|ISSUED|..]))))
    else if SIGNATURE <= line then
      (match BytesOf(line[|SIGNATURE|..])
       case None => Threw
       case Some(bytes) => Parsed(f.(signature := bytes)))
    else if line == "" then Parsed(f)
    else Rejected
  }

  function FeedAll(f: Fields, lines: seq<string>): Outcome
    decreases |lines|
  {
    if lines == [] then (if f.signature == [] then Rejected else Parsed(f)) else
    var next := Feed(f, lines[0]);
    if next.Parsed? then FeedAll(next.fields, lines[1..]) else next
  }

  /** The parser on a text, starting from empty objects. */
  function Parse(text: string): Outcome {
    FeedAll(EMPTY, Lines(text))
  }

  method ParseSignedManifest(text: string) returns (outcome: Outcome)
    ensures outcome == Parse(text)
  {
    hide Feed;
    var fields := EMPTY;
    var rest := text;
    while rest != ""
      invariant Parse(text) == FeedAll(fields, Lines(rest))
      decreases |rest|
    {
      var i := Find(rest, '\n');
      var line := rest[..i];
      assert Lines(rest)[0] == line;
      var next := Feed(fields, line);
      if !next.Parsed? {
        return next;
      }
      fields := next.fields;
      assert i < |rest| ==> Lines(rest)[1..] == Lines(rest[i + 1..]);
      rest := if i < |rest| then rest[i + 1..] else "";
    }
    return if fields.signature == [] then Rejected else Parsed(fields);
  }

  // ----- Round trip -----

  lemma NumbersAreOneLine(version: nat, issued: int)
    ensures '\n' !in Decimal(version) && '\n' !in SignedDecimal(issued)
  {
  }

  lemma Starts(key: string, value: string)
    ensures key <= key + value && (key + value)[|key|..] == value
  {
  }

  lemma FeedVersion(f: Fields, version: nat)
    requires version < TWO_TO_64
    ensures Feed(f, VERSION + Decimal(version)) == Parsed(f.(manifest := f.manifest.(version := version)))
  {
    hide Decimal, ReadUnsigned;
    Starts(VERSION, Decimal(version));
    UnsignedRoundTrip(version);
  }

  lemma FeedHash(f: Fields, hash: string)
    ensures Feed(f, HASH + hash) == Parsed(f.(manifest := f.manifest.(hash := hash)))
  {
    Starts(HASH, hash);
    assert (HASH + hash)[0] == 'b' && VERSION[0] == 'v';
  }

  lemma FeedUrl(f: Fields, url: string)
    ensures Feed(f, URL + url) == Parsed(f.(manifest := f.manifest.(url := url)))
  {
    Starts(URL, url);
    assert (URL + url)[0] == 'u' && VERSION[0] == 'v' && HASH[0] == 'b';
  }

  lemma FeedIssued(f: Fields, issued: int)
    requires -TWO_TO_63 <= issued < TWO_TO_63
    ensures Feed(f, ISSUED + SignedDecimal(issued)) == Parsed(f.(manifest := f.manifest.(issued := issued)))
  {
    hide SignedDecimal, ReadSigned;
    Starts(ISSUED, SignedDecimal(issued));
    SignedRoundTrip(issued);
    assert (ISSUED + SignedDecimal(issued))[0] == 'i' && VERSION[0] == 'v' && HASH[0] == 'b' && URL[0] == 'u';
  }

  lemma FeedSignature(f: Fields, signature: seq<Byte>)
    ensures Feed(f, SIGNATURE + HexOf(signature)) == Parsed(f.(signature := signature))
  {
    hide HexOf, BytesOf;
    Starts(SIGNATURE, HexOf(signature));
    HexRoundTrip(signature);
    assert (SIGNATURE + HexOf(signature))[0] == 's';
    assert VERSION[0] == 'v' && HASH[0] == 'b' && URL[0] == 'u' && ISSUED[0] == 'i';
  }

  /** Lines written one after another, each ended. */
  function Joined(lines: seq<string>): string
    decreases |lines|
  {
    if lines == [] then "" else lines[0] + "\n" + Joined(lines[1..])
  }

  lemma {:induction false} LinesOfJoined(lines: seq<string>)
    requires forall i | 0 <= i < |lines| :: '\n' !in lines[i]
    ensures Lines(Joined(lines)) == lines
    decreases |lines|
  {
    if lines != [] {
      LinesOfJoined(lines[1..]);
      FirstLine(lines[0], Joined(lines[1..]));
      assert [lines[0]] + lines[1..] == lines;
    }
  }

  function FieldLines(m: Manifest, signature: seq<Byte>): seq<string> {
    [VERSION + Decimal(m.version), HASH + m.hash, URL + m.url, ISSUED + SignedDecimal(m.issued),
     SIGNATURE + HexOf(signature)]
  }

  lemma JoinedFive(a: string, b: string, c: string, d: string, e: string)
    ensures Joined([a, b, c, d, e]) == a + "\n" + b + "\n" + c + "\n" + d + "\n" + e + "\n"
  {
    assert [a, b, c, d, e][1..] == [b, c, d, e] && [b, c, d, e][1..] == [c, d, e];
    assert [c, d, e][1..] == [d, e] && [d, e][1..] == [e] && [e][1..] == [];
    assert Joined([e]) == e + "\n";
    assert Joined([d, e]) == d + "\n" + Joined([e]);
    assert Joined([c, d, e]) == c + "\n" + Joined([d, e]);
    assert Joined([b, c, d, e]) == b + "\n" + Joined([c, d, e]);
  }

  lemma SerializeShape(m: Manifest, signature: seq<Byte>)
    ensures Serialize(m, signature) == Joined(FieldLines(m, signature))
  {
    hide Decimal, SignedDecimal, HexOf, Joined;
    JoinedFive(VERSION + Decimal(m.version), HASH + m.hash, URL + m.url, ISSUED + SignedDecimal(m.issued),
               SIGNATURE + HexOf(signature));
  }

  lemma FeedOne(f: Fields, line: string, rest: seq<string>, next: Fields)
    requires Feed(f, line) == Parsed(next)
    ensures FeedAll(f, [line] + rest) == FeedAll(next, rest)
  {
    hide Feed;
    assert ([line] + rest)[1..] == rest;
  }

  lemma RoundTrip(m: Manifest, signature: seq<Byte>)
    requires m.Valid() && '\n' !in m.hash && '\n' !in m.url
    ensures Parse(Serialize(m, signature)) == if signature == [] then Rejected else Parsed(Fields(m, signature))
  {
    hide Feed, FeedAll, Lines, Decimal, SignedDecimal, HexOf, Serialize, Joined;
    SerializeShape(m, signature);
    NumbersAreOneLine(m.version, m.issued);
    HexRoundTrip(signature);
    LinesOfJoined(FieldLines(m, signature));
    FieldsOfLines(m, signature);
  }

  /** The five lines in turn. */
  lemma FieldsOfLines(m: Manifest, signature: seq<Byte>)
    requires m.Valid()
    ensures FeedAll(EMPTY, FieldLines(m, signature))
            == if signature == [] then Rejected else Parsed(Fields(m, signature))
  {
    hide Feed, FeedAll, Decimal, SignedDecimal, HexOf;
    var lines := FieldLines(m, signature);
    var f1 := EMPTY.(manifest := EMPTY.manifest.(version := m.version));
    var f2 := f1.(manifest := f1.manifest.(hash := m.hash));
    var f3 := f2.(manifest := f2.manifest.(url := m.url));
    var f4 := f3.(manifest := m);
    var f5 := Fields(m, signature);
    FeedVersion(EMPTY, m.version);
    FeedHash(f1, m.hash);
    FeedUrl(f2, m.url);
    FeedIssued(f3, m.issued);
    FeedSignature(f4, signature);
    FeedOne(EMPTY, lines[0], lines[1..], f1);
    FeedOne(f1, lines[1], lines[2..], f2);
    FeedOne(f2, lines[2], lines[3..], f3);
    FeedOne(f3, lines[3], lines[4..], f4);
    FeedOne(f4, lines[4], [], f5);
    assert lines == [lines[0]] + lines[1..] && lines[1..] == [lines[1]] + lines[2..];
    assert lines[2..] == [lines[2]] + lines[3..] && lines[3..] == [lines[3]] + lines[4..];
    assert lines[4..] == [lines[4]] + [];
    FeedNothing(f5);
  }

  lemma FeedNothing(f: Fields)
    ensures FeedAll(f, []) == if f.signature == [] then Rejected else Parsed(f)
  {
  }

  // ----- What the parser can return -----

  predicate OneLine(f: Fields) {
    '\n' !in f.manifest.hash && '\n' !in f.manifest.url
  }

  lemma {:induction false} LinesHaveNoNewline(text: string)
    ensures forall i | 0 <= i < |Lines(text)| :: '\n' !in Lines(text)[i]
    decreases |text|
  {
    if text != "" {
      var i := Find(text, '\n');
      if i < |text| {
        LinesHaveNoNewline(text[i + 1..]);
      }
    }
  }

  lemma {:induction false} FeedKeepsOneLine(f: Fields, lines: seq<string>)
    requires OneLine(f) && forall i | 0 <= i < |lines| :: '\n' !in lines[i]
    ensures FeedAll(f, lines).Parsed? ==>
              OneLine(FeedAll(f, lines).fields) && FeedAll(f, lines).fields.signature != []
    decreases |lines|
  {
    hide ReadUnsigned, ReadSigned, BytesOf;
    if lines != [] {
      var next := Feed(f, lines[0]);
      if next.Parsed? {
        FeedKeepsOneLine(next.fields, lines[1..]);
      }
    }
  }

  /** Parsing what was serialized returns the manifest and signature exactly when hash and
      url hold no newline and the signature is not empty. */
  lemma RoundTripIff(m: Manifest, signature: seq<Byte>)
    requires m.Valid()
    ensures Parse(Serialize(m, signature)) == Parsed(Fields(m, signature)) <==>
            '\n' !in m.hash && '\n' !in m.url && signature != []
  {
    hide Serialize, FeedAll, Lines;
    if '\n' !in m.hash && '\n' !in m.url {
      RoundTrip(m, signature);
    }
    var lines := Lines(Serialize(m, signature));
    LinesHaveNoNewline(Serialize(m, signature));
    FeedKeepsOneLine(EMPTY, lines);
  }

  /** The writer of the file. */
  method SerializeSignedManifest(m: Manifest, signature: seq<Byte>) returns (text: string)
    ensures text == Serialize(m, signature)
    ensures m.Valid() && '\n' !in m.hash && '\n' !in m.url && signature != [] ==>
              Parse(text) == Parsed(Fields(m, signature))
  {
    text := "version=" + Decimal(m.version) + "\n";
    text := text + "binary_sha256=" + m.hash + "\n";
    text := text + "url=" + m.url + "\n";
    text := text + "issued_unix_ns=" + SignedDecimal(m.issued) + "\n";
    var hex := ToHex(signature);
    text := text + "signature_hex=" + hex + "\n";
    if m.Valid() {
      RoundTripIff(m, signature);
    }
  }
}
