/** The over-the-air manifest and its canonical bytes. */
module OtaManifest {
  import opened Basics
  import opened ManifestText

  datatype Manifest = Manifest(version: nat, hash: string, url: string, issued: int) {
    /** The fields are 64-bit numbers. */
    predicate Valid() {
      version < TWO_TO_64 && -TWO_TO_63 <= issued < TWO_TO_63
    }
  }

  // ----- Canonical bytes -----

  const SEPARATOR: string := "|url="

  /** The hash and url as they stand in the canonical bytes. */
  function Middle(m: Manifest): string {
    m.hash + SEPARATOR + m.url
  }

  function CanonicalBytes(m: Manifest): string {
    "v1|version=" + Decimal(m.version) + "|binary_sha256=" + m.hash + "|url=" + m.url + "|issued_unix_ns="
      + SignedDecimal(m.issued)
  }

  lemma SameSuffix(x: string, y: string, q: string)
    requires x + q == y + q
    ensures x == y
  {
    assert |x| == |y|;
    assert (x + q)[..|x|] == x && (y + q)[..|y|] == y;
  }

  /** Where a string without c meets c, the cut is unique. */
  lemma CutAtFirst(a: string, x: string, b: string, y: string, c: char)
    requires c !in a && c !in b && a + [c] + x == b + [c] + y
    ensures a == b && x == y
  {
    var s := a + [c] + x;
    assert s[|a|] == c && s[|b|] == c;
    assert forall i | 0 <= i < |a| :: s[i] == a[i];
    assert forall i | 0 <= i < |b| :: s[i] == b[i];
    assert |a| == |b|;
    assert s[..|a|] == a && s[..|b|] == b;
    assert s[|a| + 1..] == x && s[|b| + 1..] == y;
  }

  lemma CutAtLast(x: string, a: string, y: string, b: string, c: char)
    requires c !in a && c !in b && x + [c] + a == y + [c] + b
    ensures x == y && a == b
  {
    var s := x + [c] + a;
    var n := |s|;
    assert s[|x|] == c && s[|y|] == c;
    assert forall i | |x| < i < n :: s[i] == a[i - |x| - 1];
    assert forall i | |y| < i < n :: s[i] == b[i - |y| - 1];
    assert |x| == |y|;
    assert s[..|x|] == x && s[..|y|] == y;
    assert s[|x| + 1..] == a && s[|y| + 1..] == b;
  }

  lemma DecimalIsInjective(m: nat, n: nat)
    requires Decimal(m) == Decimal(n)
    ensures m == n
  {
    DecimalReadsBack(m);
    DecimalReadsBack(n);
  }

  lemma SignedDecimalIsInjective(m: int, n: int)
    requires SignedDecimal(m) == SignedDecimal(n)
    ensures m == n
  {
    SignShows(m);
    SignShows(n);
    if m < 0 {
      assert SignedDecimal(m)[1..] == Decimal(-m) && SignedDecimal(n)[1..] == Decimal(-n);
      DecimalIsInjective(-m, -n);
    } else {
      DecimalIsInjective(m, n);
    }
  }

  lemma SignShows(n: int)
    ensures SignedDecimal(n) != "" && (SignedDecimal(n)[0] == '-' <==> n < 0)
  {
    if n >= 0 {
      assert IsDigit(Decimal(n)[0]);
    }
  }

  lemma NoSeparatorsInNumbers(version: nat, issued: int)
    ensures '|' !in Decimal(version) && '=' !in SignedDecimal(issued)
  {
  }

  /** Two manifests have the same canonical bytes exactly when they agree on version, time
      and the joint text of hash and url. */
  lemma SameBytesIff(m: Manifest, n: Manifest)
    ensures CanonicalBytes(m) == CanonicalBytes(n) <==>
            m.version == n.version && m.issued == n.issued && Middle(m) == Middle(n)
  {
    hide CanonicalBytes, Numbered, Middle;
    CanonicalShape(m);
    CanonicalShape(n);
    if CanonicalBytes(m) == CanonicalBytes(n) {
      SameBytesSameParts(m, n);
    }
  }

  function Numbered(version: nat, middle: string): string {
    "v1|version=" + Decimal(version) + "|" + ("binary_sha256=" + middle + "|issued_unix_ns")
  }

  lemma CanonicalShape(m: Manifest)
    ensures CanonicalBytes(m) == Numbered(m.version, Middle(m)) + "=" + SignedDecimal(m.issued)
  {
    hide Decimal, SignedDecimal;
    var number := Decimal(m.version);
    assert CanonicalBytes(m) == "v1|version=" + number + "|binary_sha256=" + (m.hash + "|url=" + m.url)
                                + "|issued_unix_ns=" + SignedDecimal(m.issued);
    assert "|issued_unix_ns=" == "|issued_unix_ns" + "=" && "|binary_sha256=" == "|" + "binary_sha256=";
  }

  lemma SameBytesSameParts(m: Manifest, n: Manifest)
    requires CanonicalBytes(m) == CanonicalBytes(n)
    ensures m.version == n.version && m.issued == n.issued && Middle(m) == Middle(n)
  {
    hide Numbered, CanonicalBytes, Middle, SignedDecimal;
    CanonicalShape(m);
    CanonicalShape(n);
    NoSeparatorsInNumbers(m.version, m.issued);
    NoSeparatorsInNumbers(n.version, n.issued);
    CutAtLast(Numbered(m.version, Middle(m)), SignedDecimal(m.issued),
              Numbered(n.version, Middle(n)), SignedDecimal(n.issued), '=');
    SignedDecimalIsInjective(m.issued, n.issued);
    SameNumbered(m.version, Middle(m), n.version, Middle(n));
  }

  lemma SameNumbered(v: nat, x: string, w: nat, y: string)
    requires Numbered(v, x) == Numbered(w, y)
    ensures v == w && x == y
  {
    hide Decimal;
    NoSeparatorsInNumbers(v, 0);
    NoSeparatorsInNumbers(w, 0);
    var p, q := "binary_sha256=" + x + "|issued_unix_ns", "binary_sha256=" + y + "|issued_unix_ns";
    assert Numbered(v, x) == "v1|version=" + (Decimal(v) + "|" + p);
    assert Numbered(w, y) == "v1|version=" + (Decimal(w) + "|" + q);
    SamePrefix("v1|version=", Decimal(v) + "|" + p, Decimal(w) + "|" + q);
    CutAtFirst(Decimal(v), p, Decimal(w), q, '|');
    DecimalIsInjective(v, w);
    SameSuffix("binary_sha256=" + x, "binary_sha256=" + y, "|issued_unix_ns");
    SamePrefix("binary_sha256=", x, y);
  }

  /** Among manifests whose hash has no '|', the canonical bytes determine the manifest,
      whatever the url holds. */
  lemma CanonicalIsInjective(m: Manifest, n: Manifest)
    requires '|' !in m.hash && '|' !in n.hash && CanonicalBytes(m) == CanonicalBytes(n)
    ensures m == n
  {
    hide CanonicalBytes;
    SameBytesIff(m, n);
    assert Middle(m) == m.hash + "|" + ("url=" + m.url) && Middle(n) == n.hash + "|" + ("url=" + n.url);
    CutAtFirst(m.hash, "url=" + m.url, n.hash, "url=" + n.url, '|');
    SamePrefix("url=", m.url, n.url);
  }

  predicate OccursAt(s: string, i: nat, k: string) {
    i + |k| <= |s| && s[i..i + |k|] == k
  }

  predicate Occurs(k: string, s: string) {
    exists i | 0 <= i <= |s| :: OccursAt(s, i, k)
  }

  ghost predicate Collides(m: Manifest) {
    exists n: Manifest :: n != m && CanonicalBytes(n) == CanonicalBytes(m)
  }

  /** Moving the cut to a separator inside the hash keeps the joint text. */
  lemma CutInHash(m: Manifest, i: nat)
    requires OccursAt(m.hash, i, SEPARATOR)
    ensures Collides(m)
  {
    hide CanonicalBytes;
    var n := m.(hash := m.hash[..i], url := m.hash[i + 5..] + SEPARATOR + m.url);
    assert m.hash == m.hash[..i] + SEPARATOR + m.hash[i + 5..];
    assert Middle(n) == Middle(m);
    SameBytesIff(n, m);
    assert |n.hash| < |m.hash|;
  }

  lemma CutInUrl(m: Manifest, i: nat)
    requires OccursAt(m.url, i, SEPARATOR)
    ensures Collides(m)
  {
    hide CanonicalBytes;
    var n := m.(hash := m.hash + SEPARATOR + m.url[..i], url := m.url[i + 5..]);
    assert m.url == m.url[..i] + SEPARATOR + m.url[i + 5..];
    assert Middle(n) == Middle(m);
    SameBytesIff(n, m);
    assert |m.hash| < |n.hash|;
  }

  /** A manifest shares its canonical bytes with another exactly when the separator occurs
      inside its hash or inside its url. */
  lemma CollidesIff(m: Manifest)
    ensures Collides(m) <==> Occurs(SEPARATOR, m.hash) || Occurs(SEPARATOR, m.url)
  {
    hide CanonicalBytes, OccursAt;
    if Collides(m) {
      var n: Manifest :| n != m && CanonicalBytes(n) == CanonicalBytes(m);
      SameBytesIff(m, n);
      SecondCut(m.hash, m.url, n.hash, n.url);
    }
    if Occurs(SEPARATOR, m.hash) {
      var i :| 0 <= i <= |m.hash| && OccursAt(m.hash, i, SEPARATOR);
      CutInHash(m, i);
    } else if Occurs(SEPARATOR, m.url) {
      var i :| 0 <= i <= |m.url| && OccursAt(m.url, i, SEPARATOR);
      CutInUrl(m, i);
    }
  }

  lemma SameCut(h: string, u: string, h': string, u': string)
    requires h + SEPARATOR + u == h' + SEPARATOR + u' && |h| == |h'|
    ensures h == h' && u == u'
  {
    assert (h + SEPARATOR + u)[..|h|] == h && (h' + SEPARATOR + u')[..|h'|] == h';
    SamePrefix(h + SEPARATOR, u, u');
  }

  lemma Spelled(s: string, i: nat)
    requires OccursAt(s, i, SEPARATOR)
    ensures s[i] == '|' && s[i + 1] == 'u' && s[i + 2] == 'r' && s[i + 3] == 'l' && s[i + 4] == '='
  {
    var k := s[i..i + 5];
    assert s[i] == k[0] && s[i + 1] == k[1] && s[i + 2] == k[2] && s[i + 3] == k[3] && s[i + 4] == k[4];
  }

  /** Two readings of one joint text: the separator that ends one of them lies inside the
      other's hash or url. */
  lemma SecondCut(h: string, u: string, h': string, u': string)
    requires h + SEPARATOR + u == h' + SEPARATOR + u' && (h, u) != (h', u')
    ensures Occurs(SEPARATOR, h) || Occurs(SEPARATOR, u)
  {
    var s := h + SEPARATOR + u;
    if |h| == |h'| {
      SameCut(h, u, h', u');
    }
    assert OccursAt(s, |h|, SEPARATOR);
    assert OccursAt(h' + SEPARATOR + u', |h'|, SEPARATOR);
    Spelled(s, |h|);
    Spelled(s, |h'|);
    if |h'| < |h| {
      assert h[|h'|..|h'| + 5] == s[|h'|..|h'| + 5];
      assert OccursAt(h, |h'|, SEPARATOR);
    } else {
      var i := |h'| - |h| - 5;
      assert u[i..i + 5] == s[|h'|..|h'| + 5];
      assert OccursAt(u, i, SEPARATOR);
    }
  }

  /** Such a pair. */
  lemma CollidingPair(version: nat, issued: int)
    ensures var m := Manifest(version, "a|url=b", "c", issued);
            var n := Manifest(version, "a", "b|url=c", issued);
            m != n && CanonicalBytes(m) == CanonicalBytes(n)
  {
    var m := Manifest(version, "a|url=b", "c", issued);
    var n := Manifest(version, "a", "b|url=c", issued);
    assert Middle(m) == "a|url=b|url=c" && Middle(n) == "a|url=b|url=c";
    SameBytesIff(m, n);
  }
}
