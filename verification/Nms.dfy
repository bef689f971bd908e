/** Overlap of boxes and greedy non-maximum suppression, over reals. */
module Nms {
  import opened Basics

  datatype Box = Box(classId: nat, score: real, x1: real, y1: real, x2: real, y2: real)

  function Clamp(x: real, low: real, high: real): real {
    if x < low then low else if high < x then high else x
  }

  // ----- Overlap -----

  /** The length of an interval, 0 if it is empty. */
  function Length(low: real, high: real): real {
    Max(0.0, high - low)
  }

  /** The length two intervals share. */
  function Shared(low: real, high: real, low': real, high': real): real {
    Length(Max(low, low'), Min(high, high'))
  }

  function Area(b: Box): real {
    Length(b.x1, b.x2) * Length(b.y1, b.y2)
  }

  function Intersection(a: Box, b: Box): real {
    Shared(a.x1, a.x2, b.x1, b.x2) * Shared(a.y1, a.y2, b.y1, b.y2)
  }

  function IoU(a: Box, b: Box): real {
    var inter := Intersection(a, b);
    var uni := Area(a) + Area(b) - inter;
    if uni > 0.0 then inter / uni else 0.0
  }

  lemma ProductGrows(a: real, b: real, c: real, d: real)
    requires 0.0 <= a <= c && 0.0 <= b <= d
    ensures 0.0 <= a * b <= c * d
  {
    assert a * b <= c * b <= c * d;
  }

  lemma SharedLaws(low: real, high: real, low': real, high': real)
    ensures 0.0 <= Shared(low, high, low', high') <= Length(low, high)
    ensures Shared(low, high, low', high') == Shared(low', high', low, high)
    ensures Shared(low, high, low, high) == Length(low, high)
  {
  }

  lemma IntersectionIsSmaller(a: Box, b: Box)
    ensures 0.0 <= Intersection(a, b) <= Area(a)
    ensures Intersection(a, b) == Intersection(b, a)
    ensures Intersection(a, a) == Area(a)
  {
    hide Shared, Length;
    SharedLaws(a.x1, a.x2, b.x1, b.x2);
    SharedLaws(a.y1, a.y2, b.y1, b.y2);
    ProductGrows(Shared(a.x1, a.x2, b.x1, b.x2), Shared(a.y1, a.y2, b.y1, b.y2),
                 Length(a.x1, a.x2), Length(a.y1, a.y2));
  }

  lemma QuotientInUnit(x: real, y: real)
    requires 0.0 <= x <= y && 0.0 < y
    ensures 0.0 <= x / y <= 1.0
    ensures y / y == 1.0
  {
  }

  /** Overlap is symmetric, lies in [0, 1], and is 1 for a box with itself unless the box is
      empty, when it is 0. */
  lemma IoULaws(a: Box, b: Box)
    ensures IoU(a, b) == IoU(b, a)
    ensures 0.0 <= IoU(a, b) <= 1.0
    ensures IoU(a, a) == if Area(a) > 0.0 then 1.0 else 0.0
  {
    hide Intersection, Area;
    IntersectionIsSmaller(a, b);
    IntersectionIsSmaller(b, a);
    var uni := Area(a) + Area(b) - Intersection(a, b);
    if uni > 0.0 {
      QuotientInUnit(Intersection(a, b), uni);
    }
    IntersectionIsSmaller(a, a);
    if Area(a) > 0.0 {
      QuotientInUnit(Area(a), Area(a));
    }
  }

  // ----- Greedy suppression -----

  predicate Overlaps(kept: seq<Box>, box: Box, threshold: real) {
    exists i | 0 <= i < |kept| :: IoU(box, kept[i]) > threshold
  }

  function Kept(boxes: seq<Box>, threshold: real): seq<Box> {
    if boxes == [] then [] else
    var n := |boxes| - 1;
    var kept := Kept(boxes[..n], threshold);
    if Overlaps(kept, boxes[n], threshold) then kept else kept + [boxes[n]]
  }

  method Suppress(boxes: seq<Box>, threshold: real) returns (kept: seq<Box>)
    ensures kept == Kept(boxes, threshold)
  {
    kept := [];
    for n := 0 to |boxes|
      invariant kept == Kept(boxes[..n], threshold)
    {
      var suppressed := false;
      var i := 0;
      while i < |kept| && !suppressed
        invariant 0 <= i <= |kept|
        invariant suppressed <==> Overlaps(kept[..i], boxes[n], threshold)
      {
        suppressed := IoU(boxes[n], kept[i]) > threshold;
        assert kept[..i + 1] == kept[..i] + [kept[i]];
        assert suppressed ==> kept[..i + 1][i] == kept[i];
        i := i + 1;
      }
      assert suppressed <==> Overlaps(kept, boxes[n], threshold) by {
        assert !suppressed ==> kept[..i] == kept;
        assert Overlaps(kept[..i], boxes[n], threshold) ==> Overlaps(kept, boxes[n], threshold);
      }
      if !suppressed {
        kept := kept + [boxes[n]];
      }
      assert boxes[..n + 1][..n] == boxes[..n];
    }
    assert boxes[..|boxes|] == boxes;
  }

  predicate Descending(boxes: seq<Box>) {
    forall i, j | 0 <= i < j < |boxes| :: boxes[i].score >= boxes[j].score
  }

  predicate Apart(boxes: seq<Box>, threshold: real) {
    forall i, j | 0 <= i < |boxes| && 0 <= j < |boxes| && i != j :: IoU(boxes[i], boxes[j]) <= threshold
  }

  lemma {:induction false} KeptAreCandidates(boxes: seq<Box>, threshold: real)
    ensures forall k | k in Kept(boxes, threshold) :: k in boxes
  {
    hide IoU;
    if boxes != [] {
      KeptAreCandidates(boxes[..|boxes| - 1], threshold);
    }
  }

  /** The kept boxes stay in score order and no two of them overlap by more than the
      threshold. */
  lemma {:induction false} KeptAreSortedAndApart(boxes: seq<Box>, threshold: real)
    requires Descending(boxes)
    ensures Descending(Kept(boxes, threshold)) && Apart(Kept(boxes, threshold), threshold)
  {
    hide IoU;
    if boxes != [] {
      var n := |boxes| - 1;
      KeptAreSortedAndApart(boxes[..n], threshold);
      KeptAreCandidates(boxes[..n], threshold);
      var kept := Kept(boxes[..n], threshold);
      forall i | 0 <= i < |kept|
        ensures IoU(kept[i], boxes[n]) == IoU(boxes[n], kept[i]) && kept[i].score >= boxes[n].score
      {
        IoULaws(kept[i], boxes[n]);
        assert kept[i] in boxes[..n];
      }
    }
  }

  /** Every box is kept or overlaps a kept box of at least its score. */
  lemma {:induction false} SuppressedOverlapsABetterBox(boxes: seq<Box>, threshold: real, box: Box)
    requires Descending(boxes) && box in boxes
    ensures var kept := Kept(boxes, threshold);
            box in kept || exists i :: 0 <= i < |kept| && IoU(box, kept[i]) > threshold && kept[i].score >= box.score
  {
    hide IoU;
    var n := |boxes| - 1;
    var before, kept := Kept(boxes[..n], threshold), Kept(boxes, threshold);
    assert forall i | 0 <= i < |before| :: before[i] == kept[i];
    if box in boxes[..n] {
      SuppressedOverlapsABetterBox(boxes[..n], threshold, box);
      if box !in before {
        var i :| 0 <= i < |before| && IoU(box, before[i]) > threshold && before[i].score >= box.score;
        assert IoU(box, kept[i]) > threshold && kept[i].score >= box.score;
      }
    } else if Overlaps(before, box, threshold) {
      var i :| 0 <= i < |before| && IoU(box, before[i]) > threshold;
      KeptAreCandidates(boxes[..n], threshold);
      assert before[i] in boxes[..n];
      assert IoU(box, kept[i]) > threshold && kept[i].score >= box.score;
    }
  }

  /** Boxes that are already apart are all kept. */
  lemma {:induction false} ApartAreAllKept(boxes: seq<Box>, threshold: real)
    requires Apart(boxes, threshold)
    ensures Kept(boxes, threshold) == boxes
  {
    hide IoU;
    if boxes != [] {
      var n := |boxes| - 1;
      ApartAreAllKept(boxes[..n], threshold);
      assert boxes == boxes[..n] + [boxes[n]];
    }
  }

  /** Suppression changes nothing exactly when the boxes are already apart. */
  lemma UnchangedIffApart(boxes: seq<Box>, threshold: real)
    requires Descending(boxes)
    ensures Kept(boxes, threshold) == boxes <==> Apart(boxes, threshold)
  {
    KeptAreSortedAndApart(boxes, threshold);
    if Apart(boxes, threshold) {
      ApartAreAllKept(boxes, threshold);
    }
  }

  lemma SuppressTwice(boxes: seq<Box>, threshold: real)
    requires Descending(boxes)
    ensures Kept(Kept(boxes, threshold), threshold) == Kept(boxes, threshold)
  {
    KeptAreSortedAndApart(boxes, threshold);
    ApartAreAllKept(Kept(boxes, threshold), threshold);
  }

  // ----- The sort before it -----

  /** The sort is not stable, so it may return any descending arrangement. */
  predicate IsSorted(sorted: seq<Box>, boxes: seq<Box>) {
    Descending(sorted) && Rearranged(sorted, boxes)
  }

  lemma DropLast(a: seq<Box>)
    requires a != []
    ensures multiset(a[..|a| - 1]) == multiset(a) - multiset{a[|a| - 1]}
  {
    assert a == a[..|a| - 1] + [a[|a| - 1]];
  }

  /** No two different boxes share a score. */
  predicate TieFree(boxes: seq<Box>) {
    forall i, j | 0 <= i < |boxes| && 0 <= j < |boxes| && boxes[i].score == boxes[j].score :: boxes[i] == boxes[j]
  }

  lemma PlaceOf(a: seq<Box>, b: seq<Box>, i: nat) returns (j: nat)
    requires multiset(a) == multiset(b) && i < |a|
    ensures j < |b| && b[j] == a[i]
  {
    assert a[i] in multiset(a);
    assert a[i] in b;
    j :| 0 <= j < |b| && b[j] == a[i];
  }

  lemma TieFreeMoves(a: seq<Box>, b: seq<Box>)
    requires multiset(a) == multiset(b) && TieFree(a)
    ensures TieFree(b)
  {
    forall i, j | 0 <= i < |b| && 0 <= j < |b| && b[i].score == b[j].score
      ensures b[i] == b[j]
    {
      var k := PlaceOf(b, a, i);
      var l := PlaceOf(b, a, j);
    }
  }

  lemma LowestIsLast(a: seq<Box>, b: seq<Box>)
    requires Descending(a) && Descending(b) && Rearranged(a, b) && |a| == |b| && a != [] && TieFree(a)
    ensures a[|a| - 1] == b[|b| - 1]
  {
    var n := |a| - 1;
    var i := PlaceOf(b, a, n);
    var j := PlaceOf(a, b, n);
    assert a[i].score >= a[n].score;
    assert b[j].score >= b[n].score;
  }

  predicate Rearranged(a: seq<Box>, b: seq<Box>) {
    multiset(a) == multiset(b)
  }

  lemma SameSize(a: seq<Box>, b: seq<Box>)
    requires Rearranged(a, b)
    ensures |a| == |b|
  {
    assert |a| == |multiset(a)| == |multiset(b)| == |b|;
  }

  lemma ShorterRearranged(a: seq<Box>, b: seq<Box>)
    requires Rearranged(a, b) && a != [] && b != [] && a[|a| - 1] == b[|b| - 1]
    ensures Rearranged(a[..|a| - 1], b[..|b| - 1])
  {
    DropLast(a);
    DropLast(b);
  }

  lemma {:induction false} OneArrangement(a: seq<Box>, b: seq<Box>)
    requires Descending(a) && Descending(b) && Rearranged(a, b) && TieFree(a)
    ensures a == b
    decreases |a|
  {
    hide Descending, TieFree, Rearranged;
    SameSize(a, b);
    if a != [] {
      var n := |a| - 1;
      LowestIsLast(a, b);
      ShorterRearranged(a, b);
      PrefixIsSorted(a, n);
      PrefixIsSorted(b, n);
      OneArrangement(a[..n], b[..n]);
      assert a == a[..n] + [a[n]] && b == b[..n] + [b[n]];
    }
  }

  lemma PrefixIsSorted(a: seq<Box>, n: nat)
    requires Descending(a) && n <= |a|
    ensures Descending(a[..n])
    ensures TieFree(a) ==> TieFree(a[..n])
  {
  }

  function Swapped(a: seq<Box>, i: nat, j: nat): seq<Box>
    requires i < |a| && j < |a|
  {
    a[i := a[j]][j := a[i]]
  }

  lemma SwapKeepsSorted(a: seq<Box>, i: nat, j: nat)
    requires Descending(a) && i < |a| && j < |a| && a[i].score == a[j].score
    ensures Descending(Swapped(a, i, j)) && multiset(Swapped(a, i, j)) == multiset(a)
  {
    var b := Swapped(a, i, j);
    assert forall k | 0 <= k < |a| :: b[k].score == a[k].score;
  }

  /** The sort has one possible answer exactly when no two different boxes share a score. */
  lemma OneArrangementIff(sorted: seq<Box>, boxes: seq<Box>)
    requires IsSorted(sorted, boxes)
    ensures (forall other | IsSorted(other, boxes) :: other == sorted) <==> TieFree(boxes)
  {
    if TieFree(boxes) {
      TieFreeMoves(boxes, sorted);
      forall other | IsSorted(other, boxes)
        ensures other == sorted
      {
        OneArrangement(sorted, other);
      }
    } else {
      var i, j :| 0 <= i < |boxes| && 0 <= j < |boxes| && boxes[i].score == boxes[j].score && boxes[i] != boxes[j];
      var k := PlaceOf(boxes, sorted, i);
      var l := PlaceOf(boxes, sorted, j);
      SwapKeepsSorted(sorted, k, l);
      var other := Swapped(sorted, k, l);
      assert IsSorted(other, boxes) && other[k] != sorted[k];
    }
  }

  // ----- When ties do not matter -----

  /** A kept box of strictly higher score overlaps this one. */
  predicate Blocked(kept: seq<Box>, box: Box, threshold: real) {
    exists i | 0 <= i < |kept| :: kept[i].score > box.score && IoU(box, kept[i]) > threshold
  }

  /** Of two different boxes of one score, at least one is blocked. */
  predicate TiesSettled(sorted: seq<Box>, threshold: real) {
    forall i, j |
        0 <= i < |sorted| && 0 <= j < |sorted| && sorted[i].score == sorted[j].score && sorted[i] != sorted[j] ::
      Blocked(Kept(sorted, threshold), sorted[i], threshold) || Blocked(Kept(sorted, threshold), sorted[j], threshold)
  }

  lemma {:induction false} KeptPrefix(boxes: seq<Box>, n: nat, threshold: real)
    requires n <= |boxes|
    ensures Kept(boxes[..n], threshold) <= Kept(boxes, threshold)
    ensures forall k | |Kept(boxes[..n], threshold)| <= k < |Kept(boxes, threshold)| ::
              Kept(boxes, threshold)[k] in boxes[n..]
    decreases |boxes|
  {
    hide Overlaps;
    if n == |boxes| {
      assert boxes[..n] == boxes;
    } else {
      var m := |boxes| - 1;
      KeptPrefix(boxes[..m], n, threshold);
      assert boxes[..m][..n] == boxes[..n];
      assert forall b | b in boxes[..m][n..] :: b in boxes[n..];
      assert boxes[m] == boxes[n..][m - n];
    }
  }

  lemma {:induction false} KeptSuffix(a: seq<Box>, b: seq<Box>, more: seq<Box>, threshold: real)
    requires Kept(a, threshold) == Kept(b, threshold)
    ensures Kept(a + more, threshold) == Kept(b + more, threshold)
    decreases |more|
  {
    hide Overlaps;
    if more == [] {
      assert a + more == a && b + more == b;
    } else {
      var n := |more| - 1;
      KeptSuffix(a, b, more[..n], threshold);
      assert (a + more)[..|a + more| - 1] == a + more[..n];
      assert (b + more)[..|b + more| - 1] == b + more[..n];
    }
  }

  lemma KeptOneMore(a: seq<Box>, x: Box, threshold: real)
    ensures Kept(a + [x], threshold)
            == Kept(a, threshold) + (if Overlaps(Kept(a, threshold), x, threshold) then [] else [x])
  {
    hide Overlaps;
    assert (a + [x])[..|a|] == a;
    assert Kept(a, threshold) + [] == Kept(a, threshold);
  }

  lemma StillOverlaps(kept: seq<Box>, x: Box, more: seq<Box>, threshold: real)
    requires Overlaps(kept, x, threshold)
    ensures Overlaps(kept + more, x, threshold)
  {
    hide IoU;
    var i :| 0 <= i < |kept| && IoU(x, kept[i]) > threshold;
    assert IoU(x, (kept + more)[i]) > threshold;
  }

  /** Two neighbours may change places if they are equal or one is suppressed already. */
  lemma SwapNeighbours(a: seq<Box>, x: Box, y: Box, threshold: real)
    requires x == y || Overlaps(Kept(a, threshold), x, threshold) || Overlaps(Kept(a, threshold), y, threshold)
    ensures Kept(a + [x] + [y], threshold) == Kept(a + [y] + [x], threshold)
  {
    hide Overlaps, Kept;
    var k := Kept(a, threshold);
    KeptOneMore(a, x, threshold);
    KeptOneMore(a, y, threshold);
    KeptOneMore(a + [x], y, threshold);
    KeptOneMore(a + [y], x, threshold);
    assert k + [] == k;
    if Overlaps(k, x, threshold) {
      StillOverlaps(k, x, [y], threshold);
    }
    if Overlaps(k, y, threshold) {
      StillOverlaps(k, y, [x], threshold);
    }
  }

  /** Within a group of one score, a box whose rivals are settled may go to the end. */
  lemma {:induction false} MoveToEnd(a: seq<Box>, x: Box, group: seq<Box>, threshold: real)
    requires forall i | 0 <= i < |group| ::
               x == group[i] || Overlaps(Kept(a, threshold), x, threshold)
               || Overlaps(Kept(a, threshold), group[i], threshold)
    ensures Kept(a + [x] + group, threshold) == Kept(a + group + [x], threshold)
    decreases |group|
  {
    hide Overlaps, Kept;
    if group == [] {
      assert a + [x] + group == a + group + [x];
    } else {
      var y, rest := group[0], group[1..];
      SwapNeighbours(a, x, y, threshold);
      KeptSuffix(a + [x] + [y], a + [y] + [x], rest, threshold);
      assert a + [x] + group == a + [x] + [y] + rest;
      KeptOneMore(a, y, threshold);
      forall i | 0 <= i < |rest|
        ensures x == rest[i] || Overlaps(Kept(a + [y], threshold), x, threshold)
                || Overlaps(Kept(a + [y], threshold), rest[i], threshold)
      {
        var more := if Overlaps(Kept(a, threshold), y, threshold) then [] else [y];
        assert rest[i] == group[i + 1];
        if Overlaps(Kept(a, threshold), x, threshold) {
          StillOverlaps(Kept(a, threshold), x, more, threshold);
        } else if x != rest[i] {
          StillOverlaps(Kept(a, threshold), rest[i], more, threshold);
        }
      }
      MoveToEnd(a + [y], x, rest, threshold);
      assert a + [y] + rest == a + group;
    }
  }

  /** What blocks a box is kept before any box of its score. */
  lemma BlockedEarly(sorted: seq<Box>, k: nat, box: Box, threshold: real)
    requires Descending(sorted) && k <= |sorted| && Blocked(Kept(sorted, threshold), box, threshold)
    requires forall i | k <= i < |sorted| :: sorted[i].score <= box.score
    ensures Overlaps(Kept(sorted[..k], threshold), box, threshold)
    ensures Blocked(Kept(sorted[..k], threshold), box, threshold)
  {
    hide IoU, Kept;
    var all, early := Kept(sorted, threshold), Kept(sorted[..k], threshold);
    KeptPrefix(sorted, k, threshold);
    var i :| 0 <= i < |all| && all[i].score > box.score && IoU(box, all[i]) > threshold;
    assert early[i] == all[i];
  }

  /** Taking out one box of the lowest score. */
  function Without(sorted: seq<Box>, k: nat): seq<Box>
    requires k < |sorted|
  {
    sorted[..k] + sorted[k + 1..]
  }

  lemma WithoutIsRearranged(sorted: seq<Box>, k: nat, other: seq<Box>)
    requires k < |sorted| && Rearranged(sorted, other) && other != [] && other[|other| - 1] == sorted[k]
    ensures Rearranged(Without(sorted, k), other[..|other| - 1])
  {
    DropLast(other);
    assert sorted == sorted[..k] + [sorted[k]] + sorted[k + 1..];
  }

  lemma LowestGroup(sorted: seq<Box>, other: seq<Box>, k: nat)
    requires Descending(sorted) && Descending(other) && Rearranged(sorted, other) && other != []
    requires k < |sorted| && sorted[k] == other[|other| - 1]
    ensures forall i | 0 <= i < |sorted| :: sorted[i].score >= sorted[k].score
    ensures forall i | k <= i < |sorted| :: sorted[i].score == sorted[k].score
  {
    forall i | 0 <= i < |sorted|
      ensures sorted[i].score >= sorted[k].score
    {
      var j := PlaceOf(sorted, other, i);
    }
  }

  lemma WithoutIsSorted(sorted: seq<Box>, k: nat)
    requires Descending(sorted) && k < |sorted|
    ensures Descending(Without(sorted, k))
  {
  }

  /** In the lowest group a box may go to the end once ties are settled. */
  lemma LastMayBeAny(sorted: seq<Box>, k: nat, threshold: real)
    requires Descending(sorted) && k < |sorted| && TiesSettled(sorted, threshold)
    requires forall i | k <= i < |sorted| :: sorted[i].score == sorted[k].score
    ensures Kept(sorted, threshold) == Kept(Without(sorted, k) + [sorted[k]], threshold)
  {
    hide Overlaps, Kept, Blocked;
    var a, x, group := sorted[..k], sorted[k], sorted[k + 1..];
    forall i | 0 <= i < |group|
      ensures x == group[i] || Overlaps(Kept(a, threshold), x, threshold)
              || Overlaps(Kept(a, threshold), group[i], threshold)
    {
      assert group[i] == sorted[k + 1 + i];
      if Blocked(Kept(sorted, threshold), x, threshold) {
        BlockedEarly(sorted, k, x, threshold);
      } else if x != group[i] {
        BlockedEarly(sorted, k, group[i], threshold);
      }
    }
    MoveToEnd(a, x, group, threshold);
    assert sorted == a + [x] + group;
  }

  /** A box not below the last one is blocked without it if it is with it. */
  lemma BlockedWithout(kept: seq<Box>, last: Box, box: Box, threshold: real)
    requires box.score >= last.score && Blocked(kept + [last], box, threshold)
    ensures Blocked(kept, box, threshold)
  {
    hide IoU;
    var all := kept + [last];
    var i :| 0 <= i < |all| && all[i].score > box.score && IoU(box, all[i]) > threshold;
    assert kept[i] == all[i];
  }

  lemma SettledWithout(sorted: seq<Box>, k: nat, threshold: real)
    requires Descending(sorted) && k < |sorted| && TiesSettled(sorted, threshold)
    requires forall i | 0 <= i < |sorted| :: sorted[i].score >= sorted[k].score
    requires Kept(sorted, threshold) == Kept(Without(sorted, k) + [sorted[k]], threshold)
    ensures TiesSettled(Without(sorted, k), threshold)
  {
    hide Overlaps, Kept, Blocked;
    var p := Without(sorted, k);
    KeptOneMore(p, sorted[k], threshold);
    forall i, j | 0 <= i < |p| && 0 <= j < |p| && p[i].score == p[j].score && p[i] != p[j]
      ensures Blocked(Kept(p, threshold), p[i], threshold) || Blocked(Kept(p, threshold), p[j], threshold)
    {
      var i', j' := if i < k then i else i + 1, if j < k then j else j + 1;
      assert p[i] == sorted[i'] && p[j] == sorted[j'];
      if Kept(sorted, threshold) == Kept(p, threshold) + [sorted[k]] {
        if Blocked(Kept(sorted, threshold), p[i], threshold) {
          BlockedWithout(Kept(p, threshold), sorted[k], p[i], threshold);
        } else {
          BlockedWithout(Kept(p, threshold), sorted[k], p[j], threshold);
        }
      } else {
        assert Kept(p, threshold) + [] == Kept(p, threshold);
      }
    }
  }

  /** Settled ties leave the sort no say. */
  lemma {:induction false} SettledIsDetermined(sorted: seq<Box>, other: seq<Box>, threshold: real)
    requires Descending(sorted) && Descending(other) && Rearranged(sorted, other) && TiesSettled(sorted, threshold)
    ensures Kept(other, threshold) == Kept(sorted, threshold)
    decreases |sorted|
  {
    hide Descending, Rearranged, TiesSettled, Kept;
    SameSize(sorted, other);
    if other == [] {
      assert sorted == other;
    } else {
      var n := |other| - 1;
      var k := PlaceOf(other, sorted, n) by { Swap(sorted, other); }
      LowestGroup(sorted, other, k);
      LastMayBeAny(sorted, k, threshold);
      SettledWithout(sorted, k, threshold);
      WithoutIsRearranged(sorted, k, other);
      WithoutIsSorted(sorted, k);
      PrefixIsSorted(other, n);
      SettledIsDetermined(Without(sorted, k), other[..n], threshold);
      KeptSuffix(other[..n], Without(sorted, k), [sorted[k]], threshold);
      assert other == other[..n] + [sorted[k]];
    }
  }

  lemma Swap(a: seq<Box>, b: seq<Box>)
    requires Rearranged(a, b)
    ensures Rearranged(b, a) && multiset(b) == multiset(a)
  {
  }

  /** The first box of its score is kept right after the higher ones, unless blocked. */
  lemma FirstOfScoreKept(a: seq<Box>, k: nat, threshold: real)
    requires k < |a| && !Overlaps(Kept(a[..k], threshold), a[k], threshold)
    ensures |Kept(a[..k], threshold)| < |Kept(a, threshold)|
    ensures Kept(a, threshold)[|Kept(a[..k], threshold)|] == a[k]
  {
    hide Overlaps, Kept;
    KeptOneMore(a[..k], a[k], threshold);
    assert a[..k] + [a[k]] == a[..k + 1];
    KeptPrefix(a, k + 1, threshold);
  }

  lemma FirstOfScore(a: seq<Box>, i: nat) returns (k: nat)
    requires Descending(a) && i < |a|
    ensures k <= i && a[k].score == a[i].score
    ensures forall j | 0 <= j < k :: a[j].score > a[i].score
  {
    k := i;
    while k > 0 && a[k - 1].score == a[i].score
      invariant k <= i && a[k].score == a[i].score
    {
      k := k - 1;
    }
    assert k > 0 ==> a[k - 1].score > a[i].score;
  }

  /** An unblocked box is free of everything kept before its score. */
  lemma UnblockedIsFree(a: seq<Box>, k: nat, box: Box, threshold: real)
    requires Descending(a) && k <= |a| && !Blocked(Kept(a, threshold), box, threshold)
    requires forall j | 0 <= j < k :: a[j].score > box.score
    ensures !Overlaps(Kept(a[..k], threshold), box, threshold)
  {
    hide IoU, Kept;
    var early := Kept(a[..k], threshold);
    KeptPrefix(a, k, threshold);
    KeptAreCandidates(a[..k], threshold);
    forall i | 0 <= i < |early|
      ensures IoU(box, early[i]) <= threshold
    {
      assert early[i] in a[..k];
      assert early[i] == Kept(a, threshold)[i];
    }
  }

  /** Bringing an unblocked box to the front of its score. */
  lemma BroughtToFront(sorted: seq<Box>, boxes: seq<Box>, i: nat, k: nat, threshold: real) returns (other: seq<Box>)
    requires IsSorted(sorted, boxes) && k <= i < |sorted| && sorted[k].score == sorted[i].score
    requires forall j | 0 <= j < k :: sorted[j].score > sorted[i].score
    requires !Blocked(Kept(sorted, threshold), sorted[i], threshold)
    ensures IsSorted(other, boxes)
    ensures |Kept(sorted[..k], threshold)| < |Kept(other, threshold)|
    ensures Kept(other, threshold)[|Kept(sorted[..k], threshold)|] == sorted[i]
  {
    hide Kept, Blocked, Overlaps;
    other := Swapped(sorted, i, k);
    SwapKeepsSorted(sorted, i, k);
    assert other[..k] == sorted[..k] && other[k] == sorted[i];
    UnblockedIsFree(sorted, k, sorted[i], threshold);
    FirstOfScoreKept(other, k, threshold);
  }

  /** Every descending arrangement keeps the same boxes in the same order exactly when, of any
      two different candidates of one score, one overlaps a kept box of strictly higher score. */
  lemma DeterminedIff(sorted: seq<Box>, boxes: seq<Box>, threshold: real)
    requires IsSorted(sorted, boxes)
    ensures (forall other | IsSorted(other, boxes) :: Kept(other, threshold) == Kept(sorted, threshold))
            <==> TiesSettled(sorted, threshold)
  {
    hide Kept, Blocked;
    if TiesSettled(sorted, threshold) {
      forall other | IsSorted(other, boxes)
        ensures Kept(other, threshold) == Kept(sorted, threshold)
      {
        SettledIsDetermined(sorted, other, threshold);
      }
    } else {
      var i, j :| 0 <= i < |sorted| && 0 <= j < |sorted| && sorted[i].score == sorted[j].score
                  && sorted[i] != sorted[j] && !Blocked(Kept(sorted, threshold), sorted[i], threshold)
                  && !Blocked(Kept(sorted, threshold), sorted[j], threshold);
      var k := FirstOfScore(sorted, i);
      assert k <= j;
      var a := BroughtToFront(sorted, boxes, i, k, threshold);
      var b := BroughtToFront(sorted, boxes, j, k, threshold);
      assert Kept(a, threshold) != Kept(b, threshold);
    }
  }

  lemma TwinsOverlap(a: Box, b: Box)
    requires (a.x1, a.y1, a.x2, a.y2) == (b.x1, b.y1, b.x2, b.y2) && Area(a) > 0.0
    ensures IoU(a, b) == IoU(b, a) == 1.0
  {
    IoULaws(a, b);
    assert IoU(a, b) == IoU(a, a);
  }

  /** With a tie, which of the boxes survives can depend on the arrangement. */
  lemma TiesDecideByPosition()
    ensures var a := Box(0, 0.5, 0.0, 0.0, 2.0, 2.0);
            var b := Box(1, 0.5, 0.0, 0.0, 2.0, 2.0);
            IsSorted([a, b], [a, b]) && IsSorted([b, a], [a, b])
            && Kept([a, b], 0.45) == [a] && Kept([b, a], 0.45) == [b]
  {
    var a, b := Box(0, 0.5, 0.0, 0.0, 2.0, 2.0), Box(1, 0.5, 0.0, 0.0, 2.0, 2.0);
    TwinsOverlap(a, b);
    hide IoU, Kept, Overlaps;
    KeptPair(a, b, 0.45);
    KeptPair(b, a, 0.45);
    var one: seq<Box>, other: seq<Box> := [a, b], [b, a];
    assert multiset(one) == multiset(other);
  }

  lemma KeptPair(a: Box, b: Box, threshold: real)
    requires IoU(b, a) > threshold
    ensures Kept([a, b], threshold) == [a]
  {
    hide IoU;
    assert [a, b][..1] == [a] && [a][..0] == [];
    assert Kept([a], threshold) == [a];
    assert [a][0] == a;
  }
}
