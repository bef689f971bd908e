/** From the model's output rows to the reported detection.  The model's exponentials
    arrive as positive widths and heights; scores are any reals unless said otherwise. */
module Detector {
  import opened Nms
  import opened Options

  datatype Row = Row(x: real, y: real, width: real, height: real, objectness: real, classes: seq<real>)

  datatype Cell = Cell(x: real, y: real, stride: real)

  datatype Image = Image(width: real, height: real, scale: real) {
    predicate Valid() {
      0.0 < width && 0.0 < height && 0.0 < scale
    }
  }

  /** One row per grid cell, each with at least one class. */
  predicate WellShaped(rows: seq<Row>, cells: seq<Cell>) {
    && |rows| == |cells|
    && (forall i | 0 <= i < |rows| :: rows[i].classes != [] && 0.0 < rows[i].width && 0.0 < rows[i].height)
    && forall i | 0 <= i < |cells| :: 0.0 < cells[i].stride
  }

  // ----- The best class -----

  predicate IsFirstBest(classes: seq<real>, best: nat) {
    && best < |classes|
    && (forall c | 0 <= c < |classes| :: classes[c] <= classes[best])
    && forall c | 0 <= c < best :: classes[c] < classes[best]
  }

  function Best(classes: seq<real>): (best: nat)
    requires classes != []
    ensures IsFirstBest(classes, best)
  {
    if |classes| == 1 then 0 else
    var n := |classes| - 1;
    var before := Best(classes[..n]);
    assert forall c | 0 <= c < n :: classes[..n][c] == classes[c];
    if classes[n] > classes[before] then n else before
  }

  method BestClass(classes: seq<real>) returns (best: nat, score: real)
    requires classes != []
    ensures best == Best(classes) && score == classes[best]
  {
    best, score := 0, classes[0];
    for c := 1 to |classes|
      invariant IsFirstBest(classes[..c], best) && score == classes[best]
    {
      assert classes[..c + 1] == classes[..c] + [classes[c]];
      if classes[c] > score {
        best, score := c, classes[c];
      }
    }
    assert classes[..|classes|] == classes;
  }

  function Score(row: Row): real
    requires row.classes != []
  {
    row.objectness * row.classes[Best(row.classes)]
  }

  // ----- The early skip -----

  function Product(objectness: real, best: real): real {
    objectness * best
  }

  ghost predicate SkipIsHarmless(best: real, threshold: real) {
    forall objectness: real :: objectness <= threshold ==> Product(objectness, best) <= threshold
  }

  lemma Shrinks(x: real, m: real, threshold: real)
    requires 0.0 <= m <= 1.0 && 0.0 <= threshold && x <= threshold
    ensures x * m <= threshold
  {
    if x <= 0.0 {
      assert (-x) * m >= 0.0;
    } else {
      assert x * (1.0 - m) >= 0.0;
    }
  }

  lemma Grows(x: real, m: real)
    requires 0.0 < x && 1.0 < m
    ensures x * m > x
  {
    assert x * (m - 1.0) > 0.0;
  }

  lemma Flips(x: real, m: real)
    requires m < 0.0 && 0.0 < x
    ensures -x / m * m == -x && 0.0 < -x / m
  {
    var q := -x / m;
    assert q * m == -x;
    assert q <= 0.0 ==> (-q) * (-m) >= 0.0;
  }

  /** The best class scores for which the skip is harmless at a threshold. */
  predicate HarmlessScore(best: real, threshold: real) {
    if threshold > 0.0 then 0.0 <= best <= 1.0 else if threshold == 0.0 then 0.0 <= best else 1.0 <= best
  }

  lemma HarmlessAt(objectness: real, best: real, threshold: real)
    requires HarmlessScore(best, threshold) && objectness <= threshold
    ensures Product(objectness, best) <= threshold
  {
    if threshold > 0.0 {
      Shrinks(objectness, best, threshold);
    } else if threshold == 0.0 {
      assert (-objectness) * best >= 0.0;
    } else {
      assert (-objectness) * (best - 1.0) >= 0.0;
    }
  }

  lemma HarmfulAt(best: real, threshold: real) returns (objectness: real)
    requires !HarmlessScore(best, threshold)
    ensures objectness <= threshold && Product(objectness, best) > threshold
  {
    if threshold > 0.0 && best > 1.0 {
      Grows(threshold, best);
      objectness := threshold;
    } else if threshold > 0.0 {
      Flips(2.0 * threshold, best);
      objectness := -(-(2.0 * threshold) / best);
      assert objectness * best == 2.0 * threshold;
    } else if threshold == 0.0 {
      objectness := -1.0;
    } else {
      objectness := threshold;
      assert (-threshold) * (1.0 - best) > 0.0;
    }
  }

  /** Skipping the rows whose objectness does not pass drops no row that would have passed,
      whatever the objectness, exactly when the best class score lies in [0, 1]; at threshold 0
      when it is not negative, and below when it is at least 1. */
  lemma SkipIsHarmlessIff(best: real, threshold: real)
    ensures SkipIsHarmless(best, threshold) <==> HarmlessScore(best, threshold)
  {
    hide Product;
    if HarmlessScore(best, threshold) {
      forall objectness: real | objectness <= threshold
        ensures Product(objectness, best) <= threshold
      {
        HarmlessAt(objectness, best, threshold);
      }
    } else {
      var objectness := HarmfulAt(best, threshold);
    }
  }

  // ----- Candidates -----

  function Scale(x: real, stride: real): real {
    x * stride
  }

  function LowCorner(centre: real, extent: real, scale: real, limit: real): real
    requires scale != 0.0
  {
    Clamp((centre - extent / 2.0) / scale, 0.0, limit)
  }

  function HighCorner(centre: real, extent: real, scale: real, limit: real): real
    requires scale != 0.0
  {
    Clamp((centre + extent / 2.0) / scale, 0.0, limit)
  }

  function Decode(row: Row, cell: Cell, image: Image): Box
    requires row.classes != [] && image.scale != 0.0
  {
    var cx, cy := Scale(row.x + cell.x, cell.stride), Scale(row.y + cell.y, cell.stride);
    var bw, bh := Scale(row.width, cell.stride), Scale(row.height, cell.stride);
    Box(Best(row.classes), Score(row),
        LowCorner(cx, bw, image.scale, image.width), LowCorner(cy, bh, image.scale, image.height),
        HighCorner(cx, bw, image.scale, image.width), HighCorner(cy, bh, image.scale, image.height))
  }

  predicate Inside(box: Box, image: Image) {
    0.0 <= box.x1 <= box.x2 <= image.width && 0.0 <= box.y1 <= box.y2 <= image.height
  }

  lemma QuotientKeepsOrder(a: real, b: real, d: real)
    requires a <= b && 0.0 < d
    ensures a / d <= b / d
  {
    var p, q := a / d, b / d;
    assert p * d == a && q * d == b;
    assert p > q ==> (p - q) * d > 0.0;
  }

  lemma CornersAreOrdered(centre: real, extent: real, scale: real, limit: real)
    requires 0.0 < extent && 0.0 < scale && 0.0 <= limit
    ensures 0.0 <= LowCorner(centre, extent, scale, limit) <= HighCorner(centre, extent, scale, limit) <= limit
  {
    QuotientKeepsOrder(centre - extent / 2.0, centre + extent / 2.0, scale);
  }

  lemma ScaledIsPositive(x: real, stride: real)
    requires 0.0 < x && 0.0 < stride
    ensures 0.0 < Scale(x, stride)
  {
  }

  lemma DecodedIsInside(row: Row, cell: Cell, image: Image)
    requires row.classes != [] && 0.0 < row.width && 0.0 < row.height && 0.0 < cell.stride && image.Valid()
    ensures Inside(Decode(row, cell, image), image)
  {
    hide LowCorner, HighCorner, Best, Score, Scale;
    ScaledIsPositive(row.width, cell.stride);
    ScaledIsPositive(row.height, cell.stride);
    CornersAreOrdered(Scale(row.x + cell.x, cell.stride), Scale(row.width, cell.stride), image.scale, image.width);
    CornersAreOrdered(Scale(row.y + cell.y, cell.stride), Scale(row.height, cell.stride), image.scale, image.height);
  }

  // ----- Where a decoded box lies -----

  lemma QuotientBelow(a: real, x: real, d: real)
    requires 0.0 < d
    ensures a / d < x <==> a < x * d
    ensures x < a / d <==> x * d < a
  {
    var q := a / d;
    assert q * d == a;
    assert q < x ==> (x - q) * d > 0.0;
    assert x < q ==> (q - x) * d > 0.0;
  }

  /** One axis: the interval between the corners holds exactly the image points that scale
      into the predicted interval. */
  lemma AxisCovers(centre: real, extent: real, scale: real, limit: real, x: real)
    requires 0.0 < scale && 0.0 < x < limit
    ensures LowCorner(centre, extent, scale, limit) < x < HighCorner(centre, extent, scale, limit)
       <==> centre - extent / 2.0 < x * scale < centre + extent / 2.0
  {
    QuotientBelow(centre - extent / 2.0, x, scale);
    QuotientBelow(centre + extent / 2.0, x, scale);
  }

  lemma AxisUnclamped(centre: real, extent: real, scale: real, limit: real)
    requires 0.0 < scale && 0.0 <= centre - extent / 2.0 && 0.0 <= extent && centre + extent / 2.0 <= limit * scale
    ensures LowCorner(centre, extent, scale, limit) == (centre - extent / 2.0) / scale
    ensures HighCorner(centre, extent, scale, limit) == (centre + extent / 2.0) / scale
  {
    QuotientBelow(centre - extent / 2.0, 0.0, scale);
    QuotientBelow(centre + extent / 2.0, 0.0, scale);
    QuotientBelow(centre - extent / 2.0, limit, scale);
    QuotientBelow(centre + extent / 2.0, limit, scale);
  }

  lemma Halves(low: real, high: real, a: real, b: real, scale: real)
    requires 0.0 < scale && low == a / scale && high == b / scale
    ensures (low + high) / 2.0 * scale == (a + b) / 2.0 && (high - low) * scale == b - a
  {
    assert low * scale == a && high * scale == b;
    assert (low + high) / 2.0 * scale == (low * scale + high * scale) / 2.0;
    assert (high - low) * scale == high * scale - low * scale;
  }

  /** One axis: an interval inside the image is kept whole. */
  lemma AxisCentred(low: real, high: real, centre: real, extent: real, scale: real, limit: real)
    requires 0.0 < scale && 0.0 <= extent
    requires low == LowCorner(centre, extent, scale, limit) && high == HighCorner(centre, extent, scale, limit)
    ensures 0.0 <= centre - extent / 2.0 && centre + extent / 2.0 <= limit * scale ==>
              (low + high) / 2.0 * scale == centre && (high - low) * scale == extent
  {
    hide LowCorner, HighCorner;
    if 0.0 <= centre - extent / 2.0 && centre + extent / 2.0 <= limit * scale {
      AxisUnclamped(centre, extent, scale, limit);
      Halves(low, high, centre - extent / 2.0, centre + extent / 2.0, scale);
    }
  }

  lemma ScaleIsProduct(x: real, stride: real, product: real)
    requires product == x * stride
    ensures Scale(x, stride) == product
  {
  }

  lemma DecodedCorners(row: Row, cell: Cell, image: Image, cx: real, cy: real, w: real, h: real)
    requires row.classes != [] && image.Valid()
    requires cx == (row.x + cell.x) * cell.stride && cy == (row.y + cell.y) * cell.stride
    requires w == row.width * cell.stride && h == row.height * cell.stride
    ensures var b := Decode(row, cell, image);
            && b.x1 == LowCorner(cx, w, image.scale, image.width)
            && b.x2 == HighCorner(cx, w, image.scale, image.width)
            && b.y1 == LowCorner(cy, h, image.scale, image.height)
            && b.y2 == HighCorner(cy, h, image.scale, image.height)
  {
    hide LowCorner, HighCorner, Best, Score, Scale;
    ScaleIsProduct(row.x + cell.x, cell.stride, cx);
    ScaleIsProduct(row.y + cell.y, cell.stride, cy);
    ScaleIsProduct(row.width, cell.stride, w);
    ScaleIsProduct(row.height, cell.stride, h);
  }

  /** A decoded box that the image contains is centred on its row's offset from its cell, in
      steps of the cell's stride and scaled to the image, with the row's size. */
  lemma DecodedCentre(row: Row, cell: Cell, image: Image, cx: real, cy: real, w: real, h: real)
    requires row.classes != [] && 0.0 < row.width && 0.0 < row.height && 0.0 < cell.stride && image.Valid()
    requires cx == (row.x + cell.x) * cell.stride && cy == (row.y + cell.y) * cell.stride
    requires w == row.width * cell.stride && h == row.height * cell.stride
    ensures var b := Decode(row, cell, image);
            && (0.0 <= cx - w / 2.0 && cx + w / 2.0 <= image.width * image.scale ==>
                  (b.x1 + b.x2) / 2.0 * image.scale == cx && (b.x2 - b.x1) * image.scale == w)
            && (0.0 <= cy - h / 2.0 && cy + h / 2.0 <= image.height * image.scale ==>
                  (b.y1 + b.y2) / 2.0 * image.scale == cy && (b.y2 - b.y1) * image.scale == h)
  {
    hide LowCorner, HighCorner, Decode, Scale;
    DecodedCorners(row, cell, image, cx, cy, w, h);
    ScaledIsPositive(row.width, cell.stride);
    ScaledIsPositive(row.height, cell.stride);
    ScaleIsProduct(row.width, cell.stride, w);
    ScaleIsProduct(row.height, cell.stride, h);
    var b := Decode(row, cell, image);
    AxisCentred(b.x1, b.x2, cx, w, image.scale, image.width);
    AxisCentred(b.y1, b.y2, cy, h, image.scale, image.height);
  }

  /** The image point (x, y), scaled to the model's input, lies in the rectangle a row predicts. */
  predicate Predicted(row: Row, cell: Cell, scale: real, x: real, y: real) {
    && (row.x + cell.x - row.width / 2.0) * cell.stride < x * scale
    && x * scale < (row.x + cell.x + row.width / 2.0) * cell.stride
    && (row.y + cell.y - row.height / 2.0) * cell.stride < y * scale
    && y * scale < (row.y + cell.y + row.height / 2.0) * cell.stride
  }

  predicate Covers(box: Box, x: real, y: real) {
    box.x1 < x < box.x2 && box.y1 < y < box.y2
  }

  lemma HalfExtent(centre: real, extent: real, stride: real)
    ensures Scale(centre, stride) - Scale(extent, stride) / 2.0 == (centre - extent / 2.0) * stride
    ensures Scale(centre, stride) + Scale(extent, stride) / 2.0 == (centre + extent / 2.0) * stride
  {
  }

  lemma AxisPredicts(centre: real, extent: real, stride: real, scale: real, limit: real, x: real)
    requires 0.0 < scale && 0.0 < x < limit
    ensures LowCorner(Scale(centre, stride), Scale(extent, stride), scale, limit) < x
              < HighCorner(Scale(centre, stride), Scale(extent, stride), scale, limit)
       <==> (centre - extent / 2.0) * stride < x * scale && x * scale < (centre + extent / 2.0) * stride
  {
    hide LowCorner, HighCorner, Scale;
    HalfExtent(centre, extent, stride);
    AxisCovers(Scale(centre, stride), Scale(extent, stride), scale, limit, x);
  }

  /** A decoded box is the predicted rectangle cut to the image: it covers exactly the points
      of the image that its row predicts. */
  lemma DecodedCovers(row: Row, cell: Cell, image: Image, x: real, y: real)
    requires row.classes != [] && image.Valid() && 0.0 < x < image.width && 0.0 < y < image.height
    ensures Covers(Decode(row, cell, image), x, y) <==> Predicted(row, cell, image.scale, x, y)
  {
    hide LowCorner, HighCorner, Best, Score, Scale;
    AxisPredicts(row.x + cell.x, row.width, cell.stride, image.scale, image.width, x);
    AxisPredicts(row.y + cell.y, row.height, cell.stride, image.scale, image.height, y);
  }

  /** What a box says about its row: the first best class, the product of objectness and that
      class's score, and the predicted rectangle cut to the image. */
  ghost predicate Describes(box: Box, row: Row, cell: Cell, image: Image) {
    && Inside(box, image)
    && IsFirstBest(row.classes, box.classId)
    && box.score == row.objectness * row.classes[box.classId]
    && forall x: real, y: real | 0.0 < x < image.width && 0.0 < y < image.height ::
         Covers(box, x, y) <==> Predicted(row, cell, image.scale, x, y)
  }

  lemma DecodeDescribes(row: Row, cell: Cell, image: Image)
    requires row.classes != [] && 0.0 < row.width && 0.0 < row.height && 0.0 < cell.stride && image.Valid()
    ensures Describes(Decode(row, cell, image), row, cell, image)
  {
    hide Predicted, Covers, LowCorner, HighCorner, Best, Scale;
    DecodedIsInside(row, cell, image);
    forall x: real, y: real | 0.0 < x < image.width && 0.0 < y < image.height
      ensures Covers(Decode(row, cell, image), x, y) <==> Predicted(row, cell, image.scale, x, y)
    {
      DecodedCovers(row, cell, image, x, y);
    }
  }

  /** Whether a row passes: on its score alone, or only after its objectness passed too. */
  predicate Passes(row: Row, threshold: real, early: bool)
    requires row.classes != []
  {
    (early ==> row.objectness > threshold) && Score(row) > threshold
  }

  /** The boxes of the rows that pass, in row order. */
  function Candidates(rows: seq<Row>, cells: seq<Cell>, image: Image, threshold: real, early: bool): seq<Box>
    requires WellShaped(rows, cells) && image.Valid()
  {
    if rows == [] then [] else
    var n := |rows| - 1;
    Candidates(rows[..n], cells[..n], image, threshold, early)
      + (if Passes(rows[n], threshold, early) then [Decode(rows[n], cells[n], image)] else [])
  }

  lemma {:induction false} CandidatesAreInside(rows: seq<Row>, cells: seq<Cell>, image: Image, threshold: real,
      early: bool)
    requires WellShaped(rows, cells) && image.Valid()
    ensures forall b | b in Candidates(rows, cells, image, threshold, early) :: Inside(b, image) && b.score > threshold
  {
    if rows != [] {
      var n := |rows| - 1;
      CandidatesAreInside(rows[..n], cells[..n], image, threshold, early);
      DecodedIsInside(rows[n], cells[n], image);
    }
  }

  /** The rows the code lets through: objectness and score both exceed the threshold. */
  predicate Strong(row: Row, threshold: real)
    requires row.classes != []
  {
    row.objectness > threshold && row.objectness * row.classes[Best(row.classes)] > threshold
  }

  /** The row passes and the box describes it. */
  ghost predicate ComesFrom(box: Box, row: Row, cell: Cell, image: Image, threshold: real) {
    row.objectness > threshold && box.score > threshold && Describes(box, row, cell, image)
  }

  lemma PassingComesFrom(row: Row, cell: Cell, image: Image, threshold: real)
    requires row.classes != [] && 0.0 < row.width && 0.0 < row.height && 0.0 < cell.stride && image.Valid()
    ensures Passes(row, threshold, true) <==> Strong(row, threshold)
    ensures Passes(row, threshold, true) ==> ComesFrom(Decode(row, cell, image), row, cell, image, threshold)
  {
    hide Describes, LowCorner, HighCorner, Best, Scale;
    DecodeDescribes(row, cell, image);
  }

  lemma {:induction false} CandidateHasRow(rows: seq<Row>, cells: seq<Cell>, image: Image, threshold: real, box: Box)
    returns (i: nat)
    requires WellShaped(rows, cells) && image.Valid() && box in Candidates(rows, cells, image, threshold, true)
    ensures i < |rows| && ComesFrom(box, rows[i], cells[i], image, threshold)
  {
    hide Passes, ComesFrom, Decode;
    var n := |rows| - 1;
    if box in Candidates(rows[..n], cells[..n], image, threshold, true) {
      i := CandidateHasRow(rows[..n], cells[..n], image, threshold, box);
    } else {
      i := n;
      PassingComesFrom(rows[n], cells[n], image, threshold);
    }
  }

  lemma {:induction false} RowHasCandidate(rows: seq<Row>, cells: seq<Cell>, image: Image, threshold: real, i: nat)
    returns (box: Box)
    requires WellShaped(rows, cells) && image.Valid() && i < |rows|
    requires Strong(rows[i], threshold)
    ensures box in Candidates(rows, cells, image, threshold, true)
    ensures ComesFrom(box, rows[i], cells[i], image, threshold)
  {
    hide Passes, ComesFrom, Decode, Strong;
    var n := |rows| - 1;
    if i < n {
      box := RowHasCandidate(rows[..n], cells[..n], image, threshold, i);
    } else {
      box := Decode(rows[n], cells[n], image);
      PassingComesFrom(rows[n], cells[n], image, threshold);
    }
  }

  /** The boxes are the passing rows': each describes one, and each is described. */
  ghost predicate CoverRows(boxes: seq<Box>, rows: seq<Row>, cells: seq<Cell>, image: Image, threshold: real)
    requires WellShaped(rows, cells)
  {
    && (forall b | b in boxes :: exists i | 0 <= i < |rows| :: ComesFrom(b, rows[i], cells[i], image, threshold))
    && (forall i | 0 <= i < |rows| && Strong(rows[i], threshold) ::
          exists b | b in boxes :: ComesFrom(b, rows[i], cells[i], image, threshold))
  }

  lemma CandidatesCoverRows(rows: seq<Row>, cells: seq<Cell>, image: Image, threshold: real)
    requires WellShaped(rows, cells) && image.Valid()
    ensures CoverRows(Candidates(rows, cells, image, threshold, true), rows, cells, image, threshold)
  {
    hide ComesFrom, Candidates, Strong;
    var boxes := Candidates(rows, cells, image, threshold, true);
    forall b | b in boxes
      ensures exists i | 0 <= i < |rows| :: ComesFrom(b, rows[i], cells[i], image, threshold)
    {
      var i := CandidateHasRow(rows, cells, image, threshold, b);
    }
    forall i | 0 <= i < |rows| && Strong(rows[i], threshold)
      ensures exists b | b in boxes :: ComesFrom(b, rows[i], cells[i], image, threshold)
    {
      var b := RowHasCandidate(rows, cells, image, threshold, i);
    }
  }

  predicate BestInUnit(row: Row)
    requires row.classes != []
  {
    0.0 <= row.classes[Best(row.classes)] <= 1.0
  }

  lemma SkippedRowFails(row: Row, threshold: real)
    requires row.classes != [] && BestInUnit(row) && 0.0 <= threshold
    ensures Passes(row, threshold, true) <==> Passes(row, threshold, false)
  {
    if row.objectness <= threshold {
      Shrinks(row.objectness, row.classes[Best(row.classes)], threshold);
    }
  }

  /** With best class scores in [0, 1] the early skip keeps the candidates of the full score
      test. */
  lemma {:induction false} EarlySkipKeepsCandidates(rows: seq<Row>, cells: seq<Cell>, image: Image, threshold: real)
    requires WellShaped(rows, cells) && image.Valid() && 0.0 <= threshold
    requires forall i | 0 <= i < |rows| :: BestInUnit(rows[i])
    ensures Candidates(rows, cells, image, threshold, true) == Candidates(rows, cells, image, threshold, false)
  {
    hide Decode, Passes, Best;
    if rows != [] {
      var n := |rows| - 1;
      EarlySkipKeepsCandidates(rows[..n], cells[..n], image, threshold);
      SkippedRowFails(rows[n], threshold);
    }
  }

  lemma CandidatesOneMore(rows: seq<Row>, cells: seq<Cell>, image: Image, threshold: real, i: nat)
    requires WellShaped(rows, cells) && image.Valid() && i < |rows|
    ensures Candidates(rows[..i + 1], cells[..i + 1], image, threshold, true)
            == Candidates(rows[..i], cells[..i], image, threshold, true)
               + (if Passes(rows[i], threshold, true) then [Decode(rows[i], cells[i], image)] else [])
  {
    hide Decode, Passes;
    assert rows[..i + 1][..i] == rows[..i] && cells[..i + 1][..i] == cells[..i];
  }

  lemma NoCandidates(image: Image, threshold: real)
    requires image.Valid()
    ensures Candidates([], [], image, threshold, true) == []
  {
  }

  method FilterRows(rows: seq<Row>, cells: seq<Cell>, image: Image, threshold: real) returns (candidates: seq<Box>)
    requires WellShaped(rows, cells) && image.Valid()
    ensures candidates == Candidates(rows, cells, image, threshold, true)
    ensures CoverRows(candidates, rows, cells, image, threshold)
  {
    hide Decode, Candidates, Best, CoverRows;
    CandidatesCoverRows(rows, cells, image, threshold);
    candidates := [];
    assert candidates == Candidates(rows[..0], cells[..0], image, threshold, true) by {
      NoCandidates(image, threshold);
    }
    for i := 0 to |rows|
      invariant candidates == Candidates(rows[..i], cells[..i], image, threshold, true)
    {
      CandidatesOneMore(rows, cells, image, threshold, i);
      if rows[i].objectness > threshold {
        var best, bestScore := BestClass(rows[i].classes);
        if rows[i].objectness * bestScore > threshold {
          candidates := candidates + [Decode(rows[i], cells[i], image)];
        }
      }
    }
    assert rows[..|rows|] == rows && cells[..|rows|] == cells;
  }

  // ----- Sorting and suppression -----

  /** Where a box goes in a descending sequence. */
  method Place(sorted: seq<Box>, box: Box) returns (at: nat)
    requires Descending(sorted)
    ensures at <= |sorted|
    ensures forall i | 0 <= i < at :: sorted[i].score >= box.score
    ensures forall i | at <= i < |sorted| :: box.score >= sorted[i].score
  {
    at := |sorted|;
    while at > 0 && sorted[at - 1].score < box.score
      invariant at <= |sorted|
      invariant forall i | at <= i < |sorted| :: box.score >= sorted[i].score
    {
      at := at - 1;
    }
  }

  lemma Inserted(sorted: seq<Box>, box: Box, at: nat)
    requires at <= |sorted|
    ensures multiset(sorted[..at] + [box] + sorted[at..]) == multiset(sorted) + multiset{box}
  {
    assert sorted == sorted[..at] + sorted[at..];
  }

  method Sort(boxes: seq<Box>) returns (sorted: seq<Box>)
    ensures IsSorted(sorted, boxes)
  {
    sorted := [];
    for n := 0 to |boxes|
      invariant IsSorted(sorted, boxes[..n])
    {
      var at := Place(sorted, boxes[n]);
      Inserted(sorted, boxes[n], at);
      assert boxes[..n + 1] == boxes[..n] + [boxes[n]];
      sorted := sorted[..at] + [boxes[n]] + sorted[at..];
    }
    assert boxes[..|boxes|] == boxes;
  }

  /** What detection may return: the suppression of some descending arrangement of the
      candidates. */
  ghost predicate IsDetection(kept: seq<Box>, candidates: seq<Box>, iouThreshold: real) {
    exists sorted :: IsSorted(sorted, candidates) && kept == Kept(sorted, iouThreshold)
  }

  /** Whatever arrangement the sort chose, the result is score-sorted candidates, pairwise
      apart, and every other candidate overlaps one of at least its score. */
  lemma DetectionLaws(kept: seq<Box>, candidates: seq<Box>, iouThreshold: real, box: Box)
    requires IsDetection(kept, candidates, iouThreshold)
    ensures Descending(kept) && Apart(kept, iouThreshold)
    ensures box in kept ==> box in candidates
    ensures box in candidates && box !in kept ==>
              exists i :: 0 <= i < |kept| && IoU(box, kept[i]) > iouThreshold && kept[i].score >= box.score
  {
    var sorted :| IsSorted(sorted, candidates) && kept == Kept(sorted, iouThreshold);
    KeptAreSortedAndApart(sorted, iouThreshold);
    KeptAreCandidates(sorted, iouThreshold);
    assert box in sorted <==> box in multiset(sorted);
    assert box in candidates <==> box in multiset(candidates);
    if box in candidates {
      SuppressedOverlapsABetterBox(sorted, iouThreshold, box);
    }
  }

  method DetectAll(rows: seq<Row>, cells: seq<Cell>, image: Image, threshold: real, iouThreshold: real)
    returns (kept: seq<Box>)
    requires WellShaped(rows, cells) && image.Valid()
    ensures IsDetection(kept, Candidates(rows, cells, image, threshold, true), iouThreshold)
    ensures forall b | b in kept :: exists i | 0 <= i < |rows| :: ComesFrom(b, rows[i], cells[i], image, threshold)
  {
    hide ComesFrom, Candidates, Best, Kept;
    var candidates := FilterRows(rows, cells, image, threshold);
    var sorted := Sort(candidates);
    kept := Suppress(sorted, iouThreshold);
    forall b | b in kept
      ensures b in candidates
    {
      DetectionLaws(kept, candidates, iouThreshold, b);
    }
  }

  // ----- The reported box -----

  datatype Report = Report(confidence: real, xMin: real, yMin: real, xMax: real, yMax: real)

  function Scaled(box: Box, image: Image): Report
    requires image.Valid()
  {
    Report(box.score, box.x1 / image.width, box.y1 / image.height, box.x2 / image.width, box.y2 / image.height)
  }

  lemma ScaledIsInUnit(box: Box, image: Image)
    requires image.Valid() && Inside(box, image)
    ensures var r := Scaled(box, image);
            0.0 <= r.xMin <= r.xMax <= 1.0 && 0.0 <= r.yMin <= r.yMax <= 1.0
  {
    Ratio(box.x1, box.x2, image.width);
    Ratio(box.y1, box.y2, image.height);
  }

  lemma Ratio(low: real, high: real, size: real)
    requires 0.0 <= low <= high <= size && 0.0 < size
    ensures 0.0 <= low / size <= high / size <= 1.0
  {
    QuotientKeepsOrder(0.0, low, size);
    QuotientKeepsOrder(low, high, size);
    QuotientKeepsOrder(high, size, size);
    QuotientInUnit(0.0, size);
  }

  /** The report is the best of the kept boxes of a wanted class, with its corners in the unit
      square; there is none exactly when no kept box is wanted. */
  ghost predicate ReportsBest(result: Option<Report>, kept: seq<Box>, image: Image, targets: seq<nat>)
    requires image.Valid()
  {
    && (result.None? <==> forall b | b in kept :: targets != [] && b.classId !in targets)
    && (result.Some? ==>
          && (exists b | b in kept :: (targets == [] || b.classId in targets) && result.value == Scaled(b, image))
          && (forall b | b in kept && (targets == [] || b.classId in targets) :: b.score <= result.value.confidence)
          && 0.0 <= result.value.xMin <= result.value.xMax <= 1.0
          && 0.0 <= result.value.yMin <= result.value.yMax <= 1.0)
  }

  predicate Holds(r: Report, u: real, v: real) {
    r.xMin < u < r.xMax && r.yMin < v < r.yMax
  }

  /** The report is about this row: its best class is wanted, the confidence is that class's,
      and the reported rectangle, in fractions of the image, is the predicted one. */
  ghost predicate ReportsRow(r: Report, row: Row, cell: Cell, image: Image, threshold: real, targets: seq<nat>)
    requires row.classes != []
  {
    && row.objectness > threshold
    && threshold < r.confidence == row.objectness * row.classes[Best(row.classes)]
    && (targets == [] || Best(row.classes) in targets)
    && forall u: real, v: real | 0.0 < u < 1.0 && 0.0 < v < 1.0 ::
         Holds(r, u, v) <==> Predicted(row, cell, image.scale, Scale(u, image.width), Scale(v, image.height))
  }

  lemma FirstBestIsBest(classes: seq<real>, c: nat)
    requires IsFirstBest(classes, c)
    ensures c == Best(classes)
  {
  }

  lemma FractionInside(u: real, size: real)
    requires 0.0 < u < 1.0 && 0.0 < size
    ensures 0.0 < Scale(u, size) < size
  {
    var rest := (1.0 - u) * size;
    assert rest > 0.0 && u * size == size - rest && u * size > 0.0;
    ScaleIsProduct(u, size, size - rest);
  }

  lemma ScaledHolds(box: Box, image: Image, u: real, v: real)
    requires image.Valid()
    ensures Holds(Scaled(box, image), u, v) <==> Covers(box, Scale(u, image.width), Scale(v, image.height))
  {
    QuotientBelow(box.x1, u, image.width);
    QuotientBelow(box.x2, u, image.width);
    QuotientBelow(box.y1, v, image.height);
    QuotientBelow(box.y2, v, image.height);
  }

  lemma DescribedScore(box: Box, row: Row, cell: Cell, image: Image)
    requires Describes(box, row, cell, image) && row.classes != []
    ensures box.classId == Best(row.classes)
    ensures box.score == row.objectness * row.classes[Best(row.classes)]
  {
    hide Best, Predicted, Covers;
    FirstBestIsBest(row.classes, box.classId);
  }

  lemma DescribedHolds(box: Box, row: Row, cell: Cell, image: Image, u: real, v: real)
    requires image.Valid() && Describes(box, row, cell, image) && 0.0 < u < 1.0 && 0.0 < v < 1.0
    ensures Holds(Scaled(box, image), u, v)
       <==> Predicted(row, cell, image.scale, Scale(u, image.width), Scale(v, image.height))
  {
    hide Predicted, Covers, IsFirstBest, Holds, Scaled, Scale;
    FractionInside(u, image.width);
    FractionInside(v, image.height);
    ScaledHolds(box, image, u, v);
  }

  lemma ReportsItsRow(box: Box, row: Row, cell: Cell, image: Image, threshold: real, targets: seq<nat>)
    requires image.Valid() && ComesFrom(box, row, cell, image, threshold) && row.classes != []
    requires targets == [] || box.classId in targets
    ensures ReportsRow(Scaled(box, image), row, cell, image, threshold, targets)
  {
    hide Predicted, Describes, Best, Holds, Scale;
    DescribedScore(box, row, cell, image);
    forall u: real, v: real | 0.0 < u < 1.0 && 0.0 < v < 1.0
      ensures Holds(Scaled(box, image), u, v)
       <==> Predicted(row, cell, image.scale, Scale(u, image.width), Scale(v, image.height))
    {
      DescribedHolds(box, row, cell, image, u, v);
    }
  }

  method Detect(rows: seq<Row>, cells: seq<Cell>, image: Image, threshold: real, iouThreshold: real, targets: seq<nat>)
    returns (result: Option<Report>)
    requires WellShaped(rows, cells) && image.Valid()
    ensures exists kept :: IsDetection(kept, Candidates(rows, cells, image, threshold, true), iouThreshold)
                           && ReportsBest(result, kept, image, targets)
    ensures result.Some? ==> exists i | 0 <= i < |rows| ::
              ReportsRow(result.value, rows[i], cells[i], image, threshold, targets)
  {
    hide ComesFrom, Candidates, Best, ReportsRow, IsDetection;
    var detections := DetectAll(rows, cells, image, threshold, iouThreshold);
    ghost var candidates := Candidates(rows, cells, image, threshold, true);
    for i := 0 to |detections|
      invariant forall j | 0 <= j < i :: targets != [] && detections[j].classId !in targets
    {
      if targets == [] || detections[i].classId in targets {
        result := Some(Scaled(detections[i], image));
        DetectionLaws(detections, candidates, iouThreshold, detections[i]);
        CandidatesAreInside(rows, cells, image, threshold, true);
        ScaledIsInUnit(detections[i], image);
        assert ReportsBest(result, detections, image, targets);
        ghost var k :| 0 <= k < |rows| && ComesFrom(detections[i], rows[k], cells[k], image, threshold);
        ReportsItsRow(detections[i], rows[k], cells[k], image, threshold, targets);
        return;
      }
    }
    result := None;
    assert ReportsBest(result, detections, image, targets);
  }

  lemma SourceIsStrong(box: Box, row: Row, cell: Cell, image: Image, threshold: real)
    requires row.classes != [] && ComesFrom(box, row, cell, image, threshold)
    ensures Strong(row, threshold)
  {
    hide Describes, Best;
    DescribedScore(box, row, cell, image);
  }

  /** With no class asked for, something is reported exactly when some row passes. */
  lemma SomethingReportedIff(result: Option<Report>, kept: seq<Box>, rows: seq<Row>, cells: seq<Cell>, image: Image,
      threshold: real, iouThreshold: real)
    requires WellShaped(rows, cells) && image.Valid()
    requires IsDetection(kept, Candidates(rows, cells, image, threshold, true), iouThreshold)
    requires ReportsBest(result, kept, image, [])
    ensures result.Some? <==> exists i | 0 <= i < |rows| :: Strong(rows[i], threshold)
  {
    hide Candidates, IsDetection, ComesFrom, Strong, Apart, Descending;
    var candidates := Candidates(rows, cells, image, threshold, true);
    if result.Some? {
      var b :| b in kept;
      DetectionLaws(kept, candidates, iouThreshold, b);
      var i := CandidateHasRow(rows, cells, image, threshold, b);
      SourceIsStrong(b, rows[i], cells[i], image, threshold);
    }
    if i :| 0 <= i < |rows| && Strong(rows[i], threshold) {
      var b := RowHasCandidate(rows, cells, image, threshold, i);
      DetectionLaws(kept, candidates, iouThreshold, b);
      assert b in kept || exists j | 0 <= j < |kept| :: kept[j] in kept;
    }
  }
}
