/** What the overlap of two boxes measures: for corners on any grid, however fine, the cells
    in both boxes over the cells in either. */
module Overlap {
  import opened Basics
  import opened Nms

  // ----- Counting cells -----

  /** The unit cells of a rectangle, each named by its lower corner. */
  function Rectangle(x1: int, y1: int, x2: int, y2: int): set<(int, int)> {
    set x, y | x1 <= x < x2 && y1 <= y < y2 :: (x, y)
  }

  lemma {:induction false} ColumnSize(x: int, y1: int, y2: int)
    ensures |Rectangle(x, y1, x + 1, y2)| == if y1 < y2 then y2 - y1 else 0
    decreases y2 - y1
  {
    if y1 < y2 {
      ColumnSize(x, y1, y2 - 1);
      assert Rectangle(x, y1, x + 1, y2) == Rectangle(x, y1, x + 1, y2 - 1) + {(x, y2 - 1)};
    } else {
      assert Rectangle(x, y1, x + 1, y2) == {};
    }
  }

  lemma {:induction false} RectangleSize(x1: int, y1: int, x2: int, y2: int)
    requires x1 <= x2 && y1 <= y2
    ensures |Rectangle(x1, y1, x2, y2)| == (x2 - x1) * (y2 - y1)
    decreases x2 - x1
  {
    if x1 < x2 {
      RectangleSize(x1, y1, x2 - 1, y2);
      ColumnSize(x2 - 1, y1, y2);
      var front, last := Rectangle(x1, y1, x2 - 1, y2), Rectangle(x2 - 1, y1, x2, y2);
      assert Rectangle(x1, y1, x2, y2) == front + last && front !! last;
      assert (x2 - x1) * (y2 - y1) == (x2 - 1 - x1) * (y2 - y1) + (y2 - y1);
    } else {
      assert Rectangle(x1, y1, x2, y2) == {};
    }
  }

  predicate Whole(x: real) {
    x == x.Floor as real
  }

  predicate OnGrid(b: Box) {
    Whole(b.x1) && Whole(b.y1) && Whole(b.x2) && Whole(b.y2)
  }

  function Cells(b: Box): set<(int, int)> {
    Rectangle(b.x1.Floor, b.y1.Floor, b.x2.Floor, b.y2.Floor)
  }

  lemma RealProduct(x: int, y: int)
    ensures (x * y) as real == x as real * y as real
  {
  }

  lemma LengthCounts(x1: real, y1: real, x2: real, y2: real)
    requires Whole(x1) && Whole(y1) && Whole(x2) && Whole(y2)
    ensures Length(x1, x2) * Length(y1, y2) == |Rectangle(x1.Floor, y1.Floor, x2.Floor, y2.Floor)| as real
  {
    var (a, b, c, d) := (x1.Floor, y1.Floor, x2.Floor, y2.Floor);
    if a <= c && b <= d {
      RectangleSize(a, b, c, d);
      RealProduct(c - a, d - b);
    } else {
      assert Rectangle(a, b, c, d) == {};
    }
  }

  lemma AreaCounts(b: Box)
    requires OnGrid(b)
    ensures Area(b) == |Cells(b)| as real
  {
    LengthCounts(b.x1, b.y1, b.x2, b.y2);
  }

  lemma FloorOfBounds(x: real, y: real)
    requires Whole(x) && Whole(y)
    ensures Whole(Max(x, y)) && Max(x, y).Floor == (if x.Floor < y.Floor then y.Floor else x.Floor)
    ensures Whole(Min(x, y)) && Min(x, y).Floor == (if y.Floor < x.Floor then y.Floor else x.Floor)
  {
  }

  lemma CommonCells(x1: int, y1: int, x2: int, y2: int, x1': int, y1': int, x2': int, y2': int)
    ensures Rectangle(x1, y1, x2, y2) * Rectangle(x1', y1', x2', y2')
         == Rectangle(if x1 < x1' then x1' else x1, if y1 < y1' then y1' else y1,
                      if x2' < x2 then x2' else x2, if y2' < y2 then y2' else y2)
  {
  }

  lemma IntersectionCounts(a: Box, b: Box)
    requires OnGrid(a) && OnGrid(b)
    ensures Intersection(a, b) == |Cells(a) * Cells(b)| as real
  {
    hide Length, Whole, Max, Min, Rectangle;
    FloorOfBounds(a.x1, b.x1);
    FloorOfBounds(a.y1, b.y1);
    FloorOfBounds(a.x2, b.x2);
    FloorOfBounds(a.y2, b.y2);
    LengthCounts(Max(a.x1, b.x1), Max(a.y1, b.y1), Min(a.x2, b.x2), Min(a.y2, b.y2));
    CommonCells(a.x1.Floor, a.y1.Floor, a.x2.Floor, a.y2.Floor, b.x1.Floor, b.y1.Floor, b.x2.Floor, b.y2.Floor);
  }

  /** For boxes with whole corners, overlap is the number of unit cells in both over the
      number of unit cells in either. */
  lemma IoUCountsCells(a: Box, b: Box)
    requires OnGrid(a) && OnGrid(b)
    ensures IoU(a, b) == if Cells(a) + Cells(b) == {} then 0.0
                         else |Cells(a) * Cells(b)| as real / |Cells(a) + Cells(b)| as real
  {
    hide Area, Intersection, Cells;
    AreaCounts(a);
    AreaCounts(b);
    IntersectionCounts(a, b);
    var x, y := Cells(a), Cells(b);
    assert |x + y| + |x * y| == |x| + |y|;
  }

  // ----- Any unit of length -----

  function Scaled(b: Box, k: real): Box {
    b.(x1 := Times(k, b.x1), y1 := Times(k, b.y1), x2 := Times(k, b.x2), y2 := Times(k, b.y2))
  }

  lemma OrderScales(x: real, y: real, k: real)
    requires 0.0 < k
    ensures x < y <==> Times(k, x) < Times(k, y)
    ensures Times(k, y) - Times(k, x) == Times(k, y - x)
    ensures Times(k, 0.0) == 0.0
  {
  }

  lemma LengthScales(low: real, high: real, k: real)
    requires 0.0 < k
    ensures Length(Times(k, low), Times(k, high)) == Times(k, Length(low, high))
  {
    hide Times;
    OrderScales(low, high, k);
  }

  lemma SharedScales(low: real, high: real, low': real, high': real, k: real)
    requires 0.0 < k
    ensures Shared(Times(k, low), Times(k, high), Times(k, low'), Times(k, high'))
         == Times(k, Shared(low, high, low', high'))
  {
    hide Times, Length;
    OrderScales(low, low', k);
    OrderScales(high, high', k);
    OrderScales(high', high, k);
    LengthScales(Max(low, low'), Min(high, high'), k);
  }

  lemma ProductScales(x: real, y: real, xy: real, u: real, v: real, uv: real, k: real)
    requires u == Times(k, x) && v == Times(k, y) && xy == x * y && uv == u * v
    ensures uv == Times(k, Times(k, xy))
  {
    assert u * v == k * (x * v);
    assert x * v == k * (x * y);
  }

  lemma AreaScales(b: Box, k: real)
    requires 0.0 < k
    ensures Area(Scaled(b, k)) == Times(k, Times(k, Area(b)))
  {
    hide Length, Times;
    var c := Scaled(b, k);
    LengthScales(b.x1, b.x2, k);
    LengthScales(b.y1, b.y2, k);
    ProductScales(Length(b.x1, b.x2), Length(b.y1, b.y2), Area(b),
                  Length(c.x1, c.x2), Length(c.y1, c.y2), Area(c), k);
  }

  lemma IntersectionScales(a: Box, b: Box, k: real)
    requires 0.0 < k
    ensures Intersection(Scaled(a, k), Scaled(b, k)) == Times(k, Times(k, Intersection(a, b)))
  {
    hide Shared, Times;
    var c, d := Scaled(a, k), Scaled(b, k);
    SharedScales(a.x1, a.x2, b.x1, b.x2, k);
    SharedScales(a.y1, a.y2, b.y1, b.y2, k);
    ProductScales(Shared(a.x1, a.x2, b.x1, b.x2), Shared(a.y1, a.y2, b.y1, b.y2), Intersection(a, b),
                  Shared(c.x1, c.x2, d.x1, d.x2), Shared(c.y1, c.y2, d.y1, d.y2), Intersection(c, d), k);
  }

  /** A quotient and the sums it is made of, in another unit. */
  lemma RatioScales(inter: real, x: real, y: real, k: real)
    requires 0.0 < k
    ensures Times(k, x) + Times(k, y) - Times(k, inter) == Times(k, x + y - inter)
    ensures Times(k, x + y - inter) > 0.0 <==> x + y - inter > 0.0
    ensures x + y - inter > 0.0 ==> Times(k, inter) / Times(k, x + y - inter) == inter / (x + y - inter)
  {
    var uni := x + y - inter;
    if uni > 0.0 {
      var q := inter / uni;
      assert k * inter == k * (q * uni) == q * (k * uni);
    }
  }

  /** Overlap does not depend on the unit of length, so boxes with corners on any grid are
      measured by counting its cells. */
  lemma IoUScales(a: Box, b: Box, k: real)
    requires 0.0 < k
    ensures IoU(Scaled(a, k), Scaled(b, k)) == IoU(a, b)
  {
    hide Area, Intersection, Scaled, Times;
    AreaScales(a, k);
    AreaScales(b, k);
    IntersectionScales(a, b, k);
    var x, y, inter := Area(a), Area(b), Intersection(a, b);
    RatioScales(inter, x, y, k);
    RatioScales(Times(k, inter), Times(k, x), Times(k, y), k);
  }
}
