/** The detector's preprocessing over reals: bilinear resize of a BGR frame into the
    top-left of a square planar tensor padded with gray. */
module Letterbox {
  import opened Basics
  import opened Options

  const GRAY: real := 114.0

  /** The pixel buffer may be longer than the image. */
  datatype Frame = Frame(bgr24: bool, width: nat, height: nat, pixels: seq<Byte>) {
    predicate Valid() {
      Bytes() <= |pixels|
    }

    function Bytes(): nat {
      width * height * 3
    }
  }

  // ----- One axis -----

  /** The source position of a destination index, by pixel centres. */
  function Position(d: nat, srcLength: nat, dstLength: nat): real
    requires 0 < dstLength
  {
    var f := (d as real + 0.5) * (srcLength as real / dstLength as real) - 0.5;
    if f < 0.0 then 0.0 else f
  }

  lemma PositionIsInside(d: nat, srcLength: nat, dstLength: nat)
    requires d < dstLength && 0 < srcLength
    ensures 0.0 <= Position(d, srcLength, dstLength) < srcLength as real
  {
    var m, n, e := srcLength as real, dstLength as real, d as real + 0.5;
    var scale := m / n;
    assert scale * n == m;
    QuotientIsPositive(m, n);
    ProductIsPositive(n - e, scale);
    assert (n - e) * scale == scale * n - e * scale;
  }

  lemma QuotientIsPositive(x: real, y: real)
    requires 0.0 < x && 0.0 < y
    ensures 0.0 < x / y
  {
  }

  lemma ProductIsPositive(x: real, y: real)
    requires 0.0 <= x && 0.0 <= y
    ensures 0.0 <= x * y
    ensures 0.0 < x && 0.0 < y ==> 0.0 < x * y
  {
  }

  function Low(d: nat, srcLength: nat, dstLength: nat): (i: nat)
    requires d < dstLength && 0 < srcLength
    ensures i < srcLength
  {
    PositionIsInside(d, srcLength, dstLength);
    Position(d, srcLength, dstLength).Floor
  }

  function High(d: nat, srcLength: nat, dstLength: nat): (i: nat)
    requires d < dstLength && 0 < srcLength
    ensures i < srcLength
  {
    if Low(d, srcLength, dstLength) + 1 < srcLength then Low(d, srcLength, dstLength) + 1 else srcLength - 1
  }

  function Weight(d: nat, srcLength: nat, dstLength: nat): (w: real)
    requires d < dstLength && 0 < srcLength
    ensures 0.0 <= w < 1.0
  {
    PositionIsInside(d, srcLength, dstLength);
    Position(d, srcLength, dstLength) - Low(d, srcLength, dstLength) as real
  }

  function Neighbours(d: nat, srcLength: nat, dstLength: nat): (nat, nat, real)
    requires d < dstLength && 0 < srcLength
  {
    (Low(d, srcLength, dstLength), High(d, srcLength, dstLength), Weight(d, srcLength, dstLength))
  }

  /** The first dstLength entries of the tables are the two neighbours and the weight; the
      clip to the last source index never bites. */
  method BuildAxisTable(srcLength: nat, dstLength: nat, i0: array<nat>, i1: array<nat>, w: array<real>)
    requires 0 < srcLength && 0 < dstLength && i0 != i1
    requires dstLength <= i0.Length && dstLength <= i1.Length && dstLength <= w.Length
    modifies i0, i1, w
    ensures forall d | 0 <= d < dstLength :: i0[d] == Low(d, srcLength, dstLength)
    ensures forall d | 0 <= d < dstLength :: i1[d] == High(d, srcLength, dstLength)
    ensures forall d | 0 <= d < dstLength :: w[d] == Weight(d, srcLength, dstLength)
  {
    hide Position;
    for d := 0 to dstLength
      invariant forall e | 0 <= e < d :: i0[e] == Low(e, srcLength, dstLength)
      invariant forall e | 0 <= e < d :: i1[e] == High(e, srcLength, dstLength)
      invariant forall e | 0 <= e < d :: w[e] == Weight(e, srcLength, dstLength)
    {
      PositionIsInside(d, srcLength, dstLength);
      var f := Position(d, srcLength, dstLength);
      var lo := f.Floor;
      if lo > srcLength - 1 {
        lo := srcLength - 1;
      }
      var hi := if lo + 1 < srcLength - 1 then lo + 1 else srcLength - 1;
      i0[d] := lo;
      i1[d] := hi;
      w[d] := f - lo as real;
    }
  }

  // ----- One sample -----

  function Blend(weight: real, a: real, b: real): real {
    (1.0 - weight) * a + weight * b
  }

  lemma BlendIsBetween(weight: real, a: real, b: real, low: real, high: real)
    requires 0.0 <= weight <= 1.0 && low <= a <= high && low <= b <= high
    ensures low <= Blend(weight, a, b) <= high
  {
    var u := 1.0 - weight;
    ProductIsPositive(u, a - low);
    ProductIsPositive(weight, b - low);
    ProductIsPositive(u, high - a);
    ProductIsPositive(weight, high - b);
    assert u * (a - low) + weight * (b - low) == Blend(weight, a, b) - low;
    assert u * (high - a) + weight * (high - b) == high - Blend(weight, a, b);
  }

  /** Rounding half up, which for values that are not negative is half away from zero. */
  function Round(x: real): int {
    (x + 0.5).Floor
  }

  function Offset(width: nat, y: nat, x: nat, c: nat): nat {
    y * (width * 3) + x * 3 + c
  }

  /** Every pixel of the image lies in its first width * height * 3 bytes. */
  lemma OffsetInImage(width: nat, height: nat, y: nat, x: nat, c: nat)
    requires y < height && x < width && c < 3
    ensures Offset(width, y, x, c) < width * height * 3
  {
    var stride := width * 3;
    assert y * stride <= (height - 1) * stride;
    assert (height - 1) * stride + stride == height * stride;
    assert height * stride == width * height * 3;
  }

  function Pixel(f: Frame, y: nat, x: nat, c: nat): Byte
    requires f.Valid() && y < f.height && x < f.width && c < 3
  {
    OffsetInImage(f.width, f.height, y, x, c);
    f.pixels[..f.Bytes()][Offset(f.width, y, x, c)]
  }

  datatype Size = Size(width: nat, height: nat)

  predicate InImage(f: Frame, size: Size, y: nat, x: nat, c: nat) {
    f.Valid() && y < size.height && x < size.width && c < 3 && 0 < f.width && 0 < f.height
  }

  /** The rounded blend of four pixels. */
  function Blended(f: Frame, y0: nat, y1: nat, wy: real, x0: nat, x1: nat, wx: real, c: nat): int
    requires f.Valid() && y0 < f.height && y1 < f.height && x0 < f.width && x1 < f.width && c < 3
  {
    Round(Blend(wy, Blend(wx, Pixel(f, y0, x0, c) as real, Pixel(f, y0, x1, c) as real),
                    Blend(wx, Pixel(f, y1, x0, c) as real, Pixel(f, y1, x1, c) as real)))
  }

  /** The resized image at row y, column x and channel c. */
  function Sample(f: Frame, size: Size, y: nat, x: nat, c: nat): int
    requires InImage(f, size, y, x, c)
  {
    Blended(f, Low(y, f.height, size.height), High(y, f.height, size.height), Weight(y, f.height, size.height),
            Low(x, f.width, size.width), High(x, f.width, size.width), Weight(x, f.width, size.width), c)
  }

  lemma SampleIs(f: Frame, size: Size, y: nat, x: nat, c: nat)
    requires InImage(f, size, y, x, c)
    ensures Sample(f, size, y, x, c)
            == Blended(f, Low(y, f.height, size.height), High(y, f.height, size.height),
                       Weight(y, f.height, size.height),
                       Low(x, f.width, size.width), High(x, f.width, size.width), Weight(x, f.width, size.width), c)
  {
  }

  /** The inner loop's arithmetic, on byte offsets. */
  method Interpolate(f: Frame, y0: nat, y1: nat, wy: real, x0: nat, x1: nat, wx: real, c: nat) returns (value: int)
    requires f.Valid() && y0 < f.height && y1 < f.height && x0 < f.width && x1 < f.width && c < 3
    ensures value == Blended(f, y0, y1, wy, x0, x1, wx, c)
  {
    hide Pixel, Round, Blend, Offset;
    PixelAt(f, y0, x0, c);
    PixelAt(f, y0, x1, c);
    PixelAt(f, y1, x0, c);
    PixelAt(f, y1, x1, c);
    var top := Blend(wx, f.pixels[Offset(f.width, y0, x0, c)] as real, f.pixels[Offset(f.width, y0, x1, c)] as real);
    var bottom := Blend(wx, f.pixels[Offset(f.width, y1, x0, c)] as real, f.pixels[Offset(f.width, y1, x1, c)] as real);
    value := Round(Blend(wy, top, bottom));
  }

  lemma PixelAt(f: Frame, y: nat, x: nat, c: nat)
    requires f.Valid() && y < f.height && x < f.width && c < 3
    ensures Offset(f.width, y, x, c) < |f.pixels|
    ensures f.pixels[Offset(f.width, y, x, c)] == Pixel(f, y, x, c)
  {
    OffsetInImage(f.width, f.height, y, x, c);
  }

  lemma RoundIsBetween(x: real, low: int, high: int)
    requires low as real <= x <= high as real
    ensures low <= Round(x) <= high
  {
  }

  /** A sample lies between any bounds on its four source pixels, rounding included. */
  lemma SampleIsBetween(f: Frame, size: Size, y: nat, x: nat, c: nat, low: int, high: int)
    requires InImage(f, size, y, x, c)
    requires var (y0, y1) := (Low(y, f.height, size.height), High(y, f.height, size.height));
             var (x0, x1) := (Low(x, f.width, size.width), High(x, f.width, size.width));
             && low <= Pixel(f, y0, x0, c) <= high && low <= Pixel(f, y0, x1, c) <= high
             && low <= Pixel(f, y1, x0, c) <= high && low <= Pixel(f, y1, x1, c) <= high
    ensures low <= Sample(f, size, y, x, c) <= high
  {
    hide Pixel, Blend, Low, High, Weight, Round;
    var (y0, y1, wy) := Neighbours(y, f.height, size.height);
    var (x0, x1, wx) := Neighbours(x, f.width, size.width);
    var top := Blend(wx, Pixel(f, y0, x0, c) as real, Pixel(f, y0, x1, c) as real);
    var bottom := Blend(wx, Pixel(f, y1, x0, c) as real, Pixel(f, y1, x1, c) as real);
    BlendIsBetween(wx, Pixel(f, y0, x0, c) as real, Pixel(f, y0, x1, c) as real, low as real, high as real);
    BlendIsBetween(wx, Pixel(f, y1, x0, c) as real, Pixel(f, y1, x1, c) as real, low as real, high as real);
    BlendIsBetween(wy, top, bottom, low as real, high as real);
    RoundIsBetween(Blend(wy, top, bottom), low, high);
  }

  /** A frame that is not resized is copied. */
  lemma IdentityResize(f: Frame, y: nat, x: nat, c: nat)
    requires InImage(f, Size(f.width, f.height), y, x, c)
    ensures Sample(f, Size(f.width, f.height), y, x, c) == Pixel(f, y, x, c)
  {
    hide Pixel, Position;
    SamePosition(y, f.height);
    SamePosition(x, f.width);
    var below, right := High(y, f.height, f.height), High(x, f.width, f.width);
    var p, q := Pixel(f, y, x, c), Pixel(f, y, right, c);
    var r, s := Pixel(f, below, x, c), Pixel(f, below, right, c);
    assert Blend(0.0, p as real, q as real) == p as real;
    assert Blend(0.0, p as real, Blend(0.0, r as real, s as real)) == p as real;
    RoundIsBetween(p as real, p, p);
  }

  lemma SamePosition(d: nat, length: nat)
    requires d < length
    ensures Position(d, length, length) == d as real
  {
    assert length as real / length as real == 1.0;
  }

  // ----- The tensor -----

  function Index(s: nat, c: nat, y: nat, x: nat): nat {
    (c * s + y) * s + x
  }

  lemma PlanarIndex(s: nat, c: nat, y: nat, x: nat)
    ensures c * (s * s) + (y * s + x) == Index(s, c, y, x)
  {
    assert (c * s + y) * s == c * s * s + y * s;
  }

  /** Row-major digits are unique. */
  lemma DigitsAreUnique(s: nat, a: nat, x: nat, b: nat, y: nat)
    requires x < s && y < s && a * s + x == b * s + y
    ensures a == b && x == y
  {
    if a < b {
      MultiplesApart(a, b, s);
    } else if b < a {
      MultiplesApart(b, a, s);
    }
  }

  lemma IndexInTensor(s: nat, c: nat, y: nat, x: nat)
    requires c < 3 && y < s && x < s
    ensures Index(s, c, y, x) < 3 * s * s
  {
    MultiplesApart(c, 3, s);
    MultiplesApart(c * s + y, 3 * s, s);
  }

  /** Different coordinates have different cells, all inside the tensor. */
  lemma IndexIsInjective(s: nat, c: nat, y: nat, x: nat, c': nat, y': nat, x': nat)
    requires c < 3 && y < s && x < s && c' < 3 && y' < s && x' < s
    ensures Index(s, c, y, x) < 3 * s * s
    ensures Index(s, c, y, x) == Index(s, c', y', x') ==> (c, y, x) == (c', y', x')
  {
    IndexInTensor(s, c, y, x);
    if Index(s, c, y, x) == Index(s, c', y', x') {
      DigitsAreUnique(s, c * s + y, x, c' * s + y', x');
      DigitsAreUnique(s, c, y, c', y');
    }
  }

  lemma {:induction false} Divides(i: nat, rows: nat, s: nat) returns (row: nat, x: nat)
    requires i < rows * s
    ensures row < rows && x < s && i == row * s + x
  {
    assert rows * s == (rows - 1) * s + s;
    if i >= (rows - 1) * s {
      row, x := rows - 1, i - (rows - 1) * s;
    } else {
      row, x := Divides(i, rows - 1, s);
    }
  }

  /** Every cell has coordinates. */
  lemma EveryCellHasCoordinates(s: nat, i: nat) returns (c: nat, y: nat, x: nat)
    requires i < 3 * s * s
    ensures c < 3 && y < s && x < s && Index(s, c, y, x) == i
  {
    var row: nat;
    row, x := Divides(i, 3 * s, s);
    c, y := Divides(row, 3, s);
  }

  // ----- Painting -----

  /** Whether pixel (y, x) in channel c is painted once the loops have reached (dy, dx, dc). */
  predicate Reached(y: nat, x: nat, c: nat, dy: nat, dx: nat, dc: nat) {
    y < dy || (y == dy && (x < dx || (x == dx && c < dc)))
  }

  function Cell(f: Frame, size: Size, c: nat, y: nat, x: nat): real
    requires f.Valid() && 0 < f.width && 0 < f.height && c < 3
  {
    if y < size.height && x < size.width then Sample(f, size, y, x, c) as real else GRAY
  }

  ghost predicate Painted(t: seq<real>, s: nat, f: Frame, size: Size, dy: nat, dx: nat, dc: nat)
    requires f.Valid() && 0 < f.width && 0 < f.height
  {
    forall c, y, x | 0 <= c < 3 && 0 <= y < s && 0 <= x < s ::
      && Index(s, c, y, x) < |t|
      && t[Index(s, c, y, x)] == if Reached(y, x, c, dy, dx, dc) then Cell(f, size, c, y, x) else GRAY
  }

  lemma PaintOneMore(t: seq<real>, s: nat, f: Frame, size: Size, dy: nat, dx: nat, dc: nat)
    requires f.Valid() && 0 < f.width && 0 < f.height
    requires Painted(t, s, f, size, dy, dx, dc) && |t| == 3 * s * s
    requires dc < 3 && dy < size.height <= s && dx < size.width <= s
    ensures Index(s, dc, dy, dx) < |t|
    ensures Painted(t[Index(s, dc, dy, dx) := Sample(f, size, dy, dx, dc) as real], s, f, size, dy, dx, dc + 1)
  {
    hide Sample, Index;
    assert Index(s, dc, dy, dx) < |t|;
    var after := t[Index(s, dc, dy, dx) := Sample(f, size, dy, dx, dc) as real];
    forall c, y, x | 0 <= c < 3 && 0 <= y < s && 0 <= x < s
      ensures Index(s, c, y, x) < |after|
      ensures after[Index(s, c, y, x)] == if Reached(y, x, c, dy, dx, dc + 1) then Cell(f, size, c, y, x) else GRAY
    {
      IndexIsInjective(s, c, y, x, dc, dy, dx);
    }
  }

  lemma PaintNextColumn(t: seq<real>, s: nat, f: Frame, size: Size, dy: nat, dx: nat)
    requires f.Valid() && 0 < f.width && 0 < f.height && Painted(t, s, f, size, dy, dx, 3)
    ensures Painted(t, s, f, size, dy, dx + 1, 0)
  {
    hide Cell, Index;
    forall c, y, x | 0 <= c < 3 && 0 <= y < s && 0 <= x < s
      ensures Index(s, c, y, x) < |t|
      ensures t[Index(s, c, y, x)] == if Reached(y, x, c, dy, dx + 1, 0) then Cell(f, size, c, y, x) else GRAY
    {
      assert Reached(y, x, c, dy, dx, 3) == Reached(y, x, c, dy, dx + 1, 0);
    }
  }

  lemma PaintNextRow(t: seq<real>, s: nat, f: Frame, size: Size, dy: nat)
    requires f.Valid() && 0 < f.width && 0 < f.height && Painted(t, s, f, size, dy, size.width, 0)
    ensures Painted(t, s, f, size, dy + 1, 0, 0)
  {
    hide Sample, Index;
    forall c, y, x | 0 <= c < 3 && 0 <= y < s && 0 <= x < s
      ensures Index(s, c, y, x) < |t|
      ensures t[Index(s, c, y, x)] == if Reached(y, x, c, dy + 1, 0, 0) then Cell(f, size, c, y, x) else GRAY
    {
      assert Reached(y, x, c, dy, size.width, 0) || y > dy || (y == dy && x >= size.width);
    }
  }

  lemma AllGray(t: seq<real>, s: nat, f: Frame, size: Size)
    requires f.Valid() && 0 < f.width && 0 < f.height && |t| == 3 * s * s
    requires forall i | 0 <= i < |t| :: t[i] == GRAY
    ensures Painted(t, s, f, size, 0, 0, 0)
  {
    hide Index, Cell;
    forall c, y, x | 0 <= c < 3 && 0 <= y < s && 0 <= x < s
      ensures Index(s, c, y, x) < |t| && t[Index(s, c, y, x)] == GRAY
    {
      IndexInTensor(s, c, y, x);
    }
  }

  /** The scale that fits the frame into the square. */
  function FitScale(f: Frame, s: nat): (r: real)
    requires 0 < f.width && 0 < f.height
  {
    var a, b := s as real / f.height as real, s as real / f.width as real;
    if b < a then b else a
  }

  function FitLength(length: nat, scale: real, s: nat): (n: nat)
    requires 0 < s
    ensures 1 <= n <= s
  {
    var n := (length as real * scale).Floor;
    if n < 1 then 1 else if s < n then s else n
  }

  function FitSize(f: Frame, s: nat): Size
    requires 0 < f.width && 0 < f.height && 0 < s
  {
    Size(FitLength(f.width, FitScale(f, s), s), FitLength(f.height, FitScale(f, s), s))
  }

  /** The resized image touches the far edge of the square on its longer side. */
  lemma LongerSideFills(f: Frame, s: nat)
    requires 0 < f.width && 0 < f.height && 0 < s
    ensures FitSize(f, s).width == s || FitSize(f, s).height == s
  {
    var w, h, t := f.width as real, f.height as real, s as real;
    assert t / w * w == t && t / h * h == t;
  }

  class Preprocessor {
    const inputSize: nat
    const tensor: array<real>
    const colX0: array<nat>
    const colX1: array<nat>
    const colWx: array<real>
    const rowY0: array<nat>
    const rowY1: array<nat>
    const rowWy: array<real>

    ghost predicate Valid() {
      && 0 < inputSize
      && tensor.Length == 3 * inputSize * inputSize
      && colX0.Length == colX1.Length == colWx.Length == inputSize
      && rowY0.Length == rowY1.Length == rowWy.Length == inputSize
      && colX0 != colX1 && colX0 != rowY0 && colX0 != rowY1 && colX1 != rowY0 && colX1 != rowY1 && rowY0 != rowY1
      && tensor != colWx && tensor != rowWy && colWx != rowWy
    }

    constructor (inputSize: nat)
      requires 0 < inputSize
      ensures Valid() && this.inputSize == inputSize
      ensures fresh(tensor) && fresh(colX0) && fresh(colX1) && fresh(colWx)
      ensures fresh(rowY0) && fresh(rowY1) && fresh(rowWy)
    {
      this.inputSize := inputSize;
      tensor := new real[3 * inputSize * inputSize];
      colX0 := new nat[inputSize];
      colX1 := new nat[inputSize];
      colWx := new real[inputSize];
      rowY0 := new nat[inputSize];
      rowY1 := new nat[inputSize];
      rowWy := new real[inputSize];
    }

    method FillGray()
      modifies tensor
      ensures forall i | 0 <= i < tensor.Length :: tensor[i] == GRAY
    {
      for i := 0 to tensor.Length
        invariant forall j | 0 <= j < i :: tensor[j] == GRAY
      {
        tensor[i] := GRAY;
      }
    }

    /** One destination pixel, all three channels. */
    method PaintPixel(f: Frame, size: Size, dy: nat, dx: nat, y0: nat, y1: nat, wy: real, x0: nat, x1: nat, wx: real)
      requires Valid() && f.Valid() && 0 < f.width && 0 < f.height
      requires dy < size.height <= inputSize && dx < size.width <= inputSize
      requires (y0, y1, wy) == Neighbours(dy, f.height, size.height)
      requires (x0, x1, wx) == Neighbours(dx, f.width, size.width)
      requires Painted(tensor[..], inputSize, f, size, dy, dx, 0)
      modifies tensor
      ensures Painted(tensor[..], inputSize, f, size, dy, dx + 1, 0)
    {
      hide Painted, Low, High, Weight, Sample, Index;
      var plane := inputSize * inputSize;
      var dst := dy * inputSize + dx;
      for c := 0 to 3
        invariant Painted(tensor[..], inputSize, f, size, dy, dx, c)
      {
        PlanarIndex(inputSize, c, dy, dx);
        var value := Interpolate(f, y0, y1, wy, x0, x1, wx, c);
        SampleIs(f, size, dy, dx, c);
        ghost var before := tensor[..];
        PaintOneMore(before, inputSize, f, size, dy, dx, c);
        tensor[c * plane + dst] := value as real;
        assert tensor[..] == before[Index(inputSize, c, dy, dx) := value as real];
      }
      PaintNextColumn(tensor[..], inputSize, f, size, dy, dx);
    }

    /** The tables hold the neighbours and weights of this resize. */
    ghost predicate TablesFor(f: Frame, size: Size)
      requires Valid() && 0 < f.width && 0 < f.height
      reads colX0, colX1, colWx, rowY0, rowY1, rowWy
    {
      && size.width <= inputSize && size.height <= inputSize
      && (forall d | 0 <= d < size.width ::
            (colX0[d], colX1[d], colWx[d]) == Neighbours(d, f.width, size.width))
      && (forall d | 0 <= d < size.height ::
            (rowY0[d], rowY1[d], rowWy[d]) == Neighbours(d, f.height, size.height))
    }

    method PaintRow(f: Frame, size: Size, dy: nat)
      requires Valid() && f.Valid() && 0 < f.width && 0 < f.height && TablesFor(f, size)
      requires dy < size.height
      requires Painted(tensor[..], inputSize, f, size, dy, 0, 0)
      modifies tensor
      ensures Painted(tensor[..], inputSize, f, size, dy + 1, 0, 0)
    {
      hide Painted, Low, High, Weight;
      for dx := 0 to size.width
        invariant TablesFor(f, size) && Painted(tensor[..], inputSize, f, size, dy, dx, 0)
      {
        PaintPixel(f, size, dy, dx, rowY0[dy], rowY1[dy], rowWy[dy], colX0[dx], colX1[dx], colWx[dx]);
      }
      PaintNextRow(tensor[..], inputSize, f, size, dy);
    }

    method BuildTables(f: Frame, size: Size)
      requires Valid() && 0 < f.width && 0 < f.height
      requires 0 < size.width <= inputSize && 0 < size.height <= inputSize
      modifies colX0, colX1, colWx, rowY0, rowY1, rowWy
      ensures TablesFor(f, size)
    {
      hide Low, High, Weight;
      BuildAxisTable(f.width, size.width, colX0, colX1, colWx);
      BuildAxisTable(f.height, size.height, rowY0, rowY1, rowWy);
    }

    /** Refuses anything but a non-empty BGR frame.  Otherwise every cell of the tensor holds
        the sample at its coordinates if they lie in the resized image, and gray if not. */
    method Preprocess(f: Frame) returns (scale: Option<real>)
      requires Valid() && f.Valid()
      modifies tensor, colX0, colX1, colWx, rowY0, rowY1, rowWy
      ensures scale.None? <==> !f.bgr24 || f.width == 0 || f.height == 0
      ensures scale.None? ==> tensor[..] == old(tensor[..])
      ensures scale.Some? ==>
                && scale.value == FitScale(f, inputSize)
                && forall c, y, x | 0 <= c < 3 && 0 <= y < inputSize && 0 <= x < inputSize ::
                     && Index(inputSize, c, y, x) < tensor.Length
                     && tensor[Index(inputSize, c, y, x)] == Cell(f, FitSize(f, inputSize), c, y, x)
    {
      hide Painted, Sample, Low, High, Weight;
      if !f.bgr24 || f.width == 0 || f.height == 0 {
        return None;
      }
      var r := FitScale(f, inputSize);
      var size := Size(FitLength(f.width, r, inputSize), FitLength(f.height, r, inputSize));
      FillGray();
      AllGray(tensor[..], inputSize, f, size);
      BuildTables(f, size);
      for dy := 0 to size.height
        invariant TablesFor(f, size) && Painted(tensor[..], inputSize, f, size, dy, 0, 0)
      {
        PaintRow(f, size, dy);
      }
      AllPainted(tensor[..], inputSize, f, size);
      return Some(r);
    }
  }

  lemma AllPainted(t: seq<real>, s: nat, f: Frame, size: Size)
    requires f.Valid() && 0 < f.width && 0 < f.height && Painted(t, s, f, size, size.height, 0, 0)
    ensures forall c, y, x | 0 <= c < 3 && 0 <= y < s && 0 <= x < s ::
              Index(s, c, y, x) < |t| && t[Index(s, c, y, x)] == Cell(f, size, c, y, x)
  {
    hide Sample, Index;
  }

  /** Only the image's own bytes matter. */
  lemma OnlyImageBytesMatter(f: Frame, g: Frame, size: Size, c: nat, y: nat, x: nat)
    requires f.Valid() && g.Valid() && (f.width, f.height) == (g.width, g.height)
    requires 0 < f.width && 0 < f.height && c < 3
    requires f.pixels[..f.Bytes()] == g.pixels[..f.Bytes()]
    ensures Cell(f, size, c, y, x) == Cell(g, size, c, y, x)
  {
    hide Blend, Low, High, Weight, Round, Offset;
  }
}
