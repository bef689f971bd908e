/** What the letterbox resize computes: the scale is the largest that fits, destination and
    source pixels correspond by their centres, and bilinear interpolation reproduces every
    image whose brightness is linear in its coordinates. */
module Resampling {
  import opened Basics
  import opened Letterbox

  // ----- The scale -----

  lemma QuotientFits(s: real, a: real, q: real)
    requires 0.0 < a
    ensures a * (s / a) == s
    ensures a * q <= s <==> q <= s / a
  {
    var p := s / a;
    assert p * a == s;
    assert q <= p ==> a * (p - q) >= 0.0;
    assert q > p ==> a * (q - p) > 0.0;
  }

  /** The scale is the largest under which the frame fits into the square. */
  lemma LargestScaleThatFits(f: Frame, s: nat, q: real)
    requires 0 < f.width && 0 < f.height
    ensures f.width as real * q <= s as real && f.height as real * q <= s as real <==> q <= FitScale(f, s)
  {
    QuotientFits(s as real, f.width as real, q);
    QuotientFits(s as real, f.height as real, q);
  }

  lemma ScaleIsPositive(f: Frame, s: nat)
    requires 0 < f.width && 0 < f.height && 0 < s
    ensures 0.0 < FitScale(f, s)
  {
    QuotientIsPositive(s as real, f.width as real);
    QuotientIsPositive(s as real, f.height as real);
  }

  lemma Truncated(length: nat, scale: real, s: nat, x: real)
    requires 0 < s && 0.0 < scale && x == length as real * scale && x <= s as real && 0 < length
    ensures var n := FitLength(length, scale, s);
            if x < 1.0 then n == 1 else n as real <= x < n as real + 1.0
  {
    ProductIsPositive(length as real, scale);
  }

  /** Each side is the scaled side with its fraction dropped, but at least one pixel. */
  lemma SidesAreTruncated(f: Frame, s: nat, w: real, h: real)
    requires 0 < f.width && 0 < f.height && 0 < s
    requires w == f.width as real * FitScale(f, s) && h == f.height as real * FitScale(f, s)
    ensures var n := FitSize(f, s).width; if w < 1.0 then n == 1 else n as real <= w < n as real + 1.0
    ensures var n := FitSize(f, s).height; if h < 1.0 then n == 1 else n as real <= h < n as real + 1.0
  {
    hide FitLength, FitScale;
    ScaleIsPositive(f, s);
    LargestScaleThatFits(f, s, FitScale(f, s));
    Truncated(f.width, FitScale(f, s), s, w);
    Truncated(f.height, FitScale(f, s), s, h);
  }

  // ----- Sample positions -----

  /** Pixel centres correspond: half a pixel in, the position is the same fraction of the
      source as the destination index is of the destination, unless that falls before the
      first centre. */
  lemma CentresCorrespond(d: nat, srcLength: nat, dstLength: nat)
    requires d < dstLength && 0 < srcLength
    ensures var p, m, n := Position(d, srcLength, dstLength), srcLength as real, dstLength as real;
            if (d as real + 0.5) * m < 0.5 * n then p == 0.0 else (p + 0.5) * n == (d as real + 0.5) * m
  {
    var m, n, e := srcLength as real, dstLength as real, d as real + 0.5;
    var scale := m / n;
    assert scale * n == m;
    assert (e * scale) * n == e * m;
    var t := e * scale;
    assert t < 0.5 ==> (0.5 - t) * n > 0.0;
    assert t >= 0.5 ==> (t - 0.5) * n >= 0.0;
  }

  // ----- Interpolation -----

  /** A position, held at the last pixel. */
  function Held(position: real, length: nat): real {
    if position < (length - 1) as real then position else (length - 1) as real
  }

  /** The two neighbours and the weight stand for the position. */
  lemma NeighboursStandFor(d: nat, srcLength: nat, dstLength: nat)
    requires d < dstLength && 0 < srcLength
    ensures var i, j, w := Low(d, srcLength, dstLength), High(d, srcLength, dstLength), Weight(d, srcLength, dstLength);
            && (j == i || j == i + 1)
            && (if j == i then i as real else i as real + w) == Held(Position(d, srcLength, dstLength), srcLength)
  {
    hide Position;
    PositionIsInside(d, srcLength, dstLength);
  }

  lemma BlendLinear(w: real, a: real, k: real, i: real, j: real, p: real, q: real)
    requires (j == i || j == i + 1.0) && p == a + Times(k, i) && q == a + Times(k, j)
    ensures Blend(w, p, q) == a + Times(k, if j == i then i else i + w)
  {
    assert (1.0 - w) * p == p - w * p;
    if j != i {
      assert q == p + k;
      assert w * (p + k) == w * p + w * k;
      assert k * (i + w) == k * i + w * k;
    }
  }

  /** Brightness is linear in the coordinates, in one channel. */
  ghost predicate Linear(f: Frame, c: nat, a: real, down: real, right: real)
    requires f.Valid() && c < 3
  {
    forall y, x | 0 <= y < f.height && 0 <= x < f.width ::
      Pixel(f, y, x, c) as real == a + Times(down, y as real) + Times(right, x as real)
  }

  lemma RowIsLinear(f: Frame, c: nat, a: real, down: real, right: real, y: nat, i: nat, j: nat, w: real, p: real)
    requires f.Valid() && c < 3 && Linear(f, c, a, down, right) && y < f.height && i < f.width && j < f.width
    requires (j == i || j == i + 1) && p == if j == i then i as real else i as real + w
    ensures Blend(w, Pixel(f, y, i, c) as real, Pixel(f, y, j, c) as real)
         == a + Times(right, p) + Times(down, y as real)
  {
    hide Pixel, Blend, Times;
    BlendLinear(w, a + Times(down, y as real), right, i as real, j as real,
                Pixel(f, y, i, c) as real, Pixel(f, y, j, c) as real);
  }

  /** On such an image every sample is the brightness at its position, to the nearest integer
      and upwards from a half. */
  lemma LinearIsReproduced(f: Frame, size: Size, y: nat, x: nat, c: nat, a: real, down: real, right: real)
    requires InImage(f, size, y, x, c) && Linear(f, c, a, down, right)
    ensures var v := a + Times(right, Held(Position(x, f.width, size.width), f.width))
                       + Times(down, Held(Position(y, f.height, size.height), f.height));
            v - 0.5 < Sample(f, size, y, x, c) as real <= v + 0.5
  {
    hide Pixel, Blend, Low, High, Weight, Linear, Held, Position, Times;
    var (y0, y1, wy) := Neighbours(y, f.height, size.height);
    var (x0, x1, wx) := Neighbours(x, f.width, size.width);
    var px, py := Held(Position(x, f.width, size.width), f.width), Held(Position(y, f.height, size.height), f.height);
    NeighboursStandFor(y, f.height, size.height);
    NeighboursStandFor(x, f.width, size.width);
    RowIsLinear(f, c, a, down, right, y0, x0, x1, wx, px);
    RowIsLinear(f, c, a, down, right, y1, x0, x1, wx, px);
    BlendLinear(wy, a + Times(right, px), down, y0 as real, y1 as real,
                Blend(wx, Pixel(f, y0, x0, c) as real, Pixel(f, y0, x1, c) as real),
                Blend(wx, Pixel(f, y1, x0, c) as real, Pixel(f, y1, x1, c) as real));
  }

  // ----- Bytes and cells -----

  /** Pixels are stored row by row, three bytes each. */
  lemma PixelIsByte(f: Frame, y: nat, x: nat, c: nat)
    requires f.Valid() && y < f.height && x < f.width && c < 3
    ensures (y * f.width + x) * 3 + c < |f.pixels|
    ensures Pixel(f, y, x, c) == f.pixels[(y * f.width + x) * 3 + c]
  {
    PixelAt(f, y, x, c);
    assert y * (f.width * 3) == y * f.width * 3;
  }

  /** Channel by channel, row by row; 114 wherever the resized image does not reach. */
  lemma TensorLayout(f: Frame, size: Size, s: nat, c: nat, y: nat, x: nat)
    requires f.Valid() && 0 < f.width && 0 < f.height && c < 3
    ensures Index(s, c, y, x) == c * (s * s) + (y * s + x)
    ensures y >= size.height || x >= size.width ==> Cell(f, size, c, y, x) == 114.0
    ensures y < size.height && x < size.width ==> Cell(f, size, c, y, x) == Sample(f, size, y, x, c) as real
  {
    PlanarIndex(s, c, y, x);
  }
}
