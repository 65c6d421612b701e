/** Rectangles in a flat pixel buffer, and the lane fill that starts every frame. */
module Raster {
  import opened Geometry

  type Colour = nat

  function Rgba(r: nat, g: nat, b: nat): Colour {
    r + g * 0x100 + b * 0x1_0000 + 255 * 0x100_0000
  }

  const EDGE: Colour := Rgba(38, 51, 70)

  /** The background of a row of a lane: a slight gradient, alternate lanes lighter. */
  function Background(lane: nat, y: nat, height: nat): Colour
    requires height > 0
  {
    var base := (lane % 2) * 3 + 6 * y / height;
    Rgba(9 + base, 16 + base, 28 + base)
  }

  function EdgeWidth(width: nat): nat {
    if width / 640 > 1 then width / 640 else 1
  }

  function Clamp(x: int, low: int, high: int): int
    requires low <= high
  {
    if x < low then low else if x > high then high else x
  }

  /** Rows and columns of the flat buffer. */
  function Row(i: nat, width: nat): nat
    requires width > 0
  {
    if i < width then 0 else 1 + Row(i - width, width)
  }

  function Column(i: nat, width: nat): nat
    requires width > 0
  {
    if i < width then i else Column(i - width, width)
  }

  /** Pixel i lies inside the rectangle, wherever that lies. */
  predicate Covers(width: nat, x: int, y: int, w: int, h: int, i: nat)
    requires width > 0
  {
    x <= Column(i, width) < x + w && y <= Row(i, width) < y + h
  }

  lemma MulOrder(a: int, b: int, n: nat)
    requires a <= b
    ensures a * n <= b * n
  {
  }

  lemma {:induction false} Locate(i: nat, width: nat)
    requires width > 0
    ensures i == Row(i, width) * width + Column(i, width) && Column(i, width) < width
  {
    if i >= width { Locate(i - width, width); }
  }

  lemma RowBelow(i: nat, width: nat, q: nat)
    requires width > 0
    ensures Row(i, width) < q <==> i < q * width
  {
    Locate(i, width);
    if Row(i, width) < q { MulOrder(Row(i, width) + 1, q, width); } else { MulOrder(q, Row(i, width), width); }
  }

  lemma QuotientBelow(a: nat, n: nat, q: nat)
    requires n > 0
    ensures a / n < q <==> a < q * n
  {
    var k := a / n;
    assert a == k * n + a % n;
    if k < q { MulOrder(k + 1, q, n); } else { MulOrder(q, k, n); }
  }

  /** One row of a rectangle is one run of the buffer. */
  lemma RowRun(width: nat, row: nat, left: nat, right: nat, i: nat)
    requires left <= right <= width && width > 0
    ensures row * width + left <= i < row * width + right <==> Row(i, width) == row && left <= Column(i, width) < right
  {
    Locate(i, width);
    RowBelow(i, width, row);
    RowBelow(i, width, row + 1);
  }

  lemma RowFits(width: nat, height: nat, row: nat)
    requires row < height
    ensures row * width + width <= width * height
  {
    MulOrder(row + 1, height, width);
  }

  lemma RowInRange(width: nat, height: nat, i: nat)
    requires width > 0 && i < width * height
    ensures Row(i, width) < height
  {
    RowBelow(i, width, height);
  }

  // ----- lanes tile the width --------------------------------------------------------

  lemma DivideKeepsOrder(a: nat, b: nat, n: nat)
    requires n > 0 && a <= b
    ensures a / n <= b / n
  {
    QuotientBelow(b, n, b / n + 1);
    QuotientBelow(a, n, b / n + 1);
  }

  lemma ExactQuotient(width: nat, lanes: nat)
    requires lanes > 0
    ensures lanes * width / lanes == width
  {
    QuotientBelow(lanes * width, lanes, width);
    QuotientBelow(lanes * width, lanes, width + 1);
  }

  lemma LanesInOrder(lane: nat, width: nat, lanes: nat)
    requires lane < lanes
    ensures LaneLeft(lane, width, lanes) <= LaneLeft(lane + 1, width, lanes) <= width
    ensures LaneLeft(0, width, lanes) == 0 && LaneLeft(lanes, width, lanes) == width
  {
    ExactQuotient(width, lanes);
    LeftsAscend(lane, lane + 1, width, lanes);
    LeftsAscend(lane + 1, lanes, width, lanes);
  }

  lemma LeftsAscend(a: nat, b: nat, width: nat, lanes: nat)
    requires a <= b <= lanes && lanes > 0
    ensures LaneLeft(a, width, lanes) <= LaneLeft(b, width, lanes)
  {
    MulOrder(a, b, width);
    DivideKeepsOrder(a * width, b * width, lanes);
  }

  /** The lane a column belongs to, searching from the first n lanes down. */
  function LaneAt(column: nat, width: nat, lanes: nat, n: nat): nat
    requires n <= lanes
  {
    if n == 0 then 0 else if LaneLeft(n - 1, width, lanes) <= column then n - 1 else LaneAt(column, width, lanes, n - 1)
  }

  /** Lanes tile the width: every column is in exactly one. */
  lemma {:induction false} LanesTile(column: nat, width: nat, lanes: nat, n: nat)
    requires 0 < n <= lanes && column < LaneLeft(n, width, lanes)
    ensures var l := LaneAt(column, width, lanes, n);
            l < n && LaneLeft(l, width, lanes) <= column < LaneLeft(l + 1, width, lanes)
  {
    LanesInOrder(n - 1, width, lanes);
    if LaneLeft(n - 1, width, lanes) > column {
      LanesTile(column, width, lanes, n - 1);
    }
  }

  lemma {:induction false} LaneIsUnique(column: nat, width: nat, lanes: nat, n: nat, lane: nat)
    requires lane < n <= lanes && LaneLeft(lane, width, lanes) <= column < LaneLeft(lane + 1, width, lanes)
    ensures LaneAt(column, width, lanes, n) == lane
  {
    if lane < n - 1 {
      LeftsAscend(lane + 1, n - 1, width, lanes);
      LaneIsUnique(column, width, lanes, n - 1, lane);
    }
  }

  /** What pixel i shows once the lanes are filled: its own lane's edge or background. */
  function Base(width: nat, height: nat, lanes: nat, i: nat): Colour
    requires width > 0 && height > 0
  {
    var lane := LaneAt(Column(i, width), width, lanes, lanes);
    if lane > 0 && Column(i, width) < LaneLeft(lane, width, lanes) + EdgeWidth(width) then EDGE
    else Background(lane, Row(i, width), height)
  }

  lemma BaseInLane(width: nat, height: nat, lanes: nat, lane: nat, i: nat)
    requires width > 0 && height > 0 && lane < lanes
    requires LaneLeft(lane, width, lanes) <= Column(i, width) < LaneLeft(lane + 1, width, lanes)
    ensures Base(width, height, lanes, i) ==
            if lane > 0 && Column(i, width) < LaneLeft(lane, width, lanes) + EdgeWidth(width) then EDGE
            else Background(lane, Row(i, width), height)
  {
    LaneIsUnique(Column(i, width), width, lanes, lanes, lane);
  }

  lemma BasesInLane(width: nat, height: nat, lanes: nat, lane: nat)
    requires width > 0 && height > 0 && lane < lanes
    ensures forall i :: 0 <= i < width * height && LaneLeft(lane, width, lanes) <= Column(i, width) < LaneLeft(lane + 1, width, lanes) ==>
              Base(width, height, lanes, i) ==
              if lane > 0 && Column(i, width) < LaneLeft(lane, width, lanes) + EdgeWidth(width) then EDGE
              else Background(lane, Row(i, width), height)
  {
    forall i: nat | LaneLeft(lane, width, lanes) <= Column(i, width) < LaneLeft(lane + 1, width, lanes)
      ensures Base(width, height, lanes, i) ==
              if lane > 0 && Column(i, width) < LaneLeft(lane, width, lanes) + EdgeWidth(width) then EDGE
              else Background(lane, Row(i, width), height)
    {
      BaseInLane(width, height, lanes, lane, i);
    }
  }

  predicate Inside(width: nat, left: nat, top: nat, right: nat, bottom: nat, i: nat)
    requires width > 0
  {
    left <= Column(i, width) < right && top <= Row(i, width) < bottom
  }

  /** Clamping the corners to the canvas loses no pixel and adds none. */
  lemma ClippingIsExact(width: nat, height: nat, x: int, y: int, w: int, h: int)
    requires width > 0
    ensures forall i :: 0 <= i < width * height ==>
              (Covers(width, x, y, w, h, i) <==>
               Inside(width, Clamp(x, 0, width), Clamp(y, 0, height), Clamp(x + w, 0, width), Clamp(y + h, 0, height), i))
  {
    forall i: nat | i < width * height
      ensures Column(i, width) < width && Row(i, width) < height
    {
      Locate(i, width);
      RowInRange(width, height, i);
    }
  }

  lemma RowRuns(width: nat, height: nat, row: nat, left: nat, right: nat)
    requires left <= right <= width && width > 0
    ensures forall i :: 0 <= i < width * height ==>
              (row * width + left <= i < row * width + right <==> Row(i, width) == row && left <= Column(i, width) < right)
  {
    forall i: nat | i < width * height
      ensures row * width + left <= i < row * width + right <==> Row(i, width) == row && left <= Column(i, width) < right
    {
      RowRun(width, row, left, right, i);
    }
  }

  class Canvas {
    const pixels: array<Colour>
    const width: nat
    const height: nat

    ghost predicate Valid() {
      width > 0 && height > 0 && pixels.Length >= width * height
    }

    constructor (pixels: array<Colour>, width: nat, height: nat)
      requires width > 0 && height > 0 && pixels.Length >= width * height
      ensures Valid() && this.pixels == pixels && this.width == width && this.height == height
    {
      this.pixels, this.width, this.height := pixels, width, height;
    }

    method FillRun(begin: nat, end: nat, colour: Colour)
      requires begin <= end <= pixels.Length
      modifies pixels
      ensures forall i :: 0 <= i < pixels.Length ==> pixels[i] == if begin <= i < end then colour else old(pixels[i])
    {
      var i := begin;
      while i < end
        invariant begin <= i <= end
        invariant forall j :: 0 <= j < pixels.Length ==> pixels[j] == if begin <= j < i then colour else old(pixels[j])
      {
        pixels[i] := colour;
        i := i + 1;
      }
    }

    /** Clips to the canvas: exactly the pixels the rectangle covers change, whatever
        its position and size. */
    method Rect(x: int, y: int, w: int, h: int, colour: Colour)
      requires Valid()
      modifies pixels
      ensures forall i :: 0 <= i < width * height ==>
                pixels[i] == if Covers(width, x, y, w, h, i) then colour else old(pixels[i])
      ensures forall i :: width * height <= i < pixels.Length ==> pixels[i] == old(pixels[i])
    {
      if w <= 0 || h <= 0 { return; }
      var left, top := Clamp(x, 0, width), Clamp(y, 0, height);
      var right, bottom := Clamp(x + w, 0, width), Clamp(y + h, 0, height);
      ClippingIsExact(width, height, x, y, w, h);
      if left >= right || top >= bottom { return; }
      FillRows(left, top, right, bottom, colour);
    }

    method FillRows(left: nat, top: nat, right: nat, bottom: nat, colour: Colour)
      requires Valid() && left <= right <= width && top <= bottom <= height
      modifies pixels
      ensures forall i :: 0 <= i < width * height ==>
                pixels[i] == if Inside(width, left, top, right, bottom, i) then colour else old(pixels[i])
      ensures forall i :: width * height <= i < pixels.Length ==> pixels[i] == old(pixels[i])
    {
      var row := top;
      while row < bottom
        invariant top <= row <= bottom
        invariant forall i :: 0 <= i < width * height ==>
                    pixels[i] == if Inside(width, left, top, right, row, i) then colour else old(pixels[i])
        invariant forall i :: width * height <= i < pixels.Length ==> pixels[i] == old(pixels[i])
      {
        RowFits(width, height, row);
        RowRuns(width, height, row, left, right);
        FillRun(row * width + left, row * width + right, colour);
        row := row + 1;
      }
    }

    method FillBackground(lane: nat, left: nat, right: nat)
      requires Valid() && left <= right
      modifies pixels
      ensures forall i :: 0 <= i < width * height ==>
                pixels[i] == if left <= Column(i, width) < right then Background(lane, Row(i, width), height) else old(pixels[i])
      ensures forall i :: width * height <= i < pixels.Length ==> pixels[i] == old(pixels[i])
    {
      var y := 0;
      while y < height
        invariant 0 <= y <= height
        invariant forall i :: 0 <= i < width * height ==>
                    pixels[i] == if left <= Column(i, width) < right && Row(i, width) < y then Background(lane, Row(i, width), height) else old(pixels[i])
        invariant forall i :: width * height <= i < pixels.Length ==> pixels[i] == old(pixels[i])
      {
        Rect(left, y, right - left, 1, Background(lane, y, height));
        y := y + 1;
      }
      forall i | 0 <= i < width * height
        ensures Row(i, width) < height
      {
        RowInRange(width, height, i);
      }
    }

    method FillEdge(lane: nat, left: nat)
      requires Valid()
      modifies pixels
      ensures forall i :: 0 <= i < width * height ==>
                pixels[i] == if lane > 0 && left <= Column(i, width) < left + EdgeWidth(width) then EDGE else old(pixels[i])
      ensures forall i :: width * height <= i < pixels.Length ==> pixels[i] == old(pixels[i])
    {
      if lane > 0 { Rect(left, 0, EdgeWidth(width), height, EDGE); }
      forall i | 0 <= i < width * height
        ensures Row(i, width) < height
      {
        RowInRange(width, height, i);
      }
    }

    /** One lane: its background row by row, then its left edge, which a later lane's
        background may cut. */
    method FillLane(lane: nat, lanes: nat)
      requires Valid() && lane < lanes
      modifies pixels
      ensures forall i :: 0 <= i < width * height && Column(i, width) < LaneLeft(lane, width, lanes) ==> pixels[i] == old(pixels[i])
      ensures forall i :: 0 <= i < width * height && LaneLeft(lane, width, lanes) <= Column(i, width) < LaneLeft(lane + 1, width, lanes) ==>
                pixels[i] == Base(width, height, lanes, i)
      ensures forall i :: width * height <= i < pixels.Length ==> pixels[i] == old(pixels[i])
    {
      var left, right := LaneLeft(lane, width, lanes), LaneLeft(lane + 1, width, lanes);
      LanesInOrder(lane, width, lanes);
      FillBackground(lane, left, right);
      FillEdge(lane, left);
      BasesInLane(width, height, lanes, lane);
    }

    /** The lanes cover the canvas: nothing of the previous frame is left. */
    method FillLanes(lanes: nat)
      requires Valid() && lanes > 0
      modifies pixels
      ensures forall i :: 0 <= i < width * height ==> pixels[i] == Base(width, height, lanes, i)
      ensures forall i :: width * height <= i < pixels.Length ==> pixels[i] == old(pixels[i])
    {
      var lane := 0;
      LanesInOrder(0, width, lanes);
      ghost var left := 0;
      while lane < lanes
        invariant 0 <= lane <= lanes && left == LaneLeft(lane, width, lanes)
        invariant forall i :: 0 <= i < width * height && Column(i, width) < left ==>
                    pixels[i] == Base(width, height, lanes, i)
        invariant forall i :: width * height <= i < pixels.Length ==> pixels[i] == old(pixels[i])
      {
        FillLane(lane, lanes);
        lane, left := lane + 1, LaneLeft(lane + 1, width, lanes);
      }
      forall i | 0 <= i < width * height
        ensures Column(i, width) < width
      {
        Locate(i, width);
      }
    }
  }
}
