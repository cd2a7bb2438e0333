/** Declared final buffers: geometry, pixels and the sets of pixels a comparison is about. */
module Capture {
  import opened Basics
  import opened Wrappers

  const MAX_DIMENSION := 32768
  const MAX_RAW_BYTES := 256 * 1024 * 1024

  datatype Padding = Padding(left: int, right: int, top: int, bottom: int)

  /** The declared properties two captures must share to be comparable. */
  datatype Contract = Contract(
    width: int, height: int,
    columns: int, rows: int,
    cellWidth: int, cellHeight: int,
    padding: Padding,
    background: seq<Byte>,
    labels: seq<string>)

  datatype Buffer = Buffer(contract: Contract, stride: int, raw: seq<Byte>)

  /** What `load_capture` accepts. */
  predicate ValidContract(c: Contract) {
    && 1 <= c.width <= MAX_DIMENSION && 1 <= c.height <= MAX_DIMENSION
    && 1 <= c.columns <= 4096 && 1 <= c.rows <= 4096
    && 1 <= c.cellWidth <= MAX_DIMENSION && 1 <= c.cellHeight <= MAX_DIMENSION
    && 0 <= c.padding.left <= MAX_DIMENSION && 0 <= c.padding.right <= MAX_DIMENSION
    && 0 <= c.padding.top <= MAX_DIMENSION && 0 <= c.padding.bottom <= MAX_DIMENSION
    && c.padding.left + c.columns * c.cellWidth + c.padding.right == c.width
    && c.padding.top + c.rows * c.cellHeight + c.padding.bottom == c.height
    && |c.background| == 4
  }

  predicate ValidBuffer(b: Buffer) {
    && ValidContract(b.contract)
    && b.contract.width * 4 <= b.stride <= MAX_RAW_BYTES
    && |b.raw| == b.stride * b.contract.height <= MAX_RAW_BYTES
  }

  /** Both limits of every size can be reached, and none can be passed. */
  lemma SizesAreBounded(c: Contract, labels: seq<string>)
    ensures ValidContract(c) ==>
      && 1 <= c.width <= 32768 && 1 <= c.height <= 32768 && 1 <= c.columns <= 4096 && 1 <= c.rows <= 4096
      && c.cellWidth <= 32768 && c.cellHeight <= 32768 && c.padding.left <= 32767 && c.padding.right <= 32767
      && c.padding.top <= 32767 && c.padding.bottom <= 32767
    ensures ValidContract(Contract(32768, 32768, 4096, 4096, 8, 8, Padding(0, 0, 0, 0), [0, 0, 0, 0], labels))
    ensures ValidContract(Contract(32768, 32768, 1, 1, 32768, 32768, Padding(0, 0, 0, 0), [255, 255, 255, 255], labels))
    ensures ValidContract(Contract(32768, 32768, 1, 1, 1, 1, Padding(32767, 0, 32767, 0), [0, 0, 0, 0], labels))
    ensures ValidContract(Contract(32768, 32768, 1, 1, 1, 1, Padding(0, 32767, 0, 32767), [0, 0, 0, 0], labels))
    ensures ValidContract(Contract(1, 1, 1, 1, 1, 1, Padding(0, 0, 0, 0), [0, 0, 0, 0], labels))
  {
    if ValidContract(c) {
      ScaledUp(1, c.columns, c.cellWidth);
      ScaledUp(1, c.rows, c.cellHeight);
    }
  }

  type ValidCapture = b: Buffer | ValidBuffer(b) witness Buffer(
    Contract(1, 1, 1, 1, 1, 1, Padding(0, 0, 0, 0), [0, 0, 0, 0], []), 4, [0, 0, 0, 0])

  datatype Point = Point(x: int, y: int)

  predicate InArea(c: Contract, p: Point) {
    0 <= p.x < c.width && 0 <= p.y < c.height
  }

  /** Every pixel of the declared area lies inside the raw buffer. */
  lemma PixelInRange(b: ValidCapture, x: int, y: int)
    requires InArea(b.contract, Point(x, y))
    ensures 0 <= y * b.stride + x * 4 <= y * b.stride + x * 4 + 4 <= |b.raw|
  {
    ScaledUp(0, y, b.stride);
    ScaledUp(y + 1, b.contract.height, b.stride);
    assert (y + 1) * b.stride == y * b.stride + b.stride;
  }

  function Pixel(b: ValidCapture, x: int, y: int): (bytes: seq<Byte>)
    requires InArea(b.contract, Point(x, y))
    ensures |bytes| == 4
  {
    PixelInRange(b, x, y);
    var offset := y * b.stride + x * 4;
    b.raw[offset..offset + 4]
  }

  // ----- Cells -----------------------------------------------------------------------------

  datatype Cell = Cell(row: int, column: int)

  /** The arithmetic of the comparison loop; `//` rounds down and the divisor is positive. */
  function CellOf(c: Contract, x: int, y: int): Option<Cell>
    requires ValidContract(c)
  {
    var column := (x - c.padding.left) / c.cellWidth;
    var row := (y - c.padding.top) / c.cellHeight;
    if 0 <= column < c.columns && 0 <= row < c.rows then Some(Cell(row, column)) else None
  }

  /** The rectangle a cell occupies. */
  predicate Inside(c: Contract, cell: Cell, p: Point) {
    && 0 <= cell.column < c.columns && 0 <= cell.row < c.rows
    && c.padding.left + cell.column * c.cellWidth <= p.x < c.padding.left + (cell.column + 1) * c.cellWidth
    && c.padding.top + cell.row * c.cellHeight <= p.y < c.padding.top + (cell.row + 1) * c.cellHeight
  }

  predicate InPadding(c: Contract, p: Point) {
    || p.x < c.padding.left || p.x >= c.width - c.padding.right
    || p.y < c.padding.top || p.y >= c.height - c.padding.bottom
  }

  lemma QuotientIsFloor(n: int, d: int, q: int)
    requires d > 0
    ensures q == n / d <==> q * d <= n < (q + 1) * d
  {
    var r := n - (n / d) * d;
    assert 0 <= r < d;
    if q < n / d {
      assert (q + 1) * d <= (n / d) * d;
    } else if q > n / d {
      assert q * d >= (n / d + 1) * d;
    }
  }

  lemma OffsetInside(n: int, d: int, count: int)
    requires d > 0 && count > 0
    ensures 0 <= n / d < count <==> 0 <= n < count * d
  {
    var q := n / d;
    QuotientIsFloor(n, d, q);
    if q < count { ScaledUp(q + 1, count, d); } else { ScaledUp(count, q, d); }
    if q < 0 { ScaledUp(q + 1, 0, d); } else { ScaledUp(0, q, d); }
  }

  /** Every pixel is padding or lies in exactly one cell, and the loop's arithmetic says which. */
  lemma PixelsPartition(c: Contract, p: Point)
    requires ValidContract(c) && InArea(c, p)
    ensures CellOf(c, p.x, p.y).None? <==> InPadding(c, p)
    ensures forall cell :: Inside(c, cell, p) <==> CellOf(c, p.x, p.y) == Some(cell)
  {
    OffsetInside(p.x - c.padding.left, c.cellWidth, c.columns);
    OffsetInside(p.y - c.padding.top, c.cellHeight, c.rows);
    forall cell
      ensures Inside(c, cell, p) <==> CellOf(c, p.x, p.y) == Some(cell)
    {
      QuotientIsFloor(p.x - c.padding.left, c.cellWidth, cell.column);
      QuotientIsFloor(p.y - c.padding.top, c.cellHeight, cell.row);
    }
  }

  // ----- Channel differences ---------------------------------------------------------------

  function Max(a: int, b: int): int {
    if a < b then b else a
  }

  /** The greatest difference of a channel. */
  function ChannelDelta(a: seq<Byte>, b: seq<Byte>): (d: nat)
    requires |a| == |b| == 4
    ensures forall i :: 0 <= i < 4 ==> a[i] - b[i] <= d && b[i] - a[i] <= d
    ensures exists i :: 0 <= i < 4 && (a[i] == b[i] + d || b[i] == a[i] + d)
    ensures d == 0 <==> a == b
    ensures d < 256
  {
    Max(Max(Gap(a[0], b[0]), Gap(a[1], b[1])), Max(Gap(a[2], b[2]), Gap(a[3], b[3])))
  }

  function Delta(a: ValidCapture, b: ValidCapture, p: Point): nat
    requires a.contract == b.contract && InArea(a.contract, p)
  {
    ChannelDelta(Pixel(a, p.x, p.y), Pixel(b, p.x, p.y))
  }

  // ----- Sets of pixels ----------------------------------------------------------------------

  /** Raster order. */
  predicate Before(p: Point, x: int, y: int) {
    p.y < y || (p.y == y && p.x < x)
  }

  /** All pixels of the area that come before `(x, y)`. */
  function Area(c: Contract, x: int, y: int): set<Point> {
    set px, py | 0 <= px < c.width && 0 <= py < c.height && Before(Point(px, py), x, y) :: Point(px, py)
  }

  function All(c: Contract): set<Point> {
    set px, py | 0 <= px < c.width && 0 <= py < c.height :: Point(px, py)
  }

  lemma AreaStep(c: Contract, x: int, y: int)
    requires InArea(c, Point(x, y))
    ensures Area(c, x + 1, y) == Area(c, x, y) + {Point(x, y)} && Point(x, y) !in Area(c, x, y)
  {
  }

  lemma AreaRow(c: Contract, y: int)
    requires 0 <= y < c.height
    ensures Area(c, c.width, y) == Area(c, 0, y + 1)
  {
  }

  lemma AreaEnds(c: Contract)
    ensures Area(c, 0, 0) == {} && Area(c, 0, c.height) == All(c)
  {
  }

  /** The tightest box around a set of pixels. */
  datatype Box = Box(left: int, top: int, right: int, bottom: int)

  predicate IsBox(points: set<Point>, box: Option<Box>) {
    match box
    case None => points == {}
    case Some(b) =>
      && (forall p :: p in points ==> b.left <= p.x <= b.right && b.top <= p.y <= b.bottom)
      && (exists p :: p in points && p.x == b.left)
      && (exists p :: p in points && p.x == b.right)
      && (exists p :: p in points && p.y == b.top)
      && (exists p :: p in points && p.y == b.bottom)
  }

  function Grown(box: Option<Box>, x: int, y: int): Option<Box> {
    match box
    case None => Some(Box(x, y, x, y))
    case Some(b) => Some(Box(Min(b.left, x), Min(b.top, y), Max(b.right, x), Max(b.bottom, y)))
  }

  lemma GrownIsBox(points: set<Point>, box: Option<Box>, x: int, y: int)
    requires IsBox(points, box)
    ensures IsBox(points + {Point(x, y)}, Grown(box, x, y))
  {
    var more := points + {Point(x, y)};
    assert Point(x, y) in more;
    if box.Some? {
      var b := box.value;
      var l :| l in points && l.x == b.left;
      var r :| r in points && r.x == b.right;
      var t :| t in points && t.y == b.top;
      var u :| u in points && u.y == b.bottom;
      assert l in more && r in more && t in more && u in more;
    }
  }

  /** A set of pixels has one tightest box. */
  lemma BoxIsUnique(points: set<Point>, a: Option<Box>, b: Option<Box>)
    requires IsBox(points, a) && IsBox(points, b)
    ensures a == b
  {
    if a.Some? {
      var p :| p in points && p.x == a.value.left;
    }
    if b.Some? {
      var p :| p in points && p.x == b.value.left;
    }
  }
}
