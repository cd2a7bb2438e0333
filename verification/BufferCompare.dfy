/** Comparing two captures pixel by pixel. */
module BufferCompare {
  import opened Wrappers
  import opened Capture
  import opened Picture

  // ----- What a comparison is about ----------------------------------------------------------

  predicate Comparable(a: ValidCapture, b: ValidCapture) {
    a.contract == b.contract
  }

  predicate Differs(a: ValidCapture, b: ValidCapture, p: Point)
    requires Comparable(a, b)
  {
    InArea(a.contract, p) && Pixel(a, p.x, p.y) != Pixel(b, p.x, p.y)
  }

  function Diff(a: ValidCapture, b: ValidCapture, points: set<Point>): set<Point>
    requires Comparable(a, b)
  {
    set p | p in points && Differs(a, b, p)
  }

  function InCell(c: Contract, points: set<Point>, cell: Cell): set<Point>
    requires ValidContract(c)
  {
    set p | p in points && CellOf(c, p.x, p.y) == Some(cell)
  }

  function Padded(c: Contract, points: set<Point>): set<Point> {
    set p | p in points && InPadding(c, p)
  }

  /** The greatest difference of any channel among `points`, all of which differ. */
  ghost predicate IsMaxDelta(a: ValidCapture, b: ValidCapture, points: set<Point>, n: nat)
    requires Comparable(a, b)
  {
    && (forall p :: p in points ==> InArea(a.contract, p) && Delta(a, b, p) <= n)
    && (n > 0 ==> exists p :: p in points && InArea(a.contract, p) && Delta(a, b, p) == n)
  }

  /** One entry per cell that holds one of `points`, with their number. */
  ghost predicate IsPerCell(c: Contract, points: set<Point>, perCell: map<Cell, nat>)
    requires ValidContract(c)
  {
    && (forall cell :: cell in perCell ==> perCell[cell] == |InCell(c, points, cell)| > 0)
    && (forall p :: p in points && CellOf(c, p.x, p.y).Some? ==> CellOf(c, p.x, p.y).value in perCell)
  }

  /** The cell of the first of `points`, in raster order, that lies in the grid. */
  ghost predicate IsFirstCell(c: Contract, points: set<Point>, first: Option<Cell>)
    requires ValidContract(c)
  {
    match first
    case None => forall p :: p in points ==> CellOf(c, p.x, p.y).None?
    case Some(cell) => exists p :: IsFirstPoint(c, points, p) && CellOf(c, p.x, p.y) == first
  }

  ghost predicate IsFirstPoint(c: Contract, points: set<Point>, p: Point)
    requires ValidContract(c)
  {
    && p in points && CellOf(c, p.x, p.y).Some?
    && forall q :: q in points && q != p && CellOf(c, q.x, q.y).Some? ==> Before(p, q.x, q.y)
  }

  // ----- One more pixel ------------------------------------------------------------------------

  lemma DiffStep(a: ValidCapture, b: ValidCapture, x: int, y: int)
    requires Comparable(a, b) && InArea(a.contract, Point(x, y))
    ensures var p, before := Point(x, y), Diff(a, b, Area(a.contract, x, y));
      && p !in before
      && Diff(a, b, Area(a.contract, x + 1, y)) == before + (if Differs(a, b, p) then {p} else {})
      && forall q :: q in before ==> Before(q, x, y)
  {
    AreaStep(a.contract, x, y);
  }

  lemma MaxDeltaStep(a: ValidCapture, b: ValidCapture, points: set<Point>, n: nat, p: Point)
    requires Comparable(a, b) && IsMaxDelta(a, b, points, n) && InArea(a.contract, p)
    ensures IsMaxDelta(a, b, points + {p}, Max(n, Delta(a, b, p)))
  {
    var more := points + {p};
    assert p in more;
    if Max(n, Delta(a, b, p)) > 0 && n >= Delta(a, b, p) {
      var q :| q in points && InArea(a.contract, q) && Delta(a, b, q) == n;
      assert q in more;
    }
  }

  function Counted(perCell: map<Cell, nat>, cell: Cell): map<Cell, nat> {
    perCell[cell := (if cell in perCell then perCell[cell] else 0) + 1]
  }

  lemma InCellStep(c: Contract, points: set<Point>, p: Point, k: Cell)
    requires ValidContract(c) && p !in points
    ensures InCell(c, points + {p}, k) == InCell(c, points, k) + (if CellOf(c, p.x, p.y) == Some(k) then {p} else {})
    ensures |InCell(c, points + {p}, k)| == |InCell(c, points, k)| + (if CellOf(c, p.x, p.y) == Some(k) then 1 else 0)
  {
    assert p !in InCell(c, points, k);
  }

  lemma AbsentCellIsEmpty(c: Contract, points: set<Point>, perCell: map<Cell, nat>, k: Cell)
    requires ValidContract(c) && IsPerCell(c, points, perCell) && k !in perCell
    ensures |InCell(c, points, k)| == 0
  {
    forall p | p in InCell(c, points, k)
      ensures false
    {
    }
  }

  lemma PerCellStep(c: Contract, points: set<Point>, perCell: map<Cell, nat>, p: Point)
    requires ValidContract(c) && IsPerCell(c, points, perCell) && p !in points
    ensures var cell := CellOf(c, p.x, p.y);
      IsPerCell(c, points + {p}, if cell.Some? then Counted(perCell, cell.value) else perCell)
  {
    var cell := CellOf(c, p.x, p.y);
    var after := if cell.Some? then Counted(perCell, cell.value) else perCell;
    forall k | k in after
      ensures after[k] == |InCell(c, points + {p}, k)| > 0
    {
      InCellStep(c, points, p, k);
      if k !in perCell {
        AbsentCellIsEmpty(c, points, perCell, k);
      }
    }
  }

  lemma FirstCellStep(c: Contract, points: set<Point>, first: Option<Cell>, p: Point)
    requires ValidContract(c) && IsFirstCell(c, points, first)
    requires forall q :: q in points ==> Before(q, p.x, p.y)
    ensures IsFirstCell(c, points + {p}, if first.None? then CellOf(c, p.x, p.y) else first)
  {
    var more := points + {p};
    if first.Some? {
      var f :| IsFirstPoint(c, points, f) && CellOf(c, f.x, f.y) == first;
      assert IsFirstPoint(c, more, f);
    } else if CellOf(c, p.x, p.y).Some? {
      assert IsFirstPoint(c, more, p);
    }
  }

  // ----- The loop --------------------------------------------------------------------------------

  datatype Tally = Tally(
    count: nat,
    maxDelta: nat,
    bounds: Option<Box>,
    firstCell: Option<Cell>,
    perCell: map<Cell, nat>)

  ghost predicate IsTally(a: ValidCapture, b: ValidCapture, points: set<Point>, t: Tally)
    requires Comparable(a, b)
  {
    var diff := Diff(a, b, points);
    && t.count == |diff|
    && IsMaxDelta(a, b, diff, t.maxDelta)
    && IsBox(diff, t.bounds)
    && IsFirstCell(a.contract, diff, t.firstCell)
    && IsPerCell(a.contract, diff, t.perCell)
  }

  /** One value per pixel already visited, in raster order. */
  ghost predicate IsHeatmap(a: ValidCapture, b: ValidCapture, x: int, y: int, heatmap: seq<nat>)
    requires Comparable(a, b)
  {
    && |heatmap| == y * a.contract.width + x
    && forall p :: InArea(a.contract, p) && Before(p, x, y) ==> HeatAt(a, b, p, heatmap)
  }

  ghost predicate HeatAt(a: ValidCapture, b: ValidCapture, p: Point, heatmap: seq<nat>)
    requires Comparable(a, b) && InArea(a.contract, p)
  {
    var i := p.y * a.contract.width + p.x;
    0 <= i < |heatmap| && heatmap[i] == Delta(a, b, p)
  }

  lemma HeatmapStep(a: ValidCapture, b: ValidCapture, x: int, y: int, heatmap: seq<nat>)
    requires Comparable(a, b) && InArea(a.contract, Point(x, y)) && IsHeatmap(a, b, x, y, heatmap)
    ensures IsHeatmap(a, b, x + 1, y, heatmap + [Delta(a, b, Point(x, y))])
  {
    var more := heatmap + [Delta(a, b, Point(x, y))];
    forall p | InArea(a.contract, p) && Before(p, x + 1, y)
      ensures HeatAt(a, b, p, more)
    {
      if Before(p, x, y) {
        assert HeatAt(a, b, p, heatmap);
      } else {
        assert p == Point(x, y);
      }
    }
  }

  lemma HeatmapRow(a: ValidCapture, b: ValidCapture, y: int, heatmap: seq<nat>)
    requires Comparable(a, b) && IsHeatmap(a, b, a.contract.width, y, heatmap)
    ensures IsHeatmap(a, b, 0, y + 1, heatmap)
  {
    assert (y + 1) * a.contract.width == y * a.contract.width + a.contract.width;
  }

  /** The position `(x, y)` lies in the area or ends one of its rows. */
  predicate OnRaster(c: Contract, x: int, y: int) {
    0 <= x <= c.width && 0 <= y <= c.height && (x > 0 ==> y < c.height)
  }

  /** The values appended before `(x, y)`, row after row. */
  function Heat(a: ValidCapture, b: ValidCapture, x: int, y: int): seq<nat>
    requires Comparable(a, b) && OnRaster(a.contract, x, y)
    decreases y, x
  {
    if x > 0 then Heat(a, b, x - 1, y) + [Delta(a, b, Point(x - 1, y))]
    else if y > 0 then Heat(a, b, a.contract.width, y - 1)
    else []
  }

  lemma {:induction false} HeatIsHeatmap(a: ValidCapture, b: ValidCapture, x: int, y: int)
    requires Comparable(a, b) && OnRaster(a.contract, x, y)
    ensures IsHeatmap(a, b, x, y, Heat(a, b, x, y))
    decreases y, x
  {
    if x > 0 {
      HeatIsHeatmap(a, b, x - 1, y);
      HeatmapStep(a, b, x - 1, y, Heat(a, b, x - 1, y));
    } else if y > 0 {
      HeatIsHeatmap(a, b, a.contract.width, y - 1);
      HeatmapRow(a, b, y - 1, Heat(a, b, a.contract.width, y - 1));
    }
  }

  lemma TallyUnchanged(a: ValidCapture, b: ValidCapture, x: int, y: int, t: Tally)
    requires Comparable(a, b) && InArea(a.contract, Point(x, y)) && !Differs(a, b, Point(x, y))
    requires IsTally(a, b, Area(a.contract, x, y), t)
    ensures IsTally(a, b, Area(a.contract, x + 1, y), t)
  {
    DiffStep(a, b, x, y);
    var before := Diff(a, b, Area(a.contract, x, y));
    assert before + {} == before;
  }

  /** The five updates made for a pixel that differs. */
  function Updated(t: Tally, delta: nat, x: int, y: int, cell: Option<Cell>): Tally {
    Tally(
      t.count + 1,
      Max(t.maxDelta, delta),
      Grown(t.bounds, x, y),
      if t.firstCell.None? then cell else t.firstCell,
      if cell.Some? then Counted(t.perCell, cell.value) else t.perCell)
  }

  lemma TallyUpdated(a: ValidCapture, b: ValidCapture, x: int, y: int, t: Tally)
    requires Comparable(a, b) && InArea(a.contract, Point(x, y)) && Differs(a, b, Point(x, y))
    requires IsTally(a, b, Area(a.contract, x, y), t)
    ensures var u := Updated(t, Delta(a, b, Point(x, y)), x, y, CellOf(a.contract, x, y));
      IsTally(a, b, Area(a.contract, x + 1, y), u)
  {
    var p, before := Point(x, y), Diff(a, b, Area(a.contract, x, y));
    DiffStep(a, b, x, y);
    MaxDeltaStep(a, b, before, t.maxDelta, p);
    GrownIsBox(before, t.bounds, x, y);
    FirstCellStep(a.contract, before, t.firstCell, p);
    PerCellStep(a.contract, before, t.perCell, p);
  }

  /** Everything before `(x, y)` has been compared. */
  ghost predicate Visited(a: ValidCapture, b: ValidCapture, x: int, y: int, t: Tally, heatmap: seq<nat>)
    requires Comparable(a, b) && OnRaster(a.contract, x, y)
  {
    IsTally(a, b, Area(a.contract, x, y), t) && heatmap == Heat(a, b, x, y)
  }

  lemma NothingVisited(a: ValidCapture, b: ValidCapture)
    requires Comparable(a, b)
    ensures Visited(a, b, 0, 0, Tally(0, 0, None, None, map[]), [])
  {
    AreaEnds(a.contract);
    assert Diff(a, b, {}) == {};
  }

  lemma RowVisited(a: ValidCapture, b: ValidCapture, y: int, t: Tally, heatmap: seq<nat>)
    requires Comparable(a, b) && 0 <= y < a.contract.height && Visited(a, b, a.contract.width, y, t, heatmap)
    ensures Visited(a, b, 0, y + 1, t, heatmap)
  {
    AreaRow(a.contract, y);
  }

  /** The updates as the inner loop makes them for a pixel that differs. */
  method CountMismatch(c: Contract, t: Tally, delta: nat, x: int, y: int) returns (u: Tally)
    requires ValidContract(c)
    ensures u == Updated(t, delta, x, y, CellOf(c, x, y))
  {
    u := t.(count := t.count + 1, maxDelta := Max(t.maxDelta, delta), bounds := Grown(t.bounds, x, y));
    var column := (x - c.padding.left) / c.cellWidth;
    var row := (y - c.padding.top) / c.cellHeight;
    if 0 <= column < c.columns && 0 <= row < c.rows {
      var key := Cell(row, column);
      var earlier := if key in u.perCell then u.perCell[key] else 0;
      u := u.(perCell := u.perCell[key := earlier + 1]);
      if u.firstCell.None? {
        u := u.(firstCell := Some(key));
      }
    }
  }

  /** What the inner loop keeps for a pixel, whether or not it differs. */
  lemma PixelVisited(a: ValidCapture, b: ValidCapture, x: int, y: int, t: Tally, heatmap: seq<nat>)
    requires Comparable(a, b) && InArea(a.contract, Point(x, y)) && Visited(a, b, x, y, t, heatmap)
    ensures var delta := Delta(a, b, Point(x, y));
      var u := if delta == 0 then t else Updated(t, delta, x, y, CellOf(a.contract, x, y));
      Visited(a, b, x + 1, y, u, heatmap + [delta])
  {
    if Differs(a, b, Point(x, y)) {
      TallyUpdated(a, b, x, y, t);
    } else {
      TallyUnchanged(a, b, x, y, t);
    }
  }

  lemma AllVisited(a: ValidCapture, b: ValidCapture, t: Tally, heatmap: seq<nat>)
    requires Comparable(a, b) && Visited(a, b, 0, a.contract.height, t, heatmap)
    ensures IsTally(a, b, All(a.contract), t) && IsHeatmap(a, b, 0, a.contract.height, heatmap)
  {
    AreaEnds(a.contract);
    HeatIsHeatmap(a, b, 0, a.contract.height);
  }

  method CompareLoop(a: ValidCapture, b: ValidCapture) returns (t: Tally, heatmap: seq<nat>)
    requires Comparable(a, b)
    ensures IsTally(a, b, All(a.contract), t)
    ensures IsHeatmap(a, b, 0, a.contract.height, heatmap)
  {
    t, heatmap := Tally(0, 0, None, None, map[]), [];
    NothingVisited(a, b);
    for y := 0 to a.contract.height
      invariant Visited(a, b, 0, y, t, heatmap)
    {
      for x := 0 to a.contract.width
        invariant Visited(a, b, x, y, t, heatmap)
      {
        PixelVisited(a, b, x, y, t, heatmap);
        var delta := ChannelDelta(Pixel(a, x, y), Pixel(b, x, y));
        if delta != 0 {
          t := CountMismatch(a.contract, t, delta, x, y);
        }
        heatmap := heatmap + [delta];
      }
      RowVisited(a, b, y, t, heatmap);
    }
    AllVisited(a, b, t, heatmap);
  }

  // ----- Ink clearances --------------------------------------------------------------------------

  predicate IsInk(b: ValidCapture, p: Point) {
    InArea(b.contract, p) && Pixel(b, p.x, p.y) != b.contract.background
  }

  function Ink(b: ValidCapture, points: set<Point>): set<Point> {
    set p | p in points && IsInk(b, p)
  }

  datatype Clearance = Clearance(left: int, right: int, top: int, bottom: int)

  function ClearanceOf(c: Contract, ink: Option<Box>): Option<Clearance> {
    match ink
    case None => None
    case Some(b) => Some(Clearance(b.left, c.width - 1 - b.right, b.top, c.height - 1 - b.bottom))
  }

  /** No ink, or the number of columns or rows between each edge and the ink nearest to it. */
  ghost predicate IsClearance(b: ValidCapture, clearance: Option<Clearance>) {
    ClearOf(b.contract, Ink(b, All(b.contract)), clearance)
  }

  ghost predicate ClearOf(c: Contract, ink: set<Point>, clearance: Option<Clearance>) {
    match clearance
    case None => ink == {}
    case Some(k) =>
      && (forall p :: p in ink ==>
            k.left <= p.x && k.right < c.width - p.x && k.top <= p.y && k.bottom < c.height - p.y)
      && (exists p :: p in ink && p.x == k.left)
      && (exists p :: p in ink && p.x + 1 + k.right == c.width)
      && (exists p :: p in ink && p.y == k.top)
      && (exists p :: p in ink && p.y + 1 + k.bottom == c.height)
  }

  lemma InkAdds(b: ValidCapture, points: set<Point>, p: Point)
    ensures Ink(b, points + {p}) == if IsInk(b, p) then Ink(b, points) + {p} else Ink(b, points)
  {
  }

  /** `box` is the tightest box around the ink before the raster position. */
  ghost predicate InkBox(b: ValidCapture, x: int, y: int, box: Option<Box>) {
    IsBox(Ink(b, Area(b.contract, x, y)), box)
  }

  lemma InkStart(b: ValidCapture)
    ensures InkBox(b, 0, 0, None)
  {
    AreaEnds(b.contract);
    assert Ink(b, {}) == {};
  }

  lemma InkStep(b: ValidCapture, x: int, y: int, box: Option<Box>)
    requires InArea(b.contract, Point(x, y)) && InkBox(b, x, y, box)
    ensures InkBox(b, x + 1, y, if IsInk(b, Point(x, y)) then Grown(box, x, y) else box)
  {
    AreaStep(b.contract, x, y);
    InkAdds(b, Area(b.contract, x, y), Point(x, y));
    GrownIsBox(Ink(b, Area(b.contract, x, y)), box, x, y);
  }

  lemma InkRow(b: ValidCapture, y: int, box: Option<Box>)
    requires 0 <= y < b.contract.height && InkBox(b, b.contract.width, y, box)
    ensures InkBox(b, 0, y + 1, box)
  {
    AreaRow(b.contract, y);
  }

  lemma InkEnd(b: ValidCapture, box: Option<Box>)
    requires InkBox(b, 0, b.contract.height, box)
    ensures IsClearance(b, ClearanceOf(b.contract, box))
  {
    AreaEnds(b.contract);
    var c, ink := b.contract, Ink(b, All(b.contract));
    if box.Some? {
      var p :| p in ink && p.x == box.value.right;
      var q :| q in ink && q.y == box.value.bottom;
      var k := ClearanceOf(c, box).value;
      assert p.x + 1 + k.right == c.width && q.y + 1 + k.bottom == c.height;
    }
  }

  method InkClearances(b: ValidCapture) returns (clearance: Option<Clearance>)
    ensures IsClearance(b, clearance)
  {
    var c := b.contract;
    var ink: Option<Box> := None;
    InkStart(b);
    for y := 0 to c.height
      invariant InkBox(b, 0, y, ink)
    {
      for x := 0 to c.width
        invariant InkBox(b, x, y, ink)
      {
        InkStep(b, x, y, ink);
        if Pixel(b, x, y) == c.background {
          continue;
        }
        ink := Grown(ink, x, y);
      }
      InkRow(b, y, ink);
    }
    InkEnd(b, ink);
    clearance := ClearanceOf(c, ink);
  }

  // ----- The report --------------------------------------------------------------------------------

  datatype Report = Report(
    tally: Tally,
    reference: Option<Clearance>,
    actual: Option<Clearance>,
    clearanceDelta: Option<Clearance>,
    exact: bool,
    heatmap: seq<nat>)

  function Minus(actual: Option<Clearance>, reference: Option<Clearance>): Option<Clearance> {
    if actual.None? || reference.None? then None
    else
      var a, r := actual.value, reference.value;
      Some(Clearance(a.left - r.left, a.right - r.right, a.top - r.top, a.bottom - r.bottom))
  }

  /** From the reference to the actual capture, edge by edge, where both show ink. */
  predicate IsShift(reference: Option<Clearance>, actual: Option<Clearance>, shift: Option<Clearance>) {
    && (shift.Some? <==> reference.Some? && actual.Some?)
    && (shift.Some? ==>
          && reference.value.left + shift.value.left == actual.value.left
          && reference.value.right + shift.value.right == actual.value.right
          && reference.value.top + shift.value.top == actual.value.top
          && reference.value.bottom + shift.value.bottom == actual.value.bottom)
  }

  ghost predicate SamePixels(a: ValidCapture, b: ValidCapture)
    requires Comparable(a, b)
  {
    forall x, y :: InArea(a.contract, Point(x, y)) ==> Pixel(a, x, y) == Pixel(b, x, y)
  }

  ghost predicate IsReport(a: ValidCapture, b: ValidCapture, r: Report)
    requires Comparable(a, b)
  {
    && IsTally(a, b, All(a.contract), r.tally)
    && IsHeatmap(a, b, 0, a.contract.height, r.heatmap)
    && IsClearance(a, r.reference) && IsClearance(b, r.actual)
    && IsShift(r.reference, r.actual, r.clearanceDelta)
    && (r.exact <==> SamePixels(a, b))
  }

  /** Captures that can be compared are reported exact when they show the same picture. */
  method Compare(a: ValidCapture, b: ValidCapture) returns (r: Result<Report, string>)
    ensures r.Success? <==> Comparable(a, b)
    ensures r.Success? ==> IsReport(a, b, r.value)
    ensures r.Success? ==>
      forall p, q :: LaidOut(a, p) && LaidOut(b, q) ==> (r.value.exact <==> p == q)
  {
    if a.contract != b.contract {
      return Failure("capture contracts differ");
    }
    var tally, heatmap := CompareLoop(a, b);
    var reference := InkClearances(a);
    var actual := InkClearances(b);
    ExactMeansEqual(a, b, tally);
    SamePixelsMeansSamePicture(a, b);
    return Success(Report(tally, reference, actual, Minus(actual, reference), tally.count == 0, heatmap));
  }

  lemma SamePixelsMeansSamePicture(a: ValidCapture, b: ValidCapture)
    requires Comparable(a, b)
    ensures forall p, q :: LaidOut(a, p) && LaidOut(b, q) ==> (SamePixels(a, b) <==> p == q)
  {
    forall p, q | LaidOut(a, p) && LaidOut(b, q)
      ensures SamePixels(a, b) <==> p == q
    {
      PixelsShow(a, p);
      PixelsShow(b, q);
      if SamePixels(a, b) {
        SameRows(p, q, a.contract.width, a.contract.height);
      }
    }
  }

  lemma ExactMeansEqual(a: ValidCapture, b: ValidCapture, t: Tally)
    requires Comparable(a, b) && IsTally(a, b, All(a.contract), t)
    ensures t.count == 0 <==> SamePixels(a, b)
  {
    var diff := Diff(a, b, All(a.contract));
    if t.count == 0 {
      forall x, y | InArea(a.contract, Point(x, y))
        ensures Pixel(a, x, y) == Pixel(b, x, y)
      {
        assert Point(x, y) !in diff;
      }
    } else {
      assert (forall p :: p !in diff) ==> diff == {};
      var p :| p in diff;
      assert Differs(a, b, p);
    }
  }
}
