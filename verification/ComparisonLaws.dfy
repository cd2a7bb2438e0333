/** Laws of the comparison report: accounting, uniqueness, symmetry and stride independence. */
module ComparisonLaws {
  import opened Wrappers
  import opened Capture
  import opened BufferCompare
  import opened Picture

  // ----- Accounting ------------------------------------------------------------------------

  function Entry(perCell: map<Cell, nat>, cell: Cell): nat {
    if cell in perCell then perCell[cell] else 0
  }

  /** The entries of all cells before `(row, column)`, row by row. */
  function CellsSum(c: Contract, perCell: map<Cell, nat>, row: nat, column: nat): nat
    requires ValidContract(c)
    decreases row, column
  {
    if column > 0 then CellsSum(c, perCell, row, column - 1) + Entry(perCell, Cell(row, column - 1))
    else if row > 0 then CellsSum(c, perCell, row - 1, c.columns)
    else 0
  }

  function Earlier(c: Contract, points: set<Point>, row: nat, column: nat): set<Point>
    requires ValidContract(c)
  {
    set p | p in points && IsEarlier(CellOf(c, p.x, p.y), row, column)
  }

  predicate IsEarlier(cell: Option<Cell>, row: nat, column: nat) {
    cell.Some? && (cell.value.row < row || (cell.value.row == row && cell.value.column < column))
  }

  lemma EarlierStep(c: Contract, points: set<Point>, row: nat, column: nat)
    requires ValidContract(c)
    ensures Earlier(c, points, row, column + 1) == Earlier(c, points, row, column)
        + InCell(c, points, Cell(row, column))
    ensures Earlier(c, points, row, column) !! InCell(c, points, Cell(row, column))
    ensures Earlier(c, points, row + 1, 0) == Earlier(c, points, row, c.columns)
  {
  }

  lemma {:induction false} SumCountsPoints(c: Contract, points: set<Point>, perCell: map<Cell, nat>, row: nat,
      column: nat)
    requires ValidContract(c) && IsPerCell(c, points, perCell)
    ensures CellsSum(c, perCell, row, column) == |Earlier(c, points, row, column)|
    decreases row, column
  {
    if column > 0 {
      var cell := Cell(row, column - 1);
      SumCountsPoints(c, points, perCell, row, column - 1);
      EarlierStep(c, points, row, column - 1);
      if cell !in perCell {
        AbsentCellIsEmpty(c, points, perCell, cell);
      }
    } else if row > 0 {
      SumCountsPoints(c, points, perCell, row - 1, c.columns);
      EarlierStep(c, points, row - 1, 0);
    } else {
      assert Earlier(c, points, 0, 0) == {};
    }
  }

  /** The per-cell counts and the mismatches in the padding add up to `mismatch_pixels`. */
  lemma CountsAddUp(a: ValidCapture, b: ValidCapture, t: Tally)
    requires Comparable(a, b)
    ensures var c := a.contract;
      IsTally(a, b, All(c), t) ==> t.count == CellsSum(c, t.perCell, c.rows, 0) + |Padded(c, Diff(a, b, All(c)))|
  {
    var c := a.contract;
    var diff := Diff(a, b, All(c));
    if IsTally(a, b, All(c), t) {
      SumCountsPoints(c, diff, t.perCell, c.rows, 0);
      GridAndPadding(c, diff);
    }
  }

  lemma GridAndPadding(c: Contract, points: set<Point>)
    requires ValidContract(c) && forall p :: p in points ==> InArea(c, p)
    ensures |points| == |Earlier(c, points, c.rows, 0)| + |Padded(c, points)|
  {
    var inGrid, padded := Earlier(c, points, c.rows, 0), Padded(c, points);
    forall p | p in points
      ensures p in inGrid <==> p !in padded
    {
      PixelsPartition(c, p);
    }
    assert points == inGrid + padded && inGrid !! padded;
  }

  // ----- One report per pair -----------------------------------------------------------------

  lemma MaxDeltaIsUnique(a: ValidCapture, b: ValidCapture, points: set<Point>, m: nat, n: nat)
    requires Comparable(a, b) && IsMaxDelta(a, b, points, m) && IsMaxDelta(a, b, points, n)
    ensures m == n
  {
  }

  lemma PerCellIsUnique(c: Contract, points: set<Point>, m: map<Cell, nat>, n: map<Cell, nat>)
    requires ValidContract(c) && IsPerCell(c, points, m) && IsPerCell(c, points, n)
    ensures m == n
  {
    KeysIncluded(c, points, m, n);
    KeysIncluded(c, points, n, m);
  }

  lemma KeysIncluded(c: Contract, points: set<Point>, m: map<Cell, nat>, n: map<Cell, nat>)
    requires ValidContract(c) && IsPerCell(c, points, m) && IsPerCell(c, points, n)
    ensures m.Keys <= n.Keys
  {
    forall cell | cell in m
      ensures cell in n
    {
      if cell !in n {
        AbsentCellIsEmpty(c, points, n, cell);
      }
    }
  }

  lemma FirstCellIsUnique(c: Contract, points: set<Point>, f: Option<Cell>, g: Option<Cell>)
    requires ValidContract(c) && IsFirstCell(c, points, f) && IsFirstCell(c, points, g)
    ensures f == g
  {
    if f.Some? && g.Some? {
      var p :| IsFirstPoint(c, points, p) && CellOf(c, p.x, p.y) == f;
      var q :| IsFirstPoint(c, points, q) && CellOf(c, q.x, q.y) == g;
    }
  }

  lemma TallyIsUnique(a: ValidCapture, b: ValidCapture, points: set<Point>, t: Tally, u: Tally)
    requires Comparable(a, b) && IsTally(a, b, points, t) && IsTally(a, b, points, u)
    ensures t == u
  {
    var diff := Diff(a, b, points);
    MaxDeltaIsUnique(a, b, diff, t.maxDelta, u.maxDelta);
    BoxIsUnique(diff, t.bounds, u.bounds);
    FirstCellIsUnique(a.contract, diff, t.firstCell, u.firstCell);
    PerCellIsUnique(a.contract, diff, t.perCell, u.perCell);
  }

  lemma HeatmapIsUnique(a: ValidCapture, b: ValidCapture, g: seq<nat>, h: seq<nat>)
    requires Comparable(a, b)
    requires IsHeatmap(a, b, 0, a.contract.height, g) && IsHeatmap(a, b, 0, a.contract.height, h)
    ensures g == h
  {
    var w := a.contract.width;
    forall i | 0 <= i < |g|
      ensures g[i] == h[i]
    {
      var p := Point(i % w, i / w);
      QuotientIsFloor(i, w, p.y);
      OffsetInside(i, w, a.contract.height);
      assert i == p.y * w + p.x;
      assert HeatAt(a, b, p, g) && HeatAt(a, b, p, h);
    }
  }

  lemma ClearanceIsUnique(c: Contract, ink: set<Point>, x: Option<Clearance>, y: Option<Clearance>)
    requires ClearOf(c, ink, x) && ClearOf(c, ink, y)
    ensures x == y
  {
    if x.Some? {
      var p :| p in ink && p.x == x.value.left;
    }
    if y.Some? {
      var p :| p in ink && p.x == y.value.left;
    }
  }

  lemma SameClearances(a: ValidCapture, b: ValidCapture, r: Report, s: Report)
    requires IsClearance(a, r.reference) && IsClearance(a, s.reference)
    requires IsClearance(b, r.actual) && IsClearance(b, s.actual)
    requires IsShift(r.reference, r.actual, r.clearanceDelta) && IsShift(s.reference, s.actual, s.clearanceDelta)
    ensures r.reference == s.reference && r.actual == s.actual && r.clearanceDelta == s.clearanceDelta
  {
    ClearanceIsUnique(a.contract, Ink(a, All(a.contract)), r.reference, s.reference);
    ClearanceIsUnique(b.contract, Ink(b, All(b.contract)), r.actual, s.actual);
    ShiftIsUnique(r.reference, r.actual, r.clearanceDelta, s.clearanceDelta);
  }

  lemma ShiftIsUnique(x: Option<Clearance>, y: Option<Clearance>, d: Option<Clearance>, e: Option<Clearance>)
    requires IsShift(x, y, d) && IsShift(x, y, e)
    ensures d == e
  {
  }

  lemma SameCounts(a: ValidCapture, b: ValidCapture, r: Report, s: Report)
    requires Comparable(a, b) && IsReport(a, b, r) && IsReport(a, b, s)
    ensures r.tally == s.tally && r.heatmap == s.heatmap
  {
    TallyIsUnique(a, b, All(a.contract), r.tally, s.tally);
    HeatmapIsUnique(a, b, r.heatmap, s.heatmap);
  }

  /** The report says all there is to say: two captures have exactly one. */
  lemma ReportIsUnique(a: ValidCapture, b: ValidCapture, r: Report, s: Report)
    requires Comparable(a, b)
    ensures IsReport(a, b, r) && IsReport(a, b, s) ==> r == s
  {
    if IsReport(a, b, r) && IsReport(a, b, s) {
      SameCounts(a, b, r, s);
      SameClearances(a, b, r, s);
    }
  }

  // ----- Symmetry and views --------------------------------------------------------------------

  function Negated(c: Option<Clearance>): Option<Clearance> {
    match c
    case None => None
    case Some(d) => Some(Clearance(-d.left, -d.right, -d.top, -d.bottom))
  }

  /** Two pairs of captures with the same channel differences everywhere. */
  ghost predicate SameDeltas(a: ValidCapture, b: ValidCapture, a': ValidCapture, b': ValidCapture) {
    && a.contract == b.contract == a'.contract == b'.contract
    && forall p :: InArea(a.contract, p) ==> Delta(a, b, p) == Delta(a', b', p)
  }

  lemma DiffTransfers(a: ValidCapture, b: ValidCapture, a': ValidCapture, b': ValidCapture, points: set<Point>)
    requires SameDeltas(a, b, a', b')
    ensures Diff(a, b, points) == Diff(a', b', points)
  {
    forall p | InArea(a.contract, p)
      ensures Differs(a, b, p) <==> Differs(a', b', p)
    {
      assert Delta(a, b, p) == Delta(a', b', p);
    }
  }

  lemma MaxDeltaTransfers(a: ValidCapture, b: ValidCapture, a': ValidCapture, b': ValidCapture, points: set<Point>,
      n: nat)
    requires SameDeltas(a, b, a', b') && IsMaxDelta(a, b, points, n)
    ensures IsMaxDelta(a', b', points, n)
  {
    if n > 0 {
      var p :| p in points && InArea(a.contract, p) && Delta(a, b, p) == n;
      assert Delta(a', b', p) == n;
    }
  }

  lemma TallyTransfers(a: ValidCapture, b: ValidCapture, a': ValidCapture, b': ValidCapture, points: set<Point>,
      t: Tally)
    requires SameDeltas(a, b, a', b') && IsTally(a, b, points, t)
    ensures IsTally(a', b', points, t)
  {
    DiffTransfers(a, b, a', b', points);
    MaxDeltaTransfers(a, b, a', b', Diff(a, b, points), t.maxDelta);
  }

  lemma HeatmapTransfers(a: ValidCapture, b: ValidCapture, a': ValidCapture, b': ValidCapture, heatmap: seq<nat>)
    requires SameDeltas(a, b, a', b') && IsHeatmap(a, b, 0, a.contract.height, heatmap)
    ensures IsHeatmap(a', b', 0, a'.contract.height, heatmap)
  {
    forall p | InArea(a'.contract, p) && Before(p, 0, a'.contract.height)
      ensures HeatAt(a', b', p, heatmap)
    {
      assert HeatAt(a, b, p, heatmap);
      assert Delta(a, b, p) == Delta(a', b', p);
    }
  }

  function Swapped(r: Report): Report {
    Report(r.tally, r.actual, r.reference, Negated(r.clearanceDelta), r.exact, r.heatmap)
  }

  /** Swapping the captures keeps every count and bound and negates the clearance deltas. */
  lemma SwapNegatesClearances(a: ValidCapture, b: ValidCapture, r: Report)
    requires Comparable(a, b)
    ensures IsReport(a, b, r) <==> IsReport(b, a, Swapped(r))
  {
    SwapOnce(a, b, r, Swapped(r));
    SwapTwice(r);
    SwapOnce(b, a, Swapped(r), r);
  }

  lemma SwapTwice(r: Report)
    ensures Swapped(Swapped(r)) == r
  {
  }

  lemma SwapOnce(a: ValidCapture, b: ValidCapture, r: Report, s: Report)
    requires Comparable(a, b) && s == Swapped(r)
    ensures IsReport(a, b, r) ==> IsReport(b, a, s)
  {
    if IsReport(a, b, r) {
      SwappedIsReport(a, b, r);
    }
  }

  lemma SwappedIsReport(a: ValidCapture, b: ValidCapture, r: Report)
    requires Comparable(a, b) && IsReport(a, b, r)
    ensures IsReport(b, a, Swapped(r))
  {
    DeltaIsSymmetric(a, b);
    TallyTransfers(a, b, b, a, All(a.contract), r.tally);
    HeatmapTransfers(a, b, b, a, r.heatmap);
    SamePixelsIsSymmetric(a, b);
  }

  lemma SamePixelsIsSymmetric(a: ValidCapture, b: ValidCapture)
    requires Comparable(a, b)
    ensures SamePixels(a, b) <==> SamePixels(b, a)
  {
  }

  lemma DeltaIsSymmetric(a: ValidCapture, b: ValidCapture)
    requires Comparable(a, b)
    ensures SameDeltas(a, b, b, a)
  {
  }

  /** Two captures that show the same picture, whatever their strides and the bytes past each row. */
  ghost predicate SameView(a: ValidCapture, b: ValidCapture) {
    Comparable(a, b) && SamePixels(a, b)
  }

  lemma ClearanceTransfers(a: ValidCapture, b: ValidCapture, clearance: Option<Clearance>)
    requires SameView(a, b) && IsClearance(a, clearance)
    ensures IsClearance(b, clearance)
  {
    forall p | InArea(a.contract, p)
      ensures IsInk(a, p) <==> IsInk(b, p)
    {
      assert Pixel(a, p.x, p.y) == Pixel(b, p.x, p.y);
    }
    assert Ink(a, All(a.contract)) == Ink(b, All(b.contract));
  }

  lemma ViewGivesDeltas(a: ValidCapture, a': ValidCapture, b: ValidCapture, b': ValidCapture)
    requires Comparable(a, b) && SameView(a, a') && SameView(b, b')
    ensures SameDeltas(a, b, a', b')
  {
    forall p | InArea(a.contract, p)
      ensures Delta(a, b, p) == Delta(a', b', p)
    {
      assert Pixel(a, p.x, p.y) == Pixel(a', p.x, p.y);
      assert Pixel(b, p.x, p.y) == Pixel(b', p.x, p.y);
    }
  }

  /** Two captures laid out from the same rows, whatever their strides and the bytes after each row. */
  lemma SamePictureSameView(a: ValidCapture, b: ValidCapture, rows: seq<Row>)
    requires Comparable(a, b) && LaidOut(a, rows) && LaidOut(b, rows)
    ensures SameView(a, b)
  {
    PixelsShow(a, rows);
    PixelsShow(b, rows);
  }

  /** Only the pictures decide the report: laid out with other strides and other bytes after each row they
      get the same one, and it is exact when the pictures are equal. */
  lemma ViewDecides(p: seq<Row>, a: ValidCapture, a': ValidCapture,
                    q: seq<Row>, b: ValidCapture, b': ValidCapture, r: Report)
    requires Comparable(a, b) && a.contract == a'.contract && b.contract == b'.contract
    requires LaidOut(a, p) && LaidOut(a', p) && LaidOut(b, q) && LaidOut(b', q)
    ensures IsReport(a, b, r) <==> IsReport(a', b', r)
    ensures IsReport(a, b, r) ==> (r.exact <==> p == q)
  {
    SamePictureSameView(a, a', p);
    SamePictureSameView(b, b', q);
    SamePixelsMeansSamePicture(a, b);
    if IsReport(a, b, r) {
      ViewTransfers(a, a', b, b', r);
    }
    if IsReport(a', b', r) {
      ViewTransfers(a', a, b', b, r);
    }
  }

  lemma ViewTransfers(a: ValidCapture, a': ValidCapture, b: ValidCapture, b': ValidCapture, r: Report)
    requires Comparable(a, b) && SameView(a, a') && SameView(b, b') && IsReport(a, b, r)
    ensures IsReport(a', b', r)
  {
    ViewGivesDeltas(a, a', b, b');
    TallyTransfers(a, b, a', b', All(a.contract), r.tally);
    HeatmapTransfers(a, b, a', b', r.heatmap);
    ClearanceTransfers(a, a', r.reference);
    ClearanceTransfers(b, b', r.actual);
    ExactMeansEqual(a, b, r.tally);
    ExactMeansEqual(a', b', r.tally);
  }
}
