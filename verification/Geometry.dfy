/** Pane rectangles: floor halving, the tiling it gives and the validators that look at it. */
module Geometry {
  import opened Basics
  import opened Wrappers
  import opened Topology

  datatype Rect = Rect(x: int, y: int, width: int, height: int)

  const SINGLE := Pane("pane-0")
  const TWO_COLUMNS := Columns("pane-0", "pane-1")
  const FOUR_GRID := Grid("pane-0", "pane-1", "pane-2", "pane-3")

  function TopologyNamed(name: string): Option<Node> {
    if name == "single" then Some(SINGLE)
    else if name == "two-columns" then Some(TWO_COLUMNS)
    else if name == "four-grid" then Some(FOUR_GRID)
    else None
  }

  /** The three topologies of the repository, all of them valid and split in equal parts. */
  lemma NamedTopologies(name: string)
    ensures TopologyNamed("single") == Some(Pane("pane-0"))
    ensures TopologyNamed("two-columns") == Some(Split("left-right", Pane("pane-0"), Pane("pane-1"), 500))
    ensures TopologyNamed("four-grid") ==
      Some(Split("left-right", Split("top-bottom", Pane("pane-0"), Pane("pane-1"), 500),
                               Split("top-bottom", Pane("pane-2"), Pane("pane-3"), 500), 500))
    ensures TopologyNamed(name).Some? ==> ValidTopology(TopologyNamed(name).value)
  {
    PaneNamesDiffer();
    RowsNames("pane-0", "pane-1");
    GridNames("pane-0", "pane-1", "pane-2", "pane-3");
    assert PaneNames(TWO_COLUMNS) == ["pane-0", "pane-1"] && PaneNames(SINGLE) == ["pane-0"];
    NameIsValid('0');
    NameIsValid('1');
    NameIsValid('2');
    NameIsValid('3');
  }

  lemma NameIsValid(c: char)
    requires '0' <= c <= '9'
    ensures ValidName("pane-" + [c])
  {
  }

  // ----- Floor halving of any tree -----------------------------------------------------------

  function FirstHalf(direction: string, r: Rect): Rect {
    if direction == "left-right" then Rect(r.x, r.y, r.width / 2, r.height)
    else Rect(r.x, r.y, r.width, r.height / 2)
  }

  function SecondHalf(direction: string, r: Rect): Rect {
    if direction == "left-right" then Rect(r.x + r.width / 2, r.y, r.width - r.width / 2, r.height)
    else Rect(r.x, r.y + r.height / 2, r.width, r.height - r.height / 2)
  }

  /** The pane rectangles of a tree, the later of two equal names winning. */
  function Halve(node: Node, r: Rect): map<string, Rect> {
    match node
    case Pane(name) => map[name := r]
    case Split(direction, first, second, _) =>
      Halve(first, FirstHalf(direction, r)) + Halve(second, SecondHalf(direction, r))
  }

  predicate Contains(r: Rect, px: int, py: int) {
    r.x <= px < r.x + r.width && r.y <= py < r.y + r.height
  }

  lemma HalveNames(node: Node, r: Rect)
    ensures Halve(node, r).Keys == Names(node)
  {
  }

  /** The pane a cell of the area falls into. */
  function PaneAt(node: Node, r: Rect, px: int, py: int): string {
    match node
    case Pane(name) => name
    case Split(direction, first, second, _) =>
      if Contains(FirstHalf(direction, r), px, py) then PaneAt(first, FirstHalf(direction, r), px, py)
      else PaneAt(second, SecondHalf(direction, r), px, py)
  }

  lemma HalvesTile(direction: string, r: Rect, px: int, py: int)
    requires r.width >= 0 && r.height >= 0
    ensures Contains(r, px, py) <==>
            Contains(FirstHalf(direction, r), px, py) || Contains(SecondHalf(direction, r), px, py)
    ensures !(Contains(FirstHalf(direction, r), px, py) && Contains(SecondHalf(direction, r), px, py))
  {
  }

  /** Every cell of the area lies in exactly one pane, and no pane reaches outside it, for every tree
      with distinct names, every origin and every size. */
  lemma {:induction false} HalvingTiles(node: Node, r: Rect, px: int, py: int)
    requires Distinct(node) && r.width >= 0 && r.height >= 0
    ensures Halve(node, r).Keys == Names(node)
    ensures Contains(r, px, py) ==>
              forall name :: name in Names(node) ==>
                  (Contains(Halve(node, r)[name], px, py) <==> name == PaneAt(node, r, px, py))
    ensures Contains(r, px, py) ==> PaneAt(node, r, px, py) in Names(node)
    ensures !Contains(r, px, py) ==> forall name :: name in Names(node) ==> !Contains(Halve(node, r)[name], px, py)
  {
    HalveNames(node, r);
    match node
    case Pane(_) =>
    case Split(direction, first, second, _) =>
      var a, b := FirstHalf(direction, r), SecondHalf(direction, r);
      HalvesTile(direction, r, px, py);
      HalvingTiles(first, a, px, py);
      HalvingTiles(second, b, px, py);
  }

  // ----- The three named topologies ------------------------------------------------------------

  function Rectangles(name: string, x: int, y: int, width: int, height: int): Result<map<string, Rect>, string> {
    if width <= 0 || height <= 0 then Failure("aggregate geometry must be positive")
    else if name == "single" then Success(map["pane-0" := Rect(x, y, width, height)])
    else if name == "two-columns" then
      var first := width / 2;
      Success(map["pane-0" := Rect(x, y, first, height), "pane-1" := Rect(x + first, y, width - first, height)])
    else if name == "four-grid" then
      var firstWidth, firstHeight := width / 2, height / 2;
      Success(map[
        "pane-0" := Rect(x, y, firstWidth, firstHeight),
        "pane-1" := Rect(x, y + firstHeight, firstWidth, height - firstHeight),
        "pane-2" := Rect(x + firstWidth, y, width - firstWidth, firstHeight),
        "pane-3" := Rect(x + firstWidth, y + firstHeight, width - firstWidth, height - firstHeight)])
    else Failure("unsupported topology")
  }

  lemma PaneNamesDiffer()
    ensures FourDiffer("pane-0", "pane-1", "pane-2", "pane-3")
  {
    var a, b, c, d := "pane-0", "pane-1", "pane-2", "pane-3";
    assert a[5] == '0' && b[5] == '1' && c[5] == '2' && d[5] == '3';
  }

  /** The table of rectangles is floor halving of the topology of that name. */
  lemma RectanglesHalve(name: string, x: int, y: int, width: int, height: int)
    ensures Rectangles(name, x, y, width, height).Success? <==> width > 0 && height > 0 && TopologyNamed(name).Some?
    ensures Rectangles(name, x, y, width, height).Success? ==>
              Rectangles(name, x, y, width, height).value == Halve(TopologyNamed(name).value, Rect(x, y, width, height))
  {
    PaneNamesDiffer();
    var r := Rect(x, y, width, height);
    if name == "two-columns" {
      ColumnsHalve("pane-0", "pane-1", r);
    } else if name == "four-grid" {
      GridHalves("pane-0", "pane-1", "pane-2", "pane-3", r);
    }
  }

  function Columns(p: string, q: string): Node {
    Split("left-right", Pane(p), Pane(q), 500)
  }

  function Rows(p: string, q: string): Node {
    Split("top-bottom", Pane(p), Pane(q), 500)
  }

  function Grid(p0: string, p1: string, p2: string, p3: string): Node {
    Split("left-right", Rows(p0, p1), Rows(p2, p3), 500)
  }

  lemma ColumnsHalve(p: string, q: string, r: Rect)
    requires p != q
    ensures Halve(Columns(p, q), r) ==
            map[p := Rect(r.x, r.y, r.width / 2, r.height),
                q := Rect(r.x + r.width / 2, r.y, r.width - r.width / 2, r.height)]
  {
    assert Halve(Pane(p), FirstHalf("left-right", r)) == map[p := FirstHalf("left-right", r)];
    assert Halve(Pane(q), SecondHalf("left-right", r)) == map[q := SecondHalf("left-right", r)];
  }

  function TwoRows(p: string, q: string, r: Rect): map<string, Rect> {
    map[p := Rect(r.x, r.y, r.width, r.height / 2),
        q := Rect(r.x, r.y + r.height / 2, r.width, r.height - r.height / 2)]
  }

  lemma RowsHalve(p: string, q: string, r: Rect)
    requires p != q
    ensures Halve(Rows(p, q), r) == TwoRows(p, q, r)
  {
    assert Halve(Pane(p), FirstHalf("top-bottom", r)) == map[p := FirstHalf("top-bottom", r)];
    assert Halve(Pane(q), SecondHalf("top-bottom", r)) == map[q := SecondHalf("top-bottom", r)];
  }

  predicate FourDiffer(p0: string, p1: string, p2: string, p3: string) {
    p0 != p1 && p0 != p2 && p0 != p3 && p1 != p2 && p1 != p3 && p2 != p3
  }

  function Quarters(p0: string, p1: string, p2: string, p3: string, r: Rect): map<string, Rect> {
    var w, h := r.width / 2, r.height / 2;
    map[p0 := Rect(r.x, r.y, w, h), p1 := Rect(r.x, r.y + h, w, r.height - h),
        p2 := Rect(r.x + w, r.y, r.width - w, h), p3 := Rect(r.x + w, r.y + h, r.width - w, r.height - h)]
  }

  /** The rows of both columns are the quarters. */
  lemma RowsAreQuarters(p0: string, p1: string, p2: string, p3: string, r: Rect, left: Rect, right: Rect)
    requires FourDiffer(p0, p1, p2, p3)
    requires left == Rect(r.x, r.y, r.width / 2, r.height)
    requires right == Rect(r.x + r.width / 2, r.y, r.width - r.width / 2, r.height)
    ensures TwoRows(p0, p1, left) + TwoRows(p2, p3, right) == Quarters(p0, p1, p2, p3, r)
  {
  }

  lemma {:induction false} ColumnsOf(first: Node, second: Node, r: Rect, left: Rect, right: Rect)
    requires left == FirstHalf("left-right", r) && right == SecondHalf("left-right", r)
    ensures Halve(Split("left-right", first, second, 500), r) == Halve(first, left) + Halve(second, right)
  {
  }

  lemma {:induction false} GridHalves(p0: string, p1: string, p2: string, p3: string, r: Rect)
    requires FourDiffer(p0, p1, p2, p3)
    ensures Halve(Grid(p0, p1, p2, p3), r) == Quarters(p0, p1, p2, p3, r)
  {
    var left, right := FirstHalf("left-right", r), SecondHalf("left-right", r);
    ColumnsOf(Rows(p0, p1), Rows(p2, p3), r, left, right);
    RowsHalve(p0, p1, left);
    RowsHalve(p2, p3, right);
    RowsAreQuarters(p0, p1, p2, p3, r, left, right);
  }

  // ----- Ratios ----------------------------------------------------------------------------------

  /** `round(n / d)` with ties to the even neighbour, over exact quotients. */
  function RoundHalfEven(n: int, d: int): int
    requires d > 0
  {
    var q, r := n / d, n % d;
    if 2 * r < d then q else if 2 * r > d then q + 1 else if q % 2 == 0 then q else q + 1
  }

  function Ceiling(n: int, d: int): int
    requires d > 0
  {
    -((-n) / d)
  }

  lemma RoundIsNear(n: int, d: int)
    requires d > 0
    ensures -d <= 2 * (RoundHalfEven(n, d) * d - n) <= d
  {
    var q, r := n / d, n % d;
    assert n == q * d + r;
    assert (q + 1) * d == q * d + d;
  }

  lemma CeilingIsNear(n: int, d: int)
    requires d > 0
    ensures n <= Ceiling(n, d) * d < n + d
  {
    var q, r := (-n) / d, (-n) % d;
    assert -n == q * d + r;
    assert (-q) * d == -(q * d);
  }

  /** Division by zero when the parts cancel out. */
  function EqualRatio(first: int, second: int): Result<(bool, int), string> {
    var total := first + second;
    if total == 0 then Failure("division by zero")
    else if total < 0 then
      var ratio := RoundHalfEven(-first * 1000, -total);
      Success((Gap(ratio, 500) <= Ceiling(-1000, -total), ratio))
    else
      var ratio := RoundHalfEven(first * 1000, total);
      Success((Gap(ratio, 500) <= Ceiling(1000, total), ratio))
  }

  predicate Accepts(first: int, second: int) {
    EqualRatio(first, second).Success? && EqualRatio(first, second).value.0
  }

  /** A difference of one cell is always accepted. */
  lemma OneCellIsAccepted(first: int, second: int)
    requires first + second > 0 && Gap(first, second) <= 1
    ensures Accepts(first, second)
  {
    var t, n := first + second, first * 1000;
    RoundIsNear(n, t);
    CeilingIsNear(1000, t);
    WithinTolerance(t, n, first - second, RoundHalfEven(n, t), Ceiling(1000, t));
  }

  lemma WithinTolerance(t: int, n: int, e: int, ratio: int, tolerance: int)
    requires t > 0 && -1 <= e <= 1 && 2 * n == 1000 * t + 1000 * e
    requires -t <= 2 * (ratio * t - n) <= t && 1000 <= tolerance * t
    ensures Gap(ratio, 500) <= tolerance
  {
    var gap := ratio - 500;
    assert gap * t == ratio * t - 500 * t;
    assert (tolerance + 1) * t == tolerance * t + t;
    if gap > tolerance {
      ScaledUp(tolerance + 1, gap, t);
    }
    assert (-gap) * t == -(gap * t);
    if -gap > tolerance {
      ScaledUp(tolerance + 1, -gap, t);
    }
  }

  /** Acceptance bounds the difference of the parts. */
  lemma AcceptanceBoundsGap(first: int, second: int)
    requires first + second > 0
    ensures Accepts(first, second) ==> 1000 * Gap(first, second) < 2000 + 3 * (first + second)
  {
    if Accepts(first, second) {
      var t, n := first + second, first * 1000;
      var ratio, tolerance := RoundHalfEven(n, t), Ceiling(1000, t);
      RoundIsNear(n, t);
      CeilingIsNear(1000, t);
      Distances(ratio, tolerance, t);
      GapFromProducts(first, second, ratio * t, tolerance * t);
    }
  }

  lemma Distances(ratio: int, tolerance: int, t: int)
    requires t > 0 && Gap(ratio, 500) <= tolerance
    ensures -(tolerance * t) <= ratio * t - 500 * t <= tolerance * t
  {
    ScaledUp(ratio - 500, tolerance, t);
    ScaledUp(500 - ratio, tolerance, t);
    assert (ratio - 500) * t == ratio * t - 500 * t;
    assert (500 - ratio) * t == 500 * t - ratio * t;
  }

  lemma GapFromProducts(first: int, second: int, ratio: int, tolerance: int)
    requires first + second > 0
    requires var t := first + second;
      -t <= 2 * (ratio - first * 1000) <= t && tolerance < 1000 + t && -tolerance <= ratio - 500 * t <= tolerance
    ensures 1000 * Gap(first, second) < 2000 + 3 * (first + second)
  {
  }

  /** Rounding passes no boundary: which quotients round to at most, and to at least, `m`. */
  lemma RoundAtMost(n: int, d: int, m: int)
    requires d > 0
    ensures RoundHalfEven(n, d) <= m <==> 2 * n < (2 * m + 1) * d || (2 * n == (2 * m + 1) * d && m % 2 == 0)
  {
    var q, r := n / d, n % d;
    assert n == q * d + r;
    assert (2 * m + 1) * d == 2 * (m * d) + d;
    if q < m {
      ScaledUp(q + 1, m, d);
      assert (q + 1) * d == q * d + d;
    } else if q > m {
      ScaledUp(m + 1, q, d);
      assert (m + 1) * d == m * d + d;
    }
  }

  lemma RoundAtLeast(n: int, d: int, m: int)
    requires d > 0
    ensures RoundHalfEven(n, d) >= m <==> 2 * n > (2 * m - 1) * d || (2 * n == (2 * m - 1) * d && m % 2 == 0)
  {
    var q, r := n / d, n % d;
    assert n == q * d + r;
    assert (2 * m - 1) * d == 2 * (m * d) - d;
    assert (q + 1) * d == q * d + d;
    if q + 1 < m {
      ScaledUp(q + 2, m, d);
      assert (q + 2) * d == q * d + 2 * d;
    } else if q >= m {
      ScaledUp(m, q, d);
    }
  }

  /** `k` is the least number of thousandths that make up a cell. */
  predicate CellIs(total: int, k: int) {
    (k - 1) * total < 1000 <= k * total
  }

  /** The parts differ by at most `k` thousandths of the whole and one half of them on each side; exactly that
      much is still equal when `k` is even. */
  predicate Within(first: int, second: int, k: int) {
    var gap := if first < second then second - first else first - second;
    || 1000 * gap < (2 * k + 1) * (first + second)
    || (1000 * gap == (2 * k + 1) * (first + second) && k % 2 == 0)
  }

  ghost predicate Balanced(first: int, second: int) {
    exists k :: CellIs(first + second, k) && Within(first, second, k)
  }

  lemma CellIsCeiling(total: int, k: int)
    requires total > 0
    ensures CellIs(total, k) <==> k == Ceiling(1000, total)
  {
    var c := Ceiling(1000, total);
    CeilingIsNear(1000, total);
    assert (c - 1) * total == c * total - total;
    if CellIs(total, k) {
      if k < c {
        ScaledUp(k, c - 1, total);
      } else if k > c {
        ScaledUp(c, k - 1, total);
      }
    }
  }

  lemma AcceptsWithin(first: int, second: int, k: int)
    requires first + second > 0 && k == Ceiling(1000, first + second)
    ensures Accepts(first, second) <==> Within(first, second, k)
  {
    var t, n := first + second, first * 1000;
    RoundAtMost(n, t, 500 + k);
    RoundAtLeast(n, t, 500 - k);
    BoundsSpread(t, k);
    CeilingIsNear(1000, t);
    CellsArePositive(t, k);
    ScaledUp(1, 2 * k + 1, t);
    BothBounds(first, second, k, RoundHalfEven(n, t), (2 * k + 1) * t);
  }

  lemma BoundsSpread(t: int, k: int)
    ensures (2 * (500 + k) + 1) * t == 1000 * t + (2 * k + 1) * t
    ensures (2 * (500 - k) - 1) * t == 1000 * t - (2 * k + 1) * t
  {
  }

  /** The two bounds on the ratio are one on the difference; `spread` is the product in them. */
  lemma BothBounds(first: int, second: int, k: int, ratio: int, spread: int)
    requires first + second > 0 && spread > 0
    requires ratio <= 500 + k <==>
      || 2000 * first < 1000 * (first + second) + spread
      || (2000 * first == 1000 * (first + second) + spread && (500 + k) % 2 == 0)
    requires ratio >= 500 - k <==>
      || 2000 * first > 1000 * (first + second) - spread
      || (2000 * first == 1000 * (first + second) - spread && (500 - k) % 2 == 0)
    ensures Gap(ratio, 500) <= k <==>
      var gap := if first < second then second - first else first - second;
      1000 * gap < spread || (1000 * gap == spread && k % 2 == 0)
  {
  }

  lemma CellsArePositive(t: int, k: int)
    requires t > 0 && 1000 <= k * t
    ensures k > 0
  {
    if k <= 0 {
      ScaledUp(k, 0, t);
    }
  }

  /** Exactly which parts of a positive whole are taken for equal. */
  lemma AcceptsIffBalanced(first: int, second: int)
    requires first + second > 0
    ensures Accepts(first, second) <==> Balanced(first, second)
  {
    var c := Ceiling(1000, first + second);
    AcceptsWithin(first, second, c);
    CellIsCeiling(first + second, c);
    if Balanced(first, second) {
      var k :| CellIs(first + second, k) && Within(first, second, k);
      CellIsCeiling(first + second, k);
    }
  }

  /** Of a negative whole, which no measured panes have, only more than 1000 cells in nearly equal parts are. */
  lemma AcceptsNegative(first: int, second: int)
    requires first + second < 0
    ensures Accepts(first, second) <==> first + second < -1000 && 1000 * Gap(first, second) <= -(first + second)
  {
    var t, n := -(first + second), -first * 1000;
    var k := Ceiling(-1000, t);
    RoundAtMost(n, t, 500);
    RoundAtLeast(n, t, 500);
    CeilingIsNear(-1000, t);
    if k >= 0 {
      ScaledUp(0, k, t);
      if k > 0 { ScaledUp(1, k, t); }
    } else {
      ScaledUp(k, -1, t);
    }
  }

  // ----- Validators --------------------------------------------------------------------------------

  datatype Measured = Measured(name: string, columns: int, rows: int, position: Option<(int, int)>)

  predicate Positioned(panes: seq<Measured>) {
    forall i :: 0 <= i < |panes| ==> panes[i].position.Some?
  }

  /** `validate_topology_geometry`: identities, nonempty panes and, when positions are known, orientation. */
  predicate ValidGeometry(name: string, node: Node, panes: seq<Measured>) {
    && |panes| == |PaneNames(node)|
    && (forall i :: 0 <= i < |panes| ==> panes[i].name == PaneNames(node)[i])
    && (forall i :: 0 <= i < |panes| ==> panes[i].columns > 0 && panes[i].rows > 0)
    && (name != "single" && Positioned(panes) ==> Oriented(name, panes))
  }

  predicate Oriented(name: string, panes: seq<Measured>)
    requires Positioned(panes)
  {
    if name == "two-columns" then
      && |panes| == 2
      && var left, right := panes[0].position.value, panes[1].position.value;
         left.0 < right.0 && left.1 == right.1
    else
      && |panes| == 4
      && var topLeft, bottomLeft := panes[0].position.value, panes[1].position.value;
         var topRight, bottomRight := panes[2].position.value, panes[3].position.value;
         && topLeft.0 == bottomLeft.0 < topRight.0 == bottomRight.0
         && topLeft.1 == topRight.1 && topLeft.1 < bottomLeft.1 && topRight.1 < bottomRight.1
  }

  /** `validate_equal_topology_geometry` */
  predicate EqualGeometry(name: string, panes: seq<Measured>) {
    if name == "single" then true
    else if name == "two-columns" then
      |panes| == 2 && Accepts(panes[0].columns, panes[1].columns) && panes[0].rows == panes[1].rows
    else
      && |panes| == 4
      && Gap(panes[0].columns, panes[1].columns) <= 1 && Gap(panes[2].columns, panes[3].columns) <= 1
      && Gap(panes[0].rows, panes[2].rows) <= 1 && Gap(panes[1].rows, panes[3].rows) <= 1
      && Accepts(panes[0].columns, panes[2].columns)
      && Accepts(panes[0].rows, panes[1].rows) && Accepts(panes[2].rows, panes[3].rows)
  }

  function NamesOf(panes: seq<Measured>): seq<string> {
    seq(|panes|, i requires 0 <= i < |panes| => panes[i].name)
  }

  /** What the first validator accepts: the panes of the topology in its order, none of them empty, and where
      their positions are known and there is more than one of them, in the right places. */
  lemma ValidGeometryMeans(name: string, node: Node, panes: seq<Measured>)
    ensures ValidGeometry(name, node, panes) <==>
      && NamesOf(panes) == PaneNames(node)
      && (forall pane :: pane in panes ==> pane.columns > 0 && pane.rows > 0)
      && (name == "single" || (exists pane :: pane in panes && pane.position.None?)
          || (Positioned(panes) && Oriented(name, panes)))
  {
    if Positioned(panes) {
      assert forall pane :: pane in panes ==> pane.position.Some?;
    }
    if NamesOf(panes) == PaneNames(node) {
      assert forall i :: 0 <= i < |panes| ==> panes[i].name == NamesOf(panes)[i];
    }
  }

  predicate At(pane: Measured, x: int, y: int) {
    pane.position == Some((x, y))
  }

  /** The second column starts further right, at the same height. */
  lemma OrientedColumns(p: Measured, q: Measured)
    requires Positioned([p, q])
    ensures Oriented("two-columns", [p, q]) <==> exists x, x', y :: x < x' && At(p, x, y) && At(q, x', y)
  {
    var panes := [p, q];
    assert panes[0].position.Some? && panes[1].position.Some?;
    var a, b := p.position.value, q.position.value;
    if Oriented("two-columns", panes) {
      assert At(p, a.0, a.1) && At(q, b.0, a.1);
    }
  }

  /** Two columns that start at the same height, in each of which the second pane is below the first; the lower
      panes need not be at the same height. */
  lemma OrientedGrid(p: Measured, q: Measured, r: Measured, s: Measured)
    requires Positioned([p, q, r, s])
    ensures Oriented("four-grid", [p, q, r, s]) <==>
      exists x, x', y, y', y'' ::
        x < x' && y < y' && y < y'' && At(p, x, y) && At(q, x, y') && At(r, x', y) && At(s, x', y'')
  {
    var panes := [p, q, r, s];
    assert panes[0].position.Some? && panes[1].position.Some? && panes[2].position.Some? && panes[3].position.Some?;
    var a, b, c, d := p.position.value, q.position.value, r.position.value, s.position.value;
    if Oriented("four-grid", panes) {
      assert At(p, a.0, a.1) && At(q, a.0, b.1) && At(r, c.0, a.1) && At(s, c.0, d.1);
    }
  }

  predicate AboutEqual(a: int, b: int) {
    -1 <= a - b <= 1
  }

  /** What the second validator accepts of panes that are not empty. */
  lemma EqualColumns(p: Measured, q: Measured)
    requires p.columns > 0 && q.columns > 0
    ensures EqualGeometry("two-columns", [p, q]) <==> Balanced(p.columns, q.columns) && p.rows == q.rows
  {
    AcceptsIffBalanced(p.columns, q.columns);
  }

  lemma EqualGrid(p: Measured, q: Measured, r: Measured, s: Measured)
    requires p.columns > 0 && q.columns > 0 && r.columns > 0 && s.columns > 0
    requires p.rows > 0 && q.rows > 0 && r.rows > 0 && s.rows > 0
    ensures EqualGeometry("four-grid", [p, q, r, s]) <==>
      && AboutEqual(p.columns, q.columns) && AboutEqual(r.columns, s.columns) && Balanced(p.columns, r.columns)
      && AboutEqual(p.rows, r.rows) && AboutEqual(q.rows, s.rows)
      && Balanced(p.rows, q.rows) && Balanced(r.rows, s.rows)
  {
    AcceptsIffBalanced(p.columns, r.columns);
    AcceptsIffBalanced(p.rows, q.rows);
    AcceptsIffBalanced(r.rows, s.rows);
  }

  /** The panes a topology of this size is measured as, in the topology's own order. */
  function Measure(node: Node, r: Rect): seq<Measured> {
    var names, rects := PaneNames(node), Halve(node, r);
    HalveNames(node, r);
    NamesArePaneNames(node);
    seq(|names|, i requires 0 <= i < |names| =>
      assert names[i] in names;
      var rect := rects[names[i]];
      Measured(names[i], rect.width, rect.height, Some((rect.x, rect.y))))
  }

  /** The smallest sizes at which no pane of the named topology is empty. */
  predicate LargeEnough(name: string, width: int, height: int) {
    && width >= (if name == "single" then 1 else 2)
    && height >= (if name == "four-grid" then 2 else 1)
  }

  lemma MeasureColumns(p: string, q: string, r: Rect)
    requires p != q
    ensures Measure(Columns(p, q), r) ==
            [Measured(p, r.width / 2, r.height, Some((r.x, r.y))),
             Measured(q, r.width - r.width / 2, r.height, Some((r.x + r.width / 2, r.y)))]
  {
    ColumnsHalve(p, q, r);
    assert PaneNames(Columns(p, q)) == [p, q];
  }

  lemma {:induction false} MeasureFour(node: Node, p0: string, p1: string, p2: string, p3: string, r: Rect,
                                       a: Rect, b: Rect, c: Rect, d: Rect)
    requires FourDiffer(p0, p1, p2, p3) && PaneNames(node) == [p0, p1, p2, p3]
    requires Halve(node, r) == map[p0 := a, p1 := b, p2 := c, p3 := d]
    ensures Measure(node, r) == [
      Measured(p0, a.width, a.height, Some((a.x, a.y))), Measured(p1, b.width, b.height, Some((b.x, b.y))),
      Measured(p2, c.width, c.height, Some((c.x, c.y))), Measured(p3, d.width, d.height, Some((d.x, d.y)))]
  {
  }

  lemma RowsNames(p: string, q: string)
    ensures PaneNames(Rows(p, q)) == [p, q]
  {
    assert PaneNames(Pane(p)) == [p] && PaneNames(Pane(q)) == [q];
  }

  lemma GridNames(p0: string, p1: string, p2: string, p3: string)
    ensures PaneNames(Grid(p0, p1, p2, p3)) == [p0, p1, p2, p3]
  {
    RowsNames(p0, p1);
    RowsNames(p2, p3);
  }

  /** The layout of a named topology passes the first validator exactly when it is large enough, and
      then it also passes the equal-ratio validator. */
  lemma LayoutIsValid(name: string, x: int, y: int, width: int, height: int)
    requires TopologyNamed(name).Some? && width > 0 && height > 0
    ensures var node := TopologyNamed(name).value;
      var panes := Measure(node, Rect(x, y, width, height));
      && (ValidGeometry(name, node, panes) <==> LargeEnough(name, width, height))
      && (LargeEnough(name, width, height) ==> EqualGeometry(name, panes))
  {
    var r := Rect(x, y, width, height);
    PaneNamesDiffer();
    if name == "single" {
      SingleIsValid(r);
    } else if name == "two-columns" {
      OneCellIsAccepted(width / 2, width - width / 2);
      ColumnsAreValid("pane-0", "pane-1", r);
    } else {
      GridHalves("pane-0", "pane-1", "pane-2", "pane-3", r);
      GridNames("pane-0", "pane-1", "pane-2", "pane-3");
      GridIsValid(TopologyNamed(name).value, "pane-0", "pane-1", "pane-2", "pane-3", r);
    }
  }

  lemma {:induction false} GridIsValid(node: Node, p0: string, p1: string, p2: string, p3: string, r: Rect)
    requires FourDiffer(p0, p1, p2, p3) && r.width > 0 && r.height > 0
    requires PaneNames(node) == [p0, p1, p2, p3] && Halve(node, r) == Quarters(p0, p1, p2, p3, r)
    ensures ValidGeometry("four-grid", node, Measure(node, r)) <==> r.width >= 2 && r.height >= 2
    ensures EqualGeometry("four-grid", Measure(node, r))
  {
    var w, h := r.width / 2, r.height / 2;
    GridIsArranged(node, p0, p1, p2, p3, r);
    OneCellIsAccepted(w, r.width - w);
    OneCellIsAccepted(h, r.height - h);
    ArrangedIsValid(node, Measure(node, r), r.x, r.y, w, r.width - w, h, r.height - h);
  }

  /** One column is too narrow for the grid: there are rectangles, but the panes on the left are empty. */
  lemma NarrowGridIsRefused()
    ensures Rectangles("four-grid", 0, 0, 1, 2).Success? && TopologyNamed("four-grid").Some?
    ensures var node := TopologyNamed("four-grid").value;
      !ValidGeometry("four-grid", node, Measure(node, Rect(0, 0, 1, 2)))
  {
    assert TopologyNamed("four-grid").Some?;
    LayoutIsValid("four-grid", 0, 0, 1, 2);
  }

  lemma SingleIsValid(r: Rect)
    ensures ValidGeometry("single", SINGLE, Measure(SINGLE, r)) <==> r.width >= 1 && r.height >= 1
    ensures EqualGeometry("single", Measure(SINGLE, r))
  {
    assert PaneNames(SINGLE) == ["pane-0"];
    assert Measure(SINGLE, r)[0] == Measured("pane-0", r.width, r.height, Some((r.x, r.y)));
  }

  lemma ColumnsAreValid(p: string, q: string, r: Rect)
    requires p != q && r.width > 0 && r.height > 0 && Accepts(r.width / 2, r.width - r.width / 2)
    ensures ValidGeometry("two-columns", Columns(p, q), Measure(Columns(p, q), r)) <==> r.width >= 2
    ensures EqualGeometry("two-columns", Measure(Columns(p, q), r))
  {
    MeasureColumns(p, q, r);
    assert PaneNames(Columns(p, q)) == [p, q];
    assert Measure(Columns(p, q), r)[0].columns == r.width / 2;
  }

  /** Four panes around the point (x + a, y + c), the first at (x, y). */
  predicate Arranged(node: Node, panes: seq<Measured>, x: int, y: int, a: int, b: int, c: int, d: int) {
    && |PaneNames(node)| == |panes| == 4 && (forall i :: 0 <= i < 4 ==> panes[i].name == PaneNames(node)[i])
    && panes[0].columns == a && panes[0].rows == c && panes[0].position == Some((x, y))
    && panes[1].columns == a && panes[1].rows == d && panes[1].position == Some((x, y + c))
    && panes[2].columns == b && panes[2].rows == c && panes[2].position == Some((x + a, y))
    && panes[3].columns == b && panes[3].rows == d && panes[3].position == Some((x + a, y + c))
  }

  lemma {:induction false} ArrangedIsValid(node: Node, panes: seq<Measured>, x: int, y: int, a: int, b: int, c: int,
      d: int)
    requires Arranged(node, panes, x, y, a, b, c, d)
    requires a >= 0 && b > 0 && c >= 0 && d > 0 && Accepts(a, b) && Accepts(c, d)
    ensures ValidGeometry("four-grid", node, panes) <==> a > 0 && c > 0
    ensures EqualGeometry("four-grid", panes)
  {
  }

  lemma {:induction false} GridIsArranged(node: Node, p0: string, p1: string, p2: string, p3: string, r: Rect)
    requires FourDiffer(p0, p1, p2, p3)
    requires PaneNames(node) == [p0, p1, p2, p3] && Halve(node, r) == Quarters(p0, p1, p2, p3, r)
    ensures var w, h := r.width / 2, r.height / 2;
      Arranged(node, Measure(node, r), r.x, r.y, w, r.width - w, h, r.height - h)
  {
    var w, h := r.width / 2, r.height / 2;
    MeasureFour(node, p0, p1, p2, p3, r, Rect(r.x, r.y, w, h), Rect(r.x, r.y + h, w, r.height - h),
                Rect(r.x + w, r.y, r.width - w, h), Rect(r.x + w, r.y + h, r.width - w, r.height - h));
  }
}
