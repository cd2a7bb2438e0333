/** The catch-up plan: building a shuffled schedule and checking one. */
module CatchupPlan {
  import opened Basics
  import opened Wrappers
  import opened CaseIdentity

  const CELL_NAMES: seq<string> := [
    "zero-history", "history-1000", "history-4096", "detached-history", "inactive-scaling-2",
    "inactive-scaling-4", "all-pane-scaling", "static-movement", "outer-resize", "ansi-stress"]

  const NAMES: set<string> := set name | name in CELL_NAMES

  const CELLS := 10
  const PLAN_SCHEMA := "splinterm.benchmark.graphical-catchup-plan.v1"
  const HISTORY_CAPACITY_ROWS := 4096
  const ANSI_OPERATION_LINES := 2000

  datatype Entry = Entry(phase: string, iteration: int, executionIndex: int, caseId: string, cell: string)

  datatype Plan = Plan(
    schema: string,
    cells: seq<string>,
    historyCapacityRows: int,
    ansiOperationLines: int,
    warmupRuns: int,
    sampleRuns: int,
    schedule: seq<Entry>)

  /** A plan with the digest of its canonical form. */
  datatype Document = Document(plan: Plan, digest: Digest<Plan>)

  // ----- What a schedule should be -----------------------------------------------------------

  predicate IterationInRange(plan: Plan, phase: string, iteration: int) {
    || (phase == "warmup" && 0 <= iteration < plan.warmupRuns)
    || (phase == "measured" && 0 <= iteration < plan.sampleRuns)
  }

  predicate Matches(e: Entry, phase: string, iteration: int, cell: string) {
    e.phase == phase && e.iteration == iteration && e.cell == cell
  }

  /** Each (phase, iteration, cell) exactly once, and nothing else. */
  ghost predicate CoversExactly(plan: Plan, names: set<string>) {
    && plan.warmupRuns >= 0 && plan.sampleRuns >= 0
    && (forall i :: 0 <= i < |plan.schedule| ==> Expected(plan, names, plan.schedule[i]))
    && (forall phase, iteration, cell :: IterationInRange(plan, phase, iteration) && cell in names ==>
          Occurs(plan.schedule, phase, iteration, cell))
    && (forall i, j :: 0 <= i < j < |plan.schedule| ==> !SameCase(plan.schedule[i], plan.schedule[j]))
  }

  predicate Expected(plan: Plan, names: set<string>, e: Entry) {
    IterationInRange(plan, e.phase, e.iteration) && e.cell in names
  }

  predicate Occurs(schedule: seq<Entry>, phase: string, iteration: int, cell: string) {
    exists i :: 0 <= i < |schedule| && Matches(schedule[i], phase, iteration, cell)
  }

  predicate SameCase(e: Entry, f: Entry) {
    Matches(e, f.phase, f.iteration, f.cell)
  }

  predicate Numbered(schedule: seq<Entry>) {
    forall i :: 0 <= i < |schedule| ==> NumberedAt(schedule[i], i)
  }

  predicate NumberedAt(e: Entry, i: int) {
    e.executionIndex == i && e.caseId == CaseId(e.phase, e.iteration, i, e.cell)
  }

  predicate HeaderOk(d: Document) {
    && d.plan.schema == PLAN_SCHEMA
    && d.plan.cells == CELL_NAMES
    && d.plan.historyCapacityRows == HISTORY_CAPACITY_ROWS
    && d.plan.ansiOperationLines == ANSI_OPERATION_LINES
    && d.digest == Sha256(d.plan)
  }

  /** What the header has to say, value by value. */
  predicate IsHeader(d: Document) {
    && d.plan.schema == "splinterm.benchmark.graphical-catchup-plan.v1"
    && d.plan.cells == ["zero-history", "history-1000", "history-4096", "detached-history", "inactive-scaling-2",
                        "inactive-scaling-4", "all-pane-scaling", "static-movement", "outer-resize", "ansi-stress"]
    && d.plan.historyCapacityRows == 4096
    && d.plan.ansiOperationLines == 2000
    && d.digest.preimage == d.plan
  }

  // ----- What the validator looks at -----------------------------------------------------------

  /** The positions of one batch. */
  function Batch(schedule: seq<Entry>, phase: string, iteration: int): set<int> {
    set i | 0 <= i < |schedule| && schedule[i].phase == phase && schedule[i].iteration == iteration
  }

  /** The cells found at some positions. */
  function CellsAt(schedule: seq<Entry>, at: set<int>): set<string>
    requires forall i :: i in at ==> 0 <= i < |schedule|
  {
    set i | i in at :: schedule[i].cell
  }

  predicate CompleteBatch(schedule: seq<Entry>, phase: string, iteration: int, names: set<string>) {
    var batch := Batch(schedule, phase, iteration);
    CellsAt(schedule, batch) == names && |batch| == CELLS
  }

  predicate CompletePhase(schedule: seq<Entry>, phase: string, runs: int, names: set<string>) {
    forall iteration :: 0 <= iteration < runs ==> CompleteBatch(schedule, phase, iteration, names)
  }

  /** Every batch complete, and a length that matches the run counts. */
  predicate Batched(plan: Plan, names: set<string>) {
    && CompletePhase(plan.schedule, "warmup", plan.warmupRuns, names)
    && CompletePhase(plan.schedule, "measured", plan.sampleRuns, names)
    && |plan.schedule| == (plan.warmupRuns + plan.sampleRuns) * CELLS
  }

  predicate Accepts(d: Document) {
    HeaderOk(d) && Batched(d.plan, NAMES) && Numbered(d.plan.schedule)
  }

  // ----- The ten names -------------------------------------------------------------------------

  lemma {:induction false} DistinctSize(names: seq<string>)
    requires NoDuplicates(names)
    ensures |set name | name in names| == |names|
  {
    if names != [] {
      var n := |names| - 1;
      DistinctSize(names[..n]);
      assert names[n] !in names[..n];
      assert (set name | name in names) == (set name | name in names[..n]) + {names[n]};
    }
  }

  /** First and last characters already tell the ten names apart. */
  function Ends(name: string): (char, char)
    requires name != ""
  {
    (name[0], name[|name| - 1])
  }

  lemma NamesAreTen()
    ensures |NAMES| == CELLS && |CELL_NAMES| == CELLS && NoDuplicates(CELL_NAMES)
  {
    var ends := [('z', 'y'), ('h', '0'), ('h', '6'), ('d', 'y'), ('i', '2'), ('i', '4'), ('a', 'g'), ('s', 't'),
        ('o', 'e'), ('a', 's')];
    assert forall i :: 0 <= i < CELLS ==> CELL_NAMES[i] != "" && Ends(CELL_NAMES[i]) == ends[i];
    assert forall i, j :: 0 <= i < j < CELLS ==> ends[i] != ends[j];
    forall i, j | 0 <= i < j < CELLS
      ensures CELL_NAMES[i] != CELL_NAMES[j]
    {
      assert Ends(CELL_NAMES[i]) != Ends(CELL_NAMES[j]);
    }
    DistinctSize(CELL_NAMES);
  }

  // ----- Counting ------------------------------------------------------------------------------

  predicate OneEach(schedule: seq<Entry>, at: set<int>)
    requires forall i :: i in at ==> 0 <= i < |schedule|
  {
    forall i, j :: i in at && j in at && schedule[i].cell == schedule[j].cell ==> i == j
  }

  /** Positions outnumber the cells found there exactly when some cell is repeated. */
  lemma {:induction false} CellsAtSize(schedule: seq<Entry>, at: set<int>)
    requires forall i :: i in at ==> 0 <= i < |schedule|
    ensures |CellsAt(schedule, at)| <= |at|
    ensures |CellsAt(schedule, at)| == |at| <==> OneEach(schedule, at)
    decreases |at|
  {
    if at == {} {
      assert CellsAt(schedule, at) == {};
    } else {
      assert (forall i :: i !in at) ==> at == {};
      var k :| k in at;
      var rest := at - {k};
      CellsAtSize(schedule, rest);
      assert CellsAt(schedule, at) == CellsAt(schedule, rest) + {schedule[k].cell};
      if schedule[k].cell in CellsAt(schedule, rest) {
        var j :| j in rest && schedule[j].cell == schedule[k].cell;
        assert !OneEach(schedule, at);
      }
    }
  }

  /** The positions of the first `n` iterations of a phase. */
  function Batches(schedule: seq<Entry>, phase: string, n: int): set<int> {
    set i | 0 <= i < |schedule| && schedule[i].phase == phase && 0 <= schedule[i].iteration < n
  }

  function AtLeastZero(n: int): nat {
    if n < 0 then 0 else n
  }

  lemma {:induction false} BatchesSize(schedule: seq<Entry>, phase: string, n: int, names: set<string>)
    requires CompletePhase(schedule, phase, n, names)
    ensures |Batches(schedule, phase, n)| == AtLeastZero(n) * CELLS
    decreases AtLeastZero(n)
  {
    if n <= 0 {
      assert Batches(schedule, phase, n) == {};
    } else {
      BatchesSize(schedule, phase, n - 1, names);
      var last := Batch(schedule, phase, n - 1);
      assert CompleteBatch(schedule, phase, n - 1, names);
      assert Batches(schedule, phase, n) == Batches(schedule, phase, n - 1) + last;
      assert Batches(schedule, phase, n - 1) !! last;
    }
  }

  function Positions(n: nat): (s: set<int>)
    ensures forall i :: i in s <==> 0 <= i < n
  {
    if n == 0 then {} else Positions(n - 1) + {n - 1}
  }

  lemma {:induction false} PositionsSize(n: nat)
    ensures |Positions(n)| == n
  {
    if n > 0 {
      PositionsSize(n - 1);
    }
  }

  lemma SubsetSize<T>(a: set<T>, b: set<T>)
    requires a <= b
    ensures |a| <= |b| && (|a| == |b| ==> a == b)
  {
    assert b == a + (b - a) && |b| == |a| + |b - a|;
  }

  function InBatches(plan: Plan): set<int> {
    Batches(plan.schedule, "warmup", plan.warmupRuns) + Batches(plan.schedule, "measured", plan.sampleRuns)
  }

  /** Complete phases take up this much room; the batches are disjoint. */
  lemma BatchesTakeRoom(plan: Plan, names: set<string>)
    requires CompletePhase(plan.schedule, "warmup", plan.warmupRuns, names)
    requires CompletePhase(plan.schedule, "measured", plan.sampleRuns, names)
    ensures |InBatches(plan)| == (AtLeastZero(plan.warmupRuns) + AtLeastZero(plan.sampleRuns)) * CELLS
    ensures |InBatches(plan)| <= |plan.schedule|
    ensures |InBatches(plan)| == |plan.schedule| <==> forall i :: 0 <= i < |plan.schedule| ==> i in InBatches(plan)
  {
    BatchesSize(plan.schedule, "warmup", plan.warmupRuns, names);
    BatchesSize(plan.schedule, "measured", plan.sampleRuns, names);
    assert Batches(plan.schedule, "warmup", plan.warmupRuns) !! Batches(plan.schedule, "measured", plan.sampleRuns);
    PositionsSize(|plan.schedule|);
    SubsetSize(InBatches(plan), Positions(|plan.schedule|));
    if forall i :: 0 <= i < |plan.schedule| ==> i in InBatches(plan) {
      assert InBatches(plan) == Positions(|plan.schedule|);
    }
  }

  /** A complete batch holds every cell once. */
  lemma BatchHoldsEach(schedule: seq<Entry>, phase: string, iteration: int, names: set<string>)
    requires |names| == CELLS
    ensures CompleteBatch(schedule, phase, iteration, names) <==>
            OneEach(schedule, Batch(schedule, phase, iteration))
                && CellsAt(schedule, Batch(schedule, phase, iteration)) == names
  {
    CellsAtSize(schedule, Batch(schedule, phase, iteration));
  }

  lemma BatchedFills(plan: Plan, names: set<string>)
    requires Batched(plan, names)
    ensures plan.warmupRuns >= 0 && plan.sampleRuns >= 0
    ensures forall i :: 0 <= i < |plan.schedule| ==>
              IterationInRange(plan, plan.schedule[i].phase, plan.schedule[i].iteration)
  {
    BatchesTakeRoom(plan, names);
    forall i | 0 <= i < |plan.schedule|
      ensures IterationInRange(plan, plan.schedule[i].phase, plan.schedule[i].iteration)
    {
      assert i in InBatches(plan);
    }
  }

  lemma InOwnBatch(plan: Plan, names: set<string>, i: int)
    requires |names| == CELLS && Batched(plan, names) && 0 <= i < |plan.schedule|
    ensures Expected(plan, names, plan.schedule[i])
    ensures var e := plan.schedule[i]; OneEach(plan.schedule, Batch(plan.schedule, e.phase, e.iteration))
  {
    var e := plan.schedule[i];
    BatchedFills(plan, names);
    assert CompleteBatch(plan.schedule, e.phase, e.iteration, names);
    BatchHoldsEach(plan.schedule, e.phase, e.iteration, names);
    assert i in Batch(plan.schedule, e.phase, e.iteration);
    assert e.cell in CellsAt(plan.schedule, Batch(plan.schedule, e.phase, e.iteration));
  }

  lemma BatchedCovers(plan: Plan, names: set<string>)
    requires |names| == CELLS && Batched(plan, names)
    ensures CoversExactly(plan, names)
  {
    var schedule := plan.schedule;
    BatchedFills(plan, names);
    forall i | 0 <= i < |schedule|
      ensures Expected(plan, names, schedule[i])
    {
      InOwnBatch(plan, names, i);
    }
    forall i, j | 0 <= i < j < |schedule|
      ensures !SameCase(schedule[i], schedule[j])
    {
      InOwnBatch(plan, names, j);
      assert j in Batch(schedule, schedule[j].phase, schedule[j].iteration);
    }
    forall phase, iteration, cell | IterationInRange(plan, phase, iteration) && cell in names
      ensures Occurs(schedule, phase, iteration, cell)
    {
      assert CompleteBatch(schedule, phase, iteration, names);
      assert cell in CellsAt(schedule, Batch(schedule, phase, iteration));
      var i :| i in Batch(schedule, phase, iteration) && schedule[i].cell == cell;
      assert Matches(schedule[i], phase, iteration, cell);
    }
  }

  lemma CoveredBatchIsComplete(plan: Plan, names: set<string>, phase: string, iteration: int)
    requires |names| == CELLS && CoversExactly(plan, names) && IterationInRange(plan, phase, iteration)
    ensures CompleteBatch(plan.schedule, phase, iteration, names)
  {
    var schedule, batch := plan.schedule, Batch(plan.schedule, phase, iteration);
    forall i, j | i in batch && j in batch && schedule[i].cell == schedule[j].cell
      ensures i == j
    {
      assert SameCase(schedule[i], schedule[j]) && SameCase(schedule[j], schedule[i]);
    }
    forall cell | cell in names
      ensures cell in CellsAt(schedule, batch)
    {
      assert Occurs(schedule, phase, iteration, cell);
      var i :| 0 <= i < |schedule| && Matches(schedule[i], phase, iteration, cell);
      assert i in batch;
    }
    forall i | i in batch
      ensures schedule[i].cell in names
    {
      assert Expected(plan, names, schedule[i]);
    }
    BatchHoldsEach(schedule, phase, iteration, names);
  }

  lemma CoversBatched(plan: Plan, names: set<string>)
    requires |names| == CELLS && CoversExactly(plan, names)
    ensures Batched(plan, names)
  {
    forall iteration | 0 <= iteration < plan.warmupRuns
      ensures CompleteBatch(plan.schedule, "warmup", iteration, names)
    {
      CoveredBatchIsComplete(plan, names, "warmup", iteration);
    }
    forall iteration | 0 <= iteration < plan.sampleRuns
      ensures CompleteBatch(plan.schedule, "measured", iteration, names)
    {
      CoveredBatchIsComplete(plan, names, "measured", iteration);
    }
    BatchesTakeRoom(plan, names);
    forall i | 0 <= i < |plan.schedule|
      ensures i in InBatches(plan)
    {
      assert Expected(plan, names, plan.schedule[i]);
    }
  }

  /** The validator accepts exactly the numbered schedules that hold every (phase, iteration, cell)
      once and nothing else, for nonnegative run counts. */
  lemma AcceptsIffCovers(d: Document)
    ensures Accepts(d) <==> HeaderOk(d) && Numbered(d.plan.schedule) && CoversExactly(d.plan, NAMES)
  {
    NamesAreTen();
    if Batched(d.plan, NAMES) {
      BatchedCovers(d.plan, NAMES);
    }
    if CoversExactly(d.plan, NAMES) {
      CoversBatched(d.plan, NAMES);
    }
  }

  // ----- The validator -------------------------------------------------------------------------

  lemma CellsOfPrefix(schedule: seq<Entry>, i: int, at: set<int>)
    requires 0 <= i < |schedule| && forall k :: k in at ==> 0 <= k < i
    ensures CellsAt(schedule[..i + 1], at) == CellsAt(schedule[..i], at)
    ensures CellsAt(schedule[..i + 1], at + {i}) == CellsAt(schedule[..i], at) + {schedule[i].cell}
  {
    var longer, shorter := schedule[..i + 1], schedule[..i];
    assert forall k :: 0 <= k < i ==> longer[k] == shorter[k];
    assert longer[i] == schedule[i];
    assert i in at + {i};
  }

  lemma BatchOfPrefix(schedule: seq<Entry>, i: int, phase: string, iteration: int)
    requires 0 <= i < |schedule|
    ensures var before := Batch(schedule[..i], phase, iteration);
      && i !in before
      && Batch(schedule[..i + 1], phase, iteration) ==
         if schedule[i].phase == phase && schedule[i].iteration == iteration then before + {i} else before
  {
    var longer, shorter := schedule[..i + 1], schedule[..i];
    assert forall k :: 0 <= k < i ==> longer[k] == shorter[k];
    assert longer[i] == schedule[i];
  }

  lemma BatchGrows(schedule: seq<Entry>, i: int, phase: string, iteration: int)
    requires 0 <= i < |schedule|
    ensures var before, after := Batch(schedule[..i], phase, iteration), Batch(schedule[..i + 1], phase, iteration);
      if schedule[i].phase == phase && schedule[i].iteration == iteration
      then
        && |after| == |before| + 1
        && CellsAt(schedule[..i + 1], after) == CellsAt(schedule[..i], before) + {schedule[i].cell}
      else after == before && CellsAt(schedule[..i + 1], after) == CellsAt(schedule[..i], before)
  {
    BatchOfPrefix(schedule, i, phase, iteration);
    CellsOfPrefix(schedule, i, Batch(schedule[..i], phase, iteration));
  }

  /** One batch, as the list comprehension collects it. */
  method CollectBatch(schedule: seq<Entry>, phase: string, iteration: int) returns (cells: set<string>, size: nat)
    ensures cells == CellsAt(schedule, Batch(schedule, phase, iteration)) && size == |Batch(schedule, phase, iteration)|
  {
    cells, size := {}, 0;
    for i := 0 to |schedule|
      invariant cells == CellsAt(schedule[..i], Batch(schedule[..i], phase, iteration))
      invariant size == |Batch(schedule[..i], phase, iteration)|
    {
      BatchGrows(schedule, i, phase, iteration);
      if schedule[i].phase == phase && schedule[i].iteration == iteration {
        cells := cells + {schedule[i].cell};
        size := size + 1;
      }
    }
    assert schedule[..|schedule|] == schedule;
  }

  method ValidatePhase(schedule: seq<Entry>, phase: string, runs: int, names: set<string>) returns (ok: bool)
    ensures ok <==> CompletePhase(schedule, phase, runs, names)
  {
    var iteration := 0;
    while iteration < runs
      invariant 0 <= iteration
      invariant forall k :: 0 <= k < iteration ==> CompleteBatch(schedule, phase, k, names)
    {
      var cells, size := CollectBatch(schedule, phase, iteration);
      if cells != names || size != CELLS {
        assert !CompleteBatch(schedule, phase, iteration, names);
        return false;
      }
      iteration := iteration + 1;
    }
    return true;
  }

  method ValidateNumbers(schedule: seq<Entry>) returns (ok: bool)
    ensures ok <==> Numbered(schedule)
  {
    var expectedIndex := 0;
    while expectedIndex < |schedule|
      invariant 0 <= expectedIndex <= |schedule|
      invariant forall i :: 0 <= i < expectedIndex ==> NumberedAt(schedule[i], i)
    {
      var item := schedule[expectedIndex];
      if item.executionIndex != expectedIndex {
        return false;
      }
      if item.caseId != CaseId(item.phase, item.iteration, expectedIndex, item.cell) {
        return false;
      }
      expectedIndex := expectedIndex + 1;
    }
    return true;
  }

  method ValidatePlan(d: Document) returns (ok: bool)
    ensures ok <==> IsHeader(d) && Numbered(d.plan.schedule) && CoversExactly(d.plan, NAMES)
  {
    AcceptsIffCovers(d);
    if !HeaderOk(d) {
      return false;
    }
    var plan := d.plan;
    ok := ValidatePhase(plan.schedule, "warmup", plan.warmupRuns, NAMES);
    if !ok {
      return;
    }
    ok := ValidatePhase(plan.schedule, "measured", plan.sampleRuns, NAMES);
    if !ok {
      return;
    }
    ok := ValidateNumbers(plan.schedule);
    if !ok {
      return;
    }
    ok := |plan.schedule| == (plan.warmupRuns + plan.sampleRuns) * CELLS;
  }

  function Selected(plan: Plan, index: int): set<int> {
    set i | 0 <= i < |plan.schedule| && plan.schedule[i].executionIndex == index
  }

  /** In an accepted plan a reported index selects one entry exactly when it is in range. */
  lemma IndexSelectsOne(d: Document, index: int)
    requires Accepts(d)
    ensures |Selected(d.plan, index)| == 1 <==> 0 <= index < (d.plan.warmupRuns + d.plan.sampleRuns) * CELLS
  {
    var schedule := d.plan.schedule;
    if 0 <= index < |schedule| {
      assert NumberedAt(schedule[index], index);
      assert Selected(d.plan, index) == {index};
    } else {
      assert Selected(d.plan, index) == {};
    }
  }

  /** No two cases of an accepted plan share an identity. */
  lemma CaseIdsAreUnique(d: Document, i: nat, j: nat)
    requires Accepts(d) && i < |d.plan.schedule| && j < |d.plan.schedule|
    ensures d.plan.schedule[i].caseId == d.plan.schedule[j].caseId <==> i == j
  {
    AcceptsIffCovers(d);
    var e, f := d.plan.schedule[i], d.plan.schedule[j];
    assert Expected(d.plan, NAMES, e) && Expected(d.plan, NAMES, f);
    assert NumberedAt(e, i) && NumberedAt(f, j);
    if e.caseId == f.caseId {
      NoDashInPhase(e.phase);
      NoDashInPhase(f.phase);
      CaseIdReads(e.phase, e.iteration, i, e.cell, f.phase, f.iteration, j, f.cell);
    }
  }

  lemma NoDashInPhase(phase: string)
    requires phase == "warmup" || phase == "measured"
    ensures '-' !in phase
  {
  }

  // ----- Building a plan -------------------------------------------------------------------------

  /** What `rng.shuffle` may leave: the names in some order. */
  ghost predicate IsShuffle(order: seq<string>, names: set<string>) {
    |order| == CELLS && NoDuplicates(order) && forall name :: name in names <==> name in order
  }

  /** Block `b` of ten entries belongs to this phase and iteration. */
  function PhaseOf(warmupRuns: int, b: int): string {
    if b < warmupRuns then "warmup" else "measured"
  }

  function IterationOf(warmupRuns: int, b: int): int {
    if b < warmupRuns then b else b - warmupRuns
  }

  function Made(phase: string, iteration: int, index: int, cell: string): Entry {
    Entry(phase, iteration, index, CaseId(phase, iteration, index, cell), cell)
  }

  ghost predicate Shuffles(orders: nat -> seq<string>, names: set<string>) {
    forall b: nat :: IsShuffle(orders(b), names)
  }

  /** Entry `j` of block `b`. */
  ghost predicate BuiltAt(warmupRuns: int, orders: nat -> seq<string>, schedule: seq<Entry>, b: nat, j: nat) {
    var k := b * CELLS + j;
    j < |orders(b)| && k < |schedule|
    && schedule[k] == Made(PhaseOf(warmupRuns, b), IterationOf(warmupRuns, b), k, orders(b)[j])
  }

  ghost predicate IsBuilt(warmupRuns: int, orders: nat -> seq<string>, schedule: seq<Entry>) {
    forall b: nat, j: nat :: j < CELLS && b * CELLS + j < |schedule| ==> BuiltAt(warmupRuns, orders, schedule, b, j)
  }

  lemma BuiltEntry(plan: Plan, orders: nat -> seq<string>, k: nat)
    requires IsBuilt(plan.warmupRuns, orders, plan.schedule) && k < |plan.schedule|
    ensures k % CELLS < |orders(k / CELLS)|
    ensures plan.schedule[k] ==
            Made(PhaseOf(plan.warmupRuns, k / CELLS), IterationOf(plan.warmupRuns, k / CELLS), k,
                orders(k / CELLS)[k % CELLS])
  {
    var b: nat, j: nat := k / CELLS, k % CELLS;
    assert b * CELLS + j == k;
    assert BuiltAt(plan.warmupRuns, orders, plan.schedule, b, j);
  }

  lemma BuiltExpected(plan: Plan, orders: nat -> seq<string>, names: set<string>, k: nat)
    requires Shuffles(orders, names) && plan.warmupRuns >= 0 && plan.sampleRuns >= 0
    requires IsBuilt(plan.warmupRuns, orders, plan.schedule) && k < |plan.schedule|
    requires |plan.schedule| == (plan.warmupRuns + plan.sampleRuns) * CELLS
    ensures Expected(plan, names, plan.schedule[k]) && NumberedAt(plan.schedule[k], k)
  {
    BuiltEntry(plan, orders, k);
    var order := orders(k / CELLS);
    assert IsShuffle(order, names);
    assert order[k % CELLS] in order;
  }

  lemma BuiltOccurs(plan: Plan, orders: nat -> seq<string>, names: set<string>, phase: string, iteration: int,
      cell: string)
    requires Shuffles(orders, names) && plan.warmupRuns >= 0 && plan.sampleRuns >= 0
    requires IsBuilt(plan.warmupRuns, orders, plan.schedule)
    requires |plan.schedule| == (plan.warmupRuns + plan.sampleRuns) * CELLS
    requires IterationInRange(plan, phase, iteration) && cell in names
    ensures Occurs(plan.schedule, phase, iteration, cell)
  {
    var b: nat := if phase == "warmup" then iteration else plan.warmupRuns + iteration;
    var order := orders(b);
    assert IsShuffle(order, names);
    var j: nat :| j < |order| && order[j] == cell;
    BlockFits(b, plan.warmupRuns + plan.sampleRuns, j);
    BuiltMatches(plan, orders, b, j);
    assert Matches(plan.schedule[b * CELLS + j], phase, iteration, cell);
  }

  lemma BlockFits(b: nat, blocks: nat, j: nat)
    requires b < blocks && j < CELLS
    ensures b * CELLS + j < blocks * CELLS
  {
  }

  lemma BuiltMatches(plan: Plan, orders: nat -> seq<string>, b: nat, j: nat)
    requires IsBuilt(plan.warmupRuns, orders, plan.schedule) && j < CELLS && b * CELLS + j < |plan.schedule|
    ensures j < |orders(b)|
    ensures Matches(plan.schedule[b * CELLS + j], PhaseOf(plan.warmupRuns, b), IterationOf(plan.warmupRuns, b),
                    orders(b)[j])
  {
    assert BuiltAt(plan.warmupRuns, orders, plan.schedule, b, j);
  }

  lemma BuiltDistinct(plan: Plan, orders: nat -> seq<string>, names: set<string>, i: nat, j: nat)
    requires Shuffles(orders, names) && plan.warmupRuns >= 0
    requires IsBuilt(plan.warmupRuns, orders, plan.schedule) && i < j < |plan.schedule|
    ensures !SameCase(plan.schedule[i], plan.schedule[j])
  {
    BuiltEntry(plan, orders, i);
    BuiltEntry(plan, orders, j);
    var b, c := i / CELLS, j / CELLS;
    BlocksDiffer(plan.warmupRuns, b, c);
    if b == c {
      InBlockOrder(i, j);
      NoTwice(orders, names, b, i % CELLS, j % CELLS);
    }
    MadeDiffer(PhaseOf(plan.warmupRuns, b), IterationOf(plan.warmupRuns, b), i, orders(b)[i % CELLS],
               PhaseOf(plan.warmupRuns, c), IterationOf(plan.warmupRuns, c), j, orders(c)[j % CELLS]);
  }

  lemma MadeDiffer(phase: string, iteration: int, i: int, cell: string,
                   phase': string, iteration': int, j: int, cell': string)
    requires phase != phase' || iteration != iteration' || cell != cell'
    ensures !SameCase(Made(phase, iteration, i, cell), Made(phase', iteration', j, cell'))
  {
  }

  lemma NoTwice(orders: nat -> seq<string>, names: set<string>, b: nat, i: nat, j: nat)
    requires Shuffles(orders, names) && i < j < CELLS
    ensures |orders(b)| == CELLS && orders(b)[i] != orders(b)[j]
  {
    assert IsShuffle(orders(b), names);
  }

  lemma InBlockOrder(i: nat, j: nat)
    requires i < j && i / CELLS == j / CELLS
    ensures i % CELLS < j % CELLS < CELLS
  {
  }

  lemma BlocksDiffer(warmupRuns: int, b: nat, c: nat)
    requires warmupRuns >= 0
    ensures b != c ==>
      PhaseOf(warmupRuns, b) != PhaseOf(warmupRuns, c) || IterationOf(warmupRuns, b) != IterationOf(warmupRuns, c)
  {
    assert "warmup"[0] == 'w' && "measured"[0] == 'm';
  }

  /** Every schedule built from any shuffles covers exactly. */
  lemma BuiltCovers(plan: Plan, orders: nat -> seq<string>, names: set<string>)
    requires Shuffles(orders, names) && plan.warmupRuns >= 0 && plan.sampleRuns >= 0
    requires IsBuilt(plan.warmupRuns, orders, plan.schedule)
    requires |plan.schedule| == (plan.warmupRuns + plan.sampleRuns) * CELLS
    ensures CoversExactly(plan, names) && Numbered(plan.schedule)
  {
    forall i | 0 <= i < |plan.schedule|
      ensures Expected(plan, names, plan.schedule[i]) && NumberedAt(plan.schedule[i], i)
    {
      BuiltExpected(plan, orders, names, i);
    }
    forall phase, iteration, cell | IterationInRange(plan, phase, iteration) && cell in names
      ensures Occurs(plan.schedule, phase, iteration, cell)
    {
      BuiltOccurs(plan, orders, names, phase, iteration, cell);
    }
    forall i, j | 0 <= i < j < |plan.schedule|
      ensures !SameCase(plan.schedule[i], plan.schedule[j])
    {
      BuiltDistinct(plan, orders, names, i, j);
    }
  }

  /** Case `k` of the plan: ten cases to an iteration in the order of its shuffle, warm-up iterations first. */
  ghost predicate ScheduledAt(warmupRuns: int, orders: nat -> seq<string>, e: Entry, k: nat) {
    && e.executionIndex == k
    && k % 10 < |orders(k / 10)| && e.cell == orders(k / 10)[k % 10]
    && (k < 10 * warmupRuns ==> e.phase == "warmup" && e.iteration == k / 10)
    && (k >= 10 * warmupRuns ==> e.phase == "measured" && e.iteration == k / 10 - warmupRuns)
  }

  lemma BuiltIsScheduled(plan: Plan, orders: nat -> seq<string>)
    requires IsBuilt(plan.warmupRuns, orders, plan.schedule)
    ensures forall k :: 0 <= k < |plan.schedule| ==> ScheduledAt(plan.warmupRuns, orders, plan.schedule[k], k)
  {
    forall k | 0 <= k < |plan.schedule|
      ensures ScheduledAt(plan.warmupRuns, orders, plan.schedule[k], k)
    {
      BuiltEntry(plan, orders, k);
    }
  }

  /** `plan_document`: accepted by the validator whatever the shuffles leave. */
  method PlanDocument(warmupRuns: int, sampleRuns: int, orders: nat -> seq<string>)
      returns (r: Result<Document, string>)
    requires Shuffles(orders, NAMES)
    ensures r.Success? <==> warmupRuns >= 0 && sampleRuns >= 1
    ensures r.Success? ==> Accepts(r.value)
    ensures r.Success? ==> r.value.plan.warmupRuns == warmupRuns && r.value.plan.sampleRuns == sampleRuns
    ensures r.Success? ==> |r.value.plan.schedule| == 10 * (warmupRuns + sampleRuns)
    ensures r.Success? ==>
      forall k :: 0 <= k < |r.value.plan.schedule| ==> ScheduledAt(warmupRuns, orders, r.value.plan.schedule[k], k)
  {
    if warmupRuns < 0 || sampleRuns < 1 {
      return Failure("run counts must include zero or more warmups and measured runs");
    }
    var schedule := [];
    schedule := BuildPhase(schedule, warmupRuns, "warmup", warmupRuns, orders, NAMES);
    schedule := BuildPhase(schedule, warmupRuns, "measured", sampleRuns, orders, NAMES);
    var plan := Plan(PLAN_SCHEMA, CELL_NAMES, HISTORY_CAPACITY_ROWS, ANSI_OPERATION_LINES, warmupRuns, sampleRuns,
        schedule);
    var d := Document(plan, Sha256(plan));
    BuiltCovers(plan, orders, NAMES);
    AcceptsIffCovers(d);
    BuiltIsScheduled(plan, orders);
    return Success(d);
  }

  /** The iterations of one phase, appended with a running index. */
  method BuildPhase(before: seq<Entry>, warmupRuns: nat, phase: string, runs: nat, orders: nat -> seq<string>,
                    ghost names: set<string>)
      returns (schedule: seq<Entry>)
    requires Shuffles(orders, names) && IsBuilt(warmupRuns, orders, before)
    requires if phase == "warmup" then |before| == 0 && runs == warmupRuns
             else phase == "measured" && |before| == warmupRuns * CELLS
    ensures IsBuilt(warmupRuns, orders, schedule) && |schedule| == |before| + runs * CELLS
  {
    schedule := before;
    var first := if phase == "warmup" then 0 else warmupRuns;
    for iteration := 0 to runs
      invariant IsBuilt(warmupRuns, orders, schedule) && |schedule| == (first + iteration) * CELLS
    {
      assert IsShuffle(orders(first + iteration), names);
      schedule := BuildBatch(schedule, warmupRuns, first + iteration, phase, iteration, orders);
    }
  }

  /** One shuffled batch. */
  method BuildBatch(before: seq<Entry>, warmupRuns: nat, b: nat, phase: string, iteration: int,
                    orders: nat -> seq<string>)
      returns (schedule: seq<Entry>)
    requires IsBuilt(warmupRuns, orders, before) && |before| == b * CELLS && |orders(b)| == CELLS
    requires phase == PhaseOf(warmupRuns, b) && iteration == IterationOf(warmupRuns, b)
    ensures IsBuilt(warmupRuns, orders, schedule) && |schedule| == (b + 1) * CELLS
  {
    schedule := before;
    var shuffled := orders(b);
    for j := 0 to |shuffled|
      invariant IsBuilt(warmupRuns, orders, schedule) && |schedule| == b * CELLS + j
    {
      var entry := Made(phase, iteration, |schedule|, shuffled[j]);
      BuiltAppend(warmupRuns, orders, schedule, b, j, entry);
      schedule := schedule + [entry];
    }
  }

  lemma BuiltAppend(warmupRuns: nat, orders: nat -> seq<string>, schedule: seq<Entry>, b: nat, j: nat, entry: Entry)
    requires IsBuilt(warmupRuns, orders, schedule) && |schedule| == b * CELLS + j && j < |orders(b)| == CELLS
    requires entry == Made(PhaseOf(warmupRuns, b), IterationOf(warmupRuns, b), |schedule|, orders(b)[j])
    ensures IsBuilt(warmupRuns, orders, schedule + [entry])
  {
    var more := schedule + [entry];
    forall c: nat, i: nat | i < CELLS && c * CELLS + i < |more|
      ensures BuiltAt(warmupRuns, orders, more, c, i)
    {
      if c * CELLS + i < |schedule| {
        assert BuiltAt(warmupRuns, orders, schedule, c, i);
      } else {
        assert c == b && i == j;
      }
    }
  }
}
