/** Benchmark samples grouped by metric and summarized, one row for each group. */
module SampleSummary {
  import opened Wrappers
  import opened OrderStatistics

  datatype Key = Key(terminal: string, scenario: string, boundary: string)

  /** A metric is a number, or a boolean or another value that is no measurement. */
  datatype Metric = Number(number: real) | NoNumber

  datatype Sample = Sample(key: Key, valid: bool, metrics: map<string, Metric>)

  datatype Group = Group(key: Key, metric: string)

  datatype Row = Row(key: Key, metric: Option<string>, statistics: Option<Summary>, invalidSamples: nat)

  // ----- The order of the rows ----------------------------------------------------------------

  /** Strings compare by their first difference, a prefix before its extensions. */
  predicate Precedes(a: string, b: string) {
    b != [] && (a == [] || a[0] < b[0] || (a[0] == b[0] && Precedes(a[1..], b[1..])))
  }

  lemma {:induction false} PrecedesIsTotal(a: string, b: string)
    ensures a == b || Precedes(a, b) || Precedes(b, a)
    ensures !(Precedes(a, b) && Precedes(b, a)) && !Precedes(a, a)
  {
    if a != [] {
      PrecedesIsTotal(a[1..], if b != [] then b[1..] else []);
      assert b != [] && a[0] == b[0] && a[1..] == b[1..] ==> a == [a[0]] + a[1..] == [b[0]] + b[1..] == b;
    }
  }

  lemma {:induction false} PrecedesIsTransitive(a: string, b: string, c: string)
    requires Precedes(a, b) && Precedes(b, c)
    ensures Precedes(a, c)
  {
    if a != [] && a[0] == b[0] == c[0] {
      PrecedesIsTransitive(a[1..], b[1..], c[1..]);
    }
  }

  predicate KeyBefore(a: Key, b: Key) {
    || Precedes(a.terminal, b.terminal)
    || (a.terminal == b.terminal && Precedes(a.scenario, b.scenario))
    || (a.terminal == b.terminal && a.scenario == b.scenario && Precedes(a.boundary, b.boundary))
  }

  predicate GroupBefore(a: Group, b: Group) {
    KeyBefore(a.key, b.key) || (a.key == b.key && Precedes(a.metric, b.metric))
  }

  /** `a` ends, or has the smaller character, where the two first differ. */
  predicate DifferAt(a: string, b: string, n: int) {
    0 <= n <= |a| && n < |b| && a[..n] == b[..n] && (n == |a| || a[n] < b[n])
  }

  lemma {:induction false} PrecedesMeans(a: string, b: string)
    ensures Precedes(a, b) <==> exists n :: DifferAt(a, b, n)
  {
    if a != [] && b != [] && a[0] == b[0] {
      PrecedesMeans(a[1..], b[1..]);
      if n :| DifferAt(a[1..], b[1..], n) {
        assert a[..n + 1] == [a[0]] + a[1..][..n] && b[..n + 1] == [b[0]] + b[1..][..n];
        assert DifferAt(a, b, n + 1);
      }
      if n :| DifferAt(a, b, n) {
        assert n > 0 && a[1..][..n - 1] == a[..n][1..] && b[1..][..n - 1] == b[..n][1..];
        assert DifferAt(a[1..], b[1..], n - 1);
      }
    } else if Precedes(a, b) {
      assert DifferAt(a, b, 0);
    } else {
      forall n
        ensures !DifferAt(a, b, n)
      {
        SamePrefix(a, b, n);
      }
    }
  }

  lemma SamePrefix(a: string, b: string, n: int)
    ensures 0 < n <= |a| && n <= |b| && a[..n] == b[..n] ==> a[0] == b[0]
  {
    if 0 < n <= |a| && n <= |b| {
      assert a[..n][0] == a[0] && b[..n][0] == b[0];
    }
  }

  /** Field by field: the first field in which the two differ decides. */
  predicate FieldsBefore(f: seq<string>, g: seq<string>) {
    exists i :: 0 <= i < |f| && i < |g| && f[..i] == g[..i] && Precedes(f[i], g[i])
  }

  /** Groups come in the order of terminal, scenario, boundary and metric. */
  lemma GroupsCompareByField(a: Group, b: Group)
    ensures GroupBefore(a, b) <==>
            FieldsBefore([a.key.terminal, a.key.scenario, a.key.boundary, a.metric],
                         [b.key.terminal, b.key.scenario, b.key.boundary, b.metric])
  {
    var f := [a.key.terminal, a.key.scenario, a.key.boundary, a.metric];
    var g := [b.key.terminal, b.key.scenario, b.key.boundary, b.metric];
    FirstField(f, g);
  }

  lemma FirstField(f: seq<string>, g: seq<string>)
    requires |f| == |g| == 4
    ensures FieldsBefore(f, g) <==>
      || Precedes(f[0], g[0])
      || (f[0] == g[0] && Precedes(f[1], g[1]))
      || (f[0] == g[0] && f[1] == g[1] && Precedes(f[2], g[2]))
      || (f[0] == g[0] && f[1] == g[1] && f[2] == g[2] && Precedes(f[3], g[3]))
  {
    assert f[..0] == g[..0];
    assert f[..1] == [f[0]] && g[..1] == [g[0]];
    assert f[..2] == [f[0], f[1]] && g[..2] == [g[0], g[1]];
    assert f[..3] == [f[0], f[1], f[2]] && g[..3] == [g[0], g[1], g[2]];
    if i :| 0 <= i < 4 && f[..i] == g[..i] && Precedes(f[i], g[i]) {
      assert i == 0 || i == 1 || i == 2 || i == 3;
    }
  }

  ghost predicate IsOrder<T(!new)>(before: (T, T) -> bool) {
    && (forall a, b :: a == b || before(a, b) || before(b, a))
    && (forall a, b :: before(a, b) ==> !before(b, a))
    && (forall a, b, c :: before(a, b) && before(b, c) ==> before(a, c))
  }

  lemma KeyBeforeIsTotal(a: Key, b: Key)
    ensures a == b || KeyBefore(a, b) || KeyBefore(b, a)
    ensures !(KeyBefore(a, b) && KeyBefore(b, a))
  {
    PrecedesIsTotal(a.terminal, b.terminal);
    PrecedesIsTotal(a.scenario, b.scenario);
    PrecedesIsTotal(a.boundary, b.boundary);
  }

  lemma KeyBeforeIsTransitive(a: Key, b: Key, c: Key)
    requires KeyBefore(a, b) && KeyBefore(b, c)
    ensures KeyBefore(a, c)
  {
    if Precedes(a.terminal, b.terminal) && Precedes(b.terminal, c.terminal) {
      PrecedesIsTransitive(a.terminal, b.terminal, c.terminal);
    } else if a.terminal == b.terminal == c.terminal {
      if Precedes(a.scenario, b.scenario) && Precedes(b.scenario, c.scenario) {
        PrecedesIsTransitive(a.scenario, b.scenario, c.scenario);
      } else if a.scenario == b.scenario == c.scenario {
        PrecedesIsTransitive(a.boundary, b.boundary, c.boundary);
      }
    }
  }

  lemma KeysAreOrdered()
    ensures IsOrder(KeyBefore)
  {
    forall a, b {
      KeyBeforeIsTotal(a, b);
    }
    forall a, b, c | KeyBefore(a, b) && KeyBefore(b, c)
      ensures KeyBefore(a, c)
    {
      KeyBeforeIsTransitive(a, b, c);
    }
  }

  lemma GroupBeforeIsTotal(a: Group, b: Group)
    ensures a == b || GroupBefore(a, b) || GroupBefore(b, a)
    ensures !(GroupBefore(a, b) && GroupBefore(b, a))
  {
    KeyBeforeIsTotal(a.key, b.key);
    PrecedesIsTotal(a.metric, b.metric);
  }

  lemma GroupBeforeIsTransitive(a: Group, b: Group, c: Group)
    requires GroupBefore(a, b) && GroupBefore(b, c)
    ensures GroupBefore(a, c)
  {
    if KeyBefore(a.key, b.key) && KeyBefore(b.key, c.key) {
      KeyBeforeIsTransitive(a.key, b.key, c.key);
    } else if a.key == b.key == c.key && Precedes(a.metric, b.metric) && Precedes(b.metric, c.metric) {
      PrecedesIsTransitive(a.metric, b.metric, c.metric);
    }
  }

  lemma GroupsAreOrdered()
    ensures IsOrder(GroupBefore)
  {
    forall a, b {
      GroupBeforeIsTotal(a, b);
    }
    forall a, b, c | GroupBefore(a, b) && GroupBefore(b, c)
      ensures GroupBefore(a, c)
    {
      GroupBeforeIsTransitive(a, b, c);
    }
  }

  ghost predicate Increasing<T(!new)>(s: seq<T>, before: (T, T) -> bool) {
    forall i, j :: 0 <= i < j < |s| ==> before(s[i], s[j])
  }

  method LeastOf<T(!new, ==)>(items: set<T>, before: (T, T) -> bool) returns (least: T)
    requires IsOrder(before) && items != {}
    ensures least in items && forall x :: x in items && x != least ==> before(least, x)
  {
    assert (forall x :: x !in items) ==> items == {};
    least :| least in items;
    var rest := items - {least};
    while rest != {}
      invariant rest <= items && least in items
      invariant forall x :: x in items - rest && x != least ==> before(least, x)
      decreases |rest|
    {
      assert (forall x :: x !in rest) ==> rest == {};
      var x :| x in rest;
      if before(x, least) {
        least := x;
      }
      rest := rest - {x};
    }
  }

  method SortedItems<T(!new, ==)>(items: set<T>, before: (T, T) -> bool) returns (list: seq<T>)
    requires IsOrder(before)
    ensures Increasing(list, before) && forall x :: x in list <==> x in items
  {
    list := [];
    var rest := items;
    while rest != {}
      invariant rest <= items
      invariant forall x :: x in list <==> x in items - rest
      invariant forall i, x :: 0 <= i < |list| && x in rest ==> before(list[i], x)
      invariant Increasing(list, before)
      decreases |rest|
    {
      var least := LeastOf(rest, before);
      list := list + [least];
      rest := rest - {least};
    }
  }

  // ----- What belongs to a group ------------------------------------------------------------------

  predicate Measures(sample: Sample, g: Group) {
    && sample.valid && sample.key == g.key
    && g.metric in sample.metrics && sample.metrics[g.metric].Number?
  }

  /** What one sample adds to a group. */
  function Reading(sample: Sample, g: Group): (numbers: seq<real>)
    ensures |numbers| <= 1
    ensures forall x :: numbers == [x] <==>
      sample.valid && sample.key == g.key && g.metric in sample.metrics && sample.metrics[g.metric] == Number(x)
  {
    if Measures(sample, g) then [sample.metrics[g.metric].number] else []
  }

  /** The numbers of a group, in the order of the samples. */
  function Readings(samples: seq<Sample>, g: Group): seq<real> {
    if samples == [] then []
    else Readings(samples[..|samples| - 1], g) + Reading(samples[|samples| - 1], g)
  }

  function InvalidOf(samples: seq<Sample>, key: Key): nat {
    if samples == [] then 0
    else
      var last := samples[|samples| - 1];
      InvalidOf(samples[..|samples| - 1], key) + if last.key == key && !last.valid then 1 else 0
  }

  ghost predicate Measured(samples: seq<Sample>, key: Key) {
    exists metric :: Readings(samples, Group(key, metric)) != []
  }

  /** A group has a row with its statistics; a key with invalid samples and no group has a row without. */
  ghost predicate IsRow(samples: seq<Sample>, row: Row) {
    && row.invalidSamples == InvalidOf(samples, row.key)
    && if row.metric.Some? then
         var readings := Readings(samples, Group(row.key, row.metric.value));
         readings != [] && row.statistics.Some? && Summarize(readings) == Success(row.statistics.value)
       else
         row.statistics.None? && row.invalidSamples > 0 && !Measured(samples, row.key)
  }

  /** Groups come before keys without one, both in the order of their names. */
  predicate RowBefore(a: Row, b: Row) {
    if a.metric.Some? && b.metric.Some? then
      GroupBefore(Group(a.key, a.metric.value), Group(b.key, b.metric.value))
    else if a.metric.None? && b.metric.None? then
      KeyBefore(a.key, b.key)
    else
      a.metric.Some?
  }

  ghost predicate IsReport(samples: seq<Sample>, rows: seq<Row>) {
    && Increasing(rows, RowBefore)
    && forall row :: row in rows <==> IsRow(samples, row)
  }

  // ----- Grouping -----------------------------------------------------------------------------------

  /** The list of a group: a missing entry stands for an empty list. */
  function Listed(groups: map<Group, seq<real>>, g: Group): seq<real> {
    if g in groups then groups[g] else []
  }

  predicate NoneEmpty(groups: map<Group, seq<real>>) {
    forall g :: g in groups ==> groups[g] != []
  }

  function Counted(invalid: map<Key, nat>, key: Key): nat {
    if key in invalid then invalid[key] else 0
  }

  method AddSample(before: map<Group, seq<real>>, sample: Sample) returns (groups: map<Group, seq<real>>)
    requires sample.valid && NoneEmpty(before)
    ensures NoneEmpty(groups)
    ensures forall g :: Listed(groups, g) == Listed(before, g) + Reading(sample, g)
  {
    groups := before;
    var names := sample.metrics.Keys;
    while names != {}
      invariant names <= sample.metrics.Keys && NoneEmpty(groups)
      invariant forall g: Group :: g.metric in names || !Measures(sample, g) ==> Listed(groups, g) == Listed(before, g)
      invariant forall g: Group :: g.metric !in names && Measures(sample, g) ==>
        Listed(groups, g) == Listed(before, g) + Reading(sample, g)
      decreases |names|
    {
      assert (forall x :: x !in names) ==> names == {};
      var metric :| metric in names;
      if sample.metrics[metric].Number? {
        var g := Group(sample.key, metric);
        groups := groups[g := Listed(groups, g) + [sample.metrics[metric].number]];
      }
      names := names - {metric};
    }
  }

  method GroupSamples(samples: seq<Sample>) returns (groups: map<Group, seq<real>>, invalid: map<Key, nat>)
    ensures forall g :: Listed(groups, g) == Readings(samples, g)
    ensures NoneEmpty(groups)
    ensures forall key :: Counted(invalid, key) == InvalidOf(samples, key)
    ensures forall key :: key in invalid ==> invalid[key] > 0
  {
    groups, invalid := map[], map[];
    for i := 0 to |samples|
      invariant forall g :: Listed(groups, g) == Readings(samples[..i], g)
      invariant NoneEmpty(groups)
      invariant forall key :: Counted(invalid, key) == InvalidOf(samples[..i], key)
      invariant forall key :: key in invalid ==> invalid[key] > 0
    {
      var sample := samples[i];
      assert samples[..i + 1][..i] == samples[..i];
      if !sample.valid {
        invalid := invalid[sample.key := Counted(invalid, sample.key) + 1];
      } else {
        groups := AddSample(groups, sample);
      }
    }
    assert samples[..|samples|] == samples;
  }

  // ----- The report -----------------------------------------------------------------------------------

  ghost predicate RowsOfGroups(samples: seq<Sample>, names: seq<Group>, rows: seq<Row>) {
    && |rows| == |names|
    && forall i :: 0 <= i < |rows| ==>
         IsRow(samples, rows[i]) && rows[i].key == names[i].key && rows[i].metric == Some(names[i].metric)
  }

  ghost predicate RowsOfKeys(samples: seq<Sample>, keys: seq<Key>, rows: seq<Row>) {
    && |rows| == |keys|
    && forall i :: 0 <= i < |rows| ==>
         IsRow(samples, rows[i]) && rows[i].key == keys[i] && rows[i].metric == None
  }

  /** Statistics and invalid count are determined by the name of a row. */
  lemma RowIsDetermined(samples: seq<Sample>, a: Row, b: Row)
    requires IsRow(samples, a) && IsRow(samples, b) && a.key == b.key && a.metric == b.metric
    ensures a == b
  {
  }

  lemma GroupRowIsListed(samples: seq<Sample>, names: seq<Group>, rows: seq<Row>, row: Row)
    requires RowsOfGroups(samples, names, rows) && IsRow(samples, row) && row.metric.Some?
    requires Group(row.key, row.metric.value) in names
    ensures row in rows
  {
    var i :| 0 <= i < |names| && names[i] == Group(row.key, row.metric.value);
    RowIsDetermined(samples, row, rows[i]);
  }

  lemma KeyRowIsListed(samples: seq<Sample>, keys: seq<Key>, rows: seq<Row>, row: Row)
    requires RowsOfKeys(samples, keys, rows) && IsRow(samples, row) && row.metric.None? && row.key in keys
    ensures row in rows
  {
    var i :| 0 <= i < |keys| && keys[i] == row.key;
    RowIsDetermined(samples, row, rows[i]);
  }

  lemma RowsIncrease(samples: seq<Sample>, names: seq<Group>, keys: seq<Key>, first: seq<Row>, second: seq<Row>)
    requires Increasing(names, GroupBefore) && Increasing(keys, KeyBefore)
    requires RowsOfGroups(samples, names, first) && RowsOfKeys(samples, keys, second)
    ensures Increasing(first + second, RowBefore)
  {
    var rows := first + second;
    forall i, j | 0 <= i < j < |rows|
      ensures RowBefore(rows[i], rows[j])
    {
      assert rows[i] == if i < |first| then first[i] else second[i - |first|];
      assert rows[j] == if j < |first| then first[j] else second[j - |first|];
      if j < |first| {
        assert GroupBefore(names[i], names[j]);
      } else if i >= |first| {
        assert KeyBefore(keys[i - |first|], keys[j - |first|]);
      }
    }
  }

  lemma RowsAreReport(samples: seq<Sample>, names: seq<Group>, keys: seq<Key>, first: seq<Row>, second: seq<Row>)
    requires Increasing(names, GroupBefore) && Increasing(keys, KeyBefore)
    requires forall g :: g in names <==> Readings(samples, g) != []
    requires forall key :: key in keys <==> InvalidOf(samples, key) > 0 && !Measured(samples, key)
    requires RowsOfGroups(samples, names, first) && RowsOfKeys(samples, keys, second)
    ensures IsReport(samples, first + second)
  {
    RowsIncrease(samples, names, keys, first, second);
    forall row | IsRow(samples, row)
      ensures row in first + second
    {
      if row.metric.Some? {
        GroupRowIsListed(samples, names, first, row);
      } else {
        KeyRowIsListed(samples, keys, second, row);
      }
    }
  }

  lemma RepresentedIsMeasured(samples: seq<Sample>, names: seq<Group>, represented: set<Key>, key: Key)
    requires forall g :: g in names <==> Readings(samples, g) != []
    requires Represents(represented, names)
    ensures key in represented <==> Measured(samples, key)
  {
    if key in represented {
      var i :| 0 <= i < |names| && names[i].key == key;
      assert names[i] in names && names[i] == Group(key, names[i].metric);
    }
    if Measured(samples, key) {
      var metric :| Readings(samples, Group(key, metric)) != [];
      assert Group(key, metric) in names;
    }
  }

  ghost predicate Counts(samples: seq<Sample>, invalid: map<Key, nat>) {
    forall key :: Counted(invalid, key) == InvalidOf(samples, key)
  }

  method GroupRow(ghost samples: seq<Sample>, g: Group, readings: seq<real>, count: nat) returns (row: Row)
    requires readings != [] && readings == Readings(samples, g) && count == InvalidOf(samples, g.key)
    ensures IsRow(samples, row) && row.key == g.key && row.metric == Some(g.metric)
  {
    row := Row(g.key, Some(g.metric), Some(Summarize(readings).value), count);
  }

  ghost predicate Represents(represented: set<Key>, names: seq<Group>) {
    forall key :: key in represented <==> exists k :: 0 <= k < |names| && names[k].key == key
  }

  lemma RepresentsOneMore(represented: set<Key>, names: seq<Group>, i: nat)
    requires i < |names| && Represents(represented, names[..i])
    ensures Represents(represented + {names[i].key}, names[..i + 1])
  {
    var more := names[..i + 1];
    assert forall k :: 0 <= k < i ==> more[k] == names[..i][k];
    assert more[i] == names[i];
  }

  /** Every count is positive but the zeros entered for represented keys. */
  predicate Live(invalid: map<Key, nat>, represented: set<Key>) {
    forall key :: key in invalid ==> invalid[key] > 0 || key in represented
  }

  /** Reading a missing count enters a zero. */
  method ReadCount(ghost samples: seq<Sample>, before: map<Key, nat>, key: Key, ghost represented: set<Key>)
    returns (count: nat, invalid: map<Key, nat>)
    requires Counts(samples, before) && Live(before, represented) && key in represented
    ensures count == InvalidOf(samples, key) && Counts(samples, invalid) && Live(invalid, represented)
  {
    assert Counted(before, key) == InvalidOf(samples, key);
    invalid := before;
    if key !in invalid {
      invalid := invalid[key := 0];
    }
    count := invalid[key];
    assert forall k :: Counted(invalid, k) == Counted(before, k);
  }

  lemma RowsOneMore(samples: seq<Sample>, names: seq<Group>, i: nat, rows: seq<Row>, row: Row)
    requires i < |names| && RowsOfGroups(samples, names[..i], rows)
    requires IsRow(samples, row) && row.key == names[i].key && row.metric == Some(names[i].metric)
    ensures RowsOfGroups(samples, names[..i + 1], rows + [row])
  {
    var more := rows + [row];
    forall k | 0 <= k < |more|
      ensures IsRow(samples, more[k]) && more[k].key == names[k].key && more[k].metric == Some(names[k].metric)
    {
      assert k < i ==> more[k] == rows[k] && names[..i][k] == names[k];
    }
  }

  /** One row for each group. */
  method RowsForGroups(ghost samples: seq<Sample>, groups: map<Group, seq<real>>, names: seq<Group>,
                       before: map<Key, nat>)
    returns (rows: seq<Row>, represented: set<Key>, invalid: map<Key, nat>)
    requires forall g :: g in names ==> g in groups && groups[g] != [] && groups[g] == Readings(samples, g)
    requires Counts(samples, before) && Live(before, {})
    ensures RowsOfGroups(samples, names, rows)
    ensures Represents(represented, names) && Counts(samples, invalid) && Live(invalid, represented)
  {
    rows, represented, invalid := [], {}, before;
    for i := 0 to |names|
      invariant RowsOfGroups(samples, names[..i], rows)
      invariant Represents(represented, names[..i])
      invariant Counts(samples, invalid) && Live(invalid, represented)
    {
      var g := names[i];
      assert g in names;
      RepresentsOneMore(represented, names, i);
      represented := represented + {g.key};
      var count;
      count, invalid := ReadCount(samples, invalid, g.key, represented);
      var row := GroupRow(samples, g, groups[g], count);
      RowsOneMore(samples, names, i, rows, row);
      rows := rows + [row];
    }
    assert names[..|names|] == names;
  }

  /** One row for each key that has only invalid samples. */
  method RowsForKeys(ghost samples: seq<Sample>, keys: seq<Key>, invalid: map<Key, nat>) returns (rows: seq<Row>)
    requires Counts(samples, invalid) && forall key :: key in keys ==> key in invalid
    requires forall key :: key in keys ==> InvalidOf(samples, key) > 0 && !Measured(samples, key)
    ensures RowsOfKeys(samples, keys, rows)
  {
    rows := [];
    for i := 0 to |keys|
      invariant RowsOfKeys(samples, keys[..i], rows)
    {
      assert keys[i] in keys && Counted(invalid, keys[i]) == InvalidOf(samples, keys[i]);
      rows := rows + [Row(keys[i], None, None, invalid[keys[i]])];
    }
    assert keys[..|keys|] == keys;
  }

  /** Every group and every key with invalid samples is reported, exactly once and in order. */
  method SummarizeSamples(samples: seq<Sample>) returns (rows: seq<Row>)
    ensures IsReport(samples, rows)
  {
    var groups, invalid := GroupSamples(samples);
    GroupsAreOrdered();
    var names := SortedItems(groups.Keys, GroupBefore);
    forall g
      ensures g in names <==> Readings(samples, g) != []
      ensures g in names ==> g in groups && groups[g] != [] && groups[g] == Readings(samples, g)
    {
      assert Listed(groups, g) == Readings(samples, g);
    }
    var first, represented, counts := RowsForGroups(samples, groups, names, invalid);
    KeysAreOrdered();
    var keys := SortedItems(counts.Keys - represented, KeyBefore);
    forall key
      ensures key in keys <==> InvalidOf(samples, key) > 0 && !Measured(samples, key)
    {
      RepresentedIsMeasured(samples, names, represented, key);
      assert Counted(counts, key) == InvalidOf(samples, key);
    }
    var second := RowsForKeys(samples, keys, counts);
    RowsAreReport(samples, names, keys, first, second);
    rows := first + second;
  }

  // ----- Laws of the report -----------------------------------------------------------------------------

  lemma RowBeforeIsStrict(a: Row, b: Row)
    ensures !(RowBefore(a, b) && RowBefore(b, a))
  {
    KeyBeforeIsTotal(a.key, b.key);
    if a.metric.Some? && b.metric.Some? {
      GroupBeforeIsTotal(Group(a.key, a.metric.value), Group(b.key, b.metric.value));
    }
  }

  lemma RestOfRows(rows: seq<Row>, row: Row)
    requires rows != [] && Increasing(rows, RowBefore)
    ensures row in rows[1..] <==> row in rows && row != rows[0]
  {
    if row in rows[1..] {
      var k :| 0 <= k < |rows[1..]| && rows[1..][k] == row;
      assert rows[k + 1] == row;
      RowBeforeIsStrict(rows[0], row);
    }
    assert rows == [rows[0]] + rows[1..];
  }

  lemma {:induction false} IncreasingIsUnique(a: seq<Row>, b: seq<Row>)
    requires Increasing(a, RowBefore) && Increasing(b, RowBefore)
    requires forall row :: row in a <==> row in b
    ensures a == b
  {
    assert a != [] ==> a[0] in b;
    assert b != [] ==> b[0] in a;
    if a != [] {
      assert a[0] in b;
      assert b[0] in a;
      var i :| 0 <= i < |b| && b[i] == a[0];
      var j :| 0 <= j < |a| && a[j] == b[0];
      RowBeforeIsStrict(a[0], b[0]);
      assert a[0] == b[0];
      forall row
        ensures row in a[1..] <==> row in b[1..]
      {
        RestOfRows(a, row);
        RestOfRows(b, row);
      }
      IncreasingIsUnique(a[1..], b[1..]);
      assert a == [a[0]] + a[1..] && b == [b[0]] + b[1..];
    }
  }

  lemma InitOfSum(a: seq<Sample>, b: seq<Sample>)
    requires b != []
    ensures (a + b)[..|a + b| - 1] == a + b[..|b| - 1] && (a + b)[|a + b| - 1] == b[|b| - 1]
  {
  }

  lemma Regroup(x: seq<real>, y: seq<real>, z: seq<real>)
    ensures (x + y) + z == x + (y + z)
  {
  }

  lemma {:induction false} ReadingsJoin(a: seq<Sample>, b: seq<Sample>, g: Group)
    ensures Readings(a + b, g) == Readings(a, g) + Readings(b, g)
  {
    if b == [] {
      assert a + b == a;
    } else {
      var shorter := b[..|b| - 1];
      ReadingsJoin(a, shorter, g);
      InitOfSum(a, b);
      Regroup(Readings(a, g), Readings(shorter, g), Reading(b[|b| - 1], g));
    }
  }

  lemma {:induction false} InvalidJoin(a: seq<Sample>, b: seq<Sample>, key: Key)
    ensures InvalidOf(a + b, key) == InvalidOf(a, key) + InvalidOf(b, key)
  {
    if b == [] {
      assert a + b == a;
    } else {
      InvalidJoin(a, b[..|b| - 1], key);
      InitOfSum(a, b);
    }
  }

  /** Taking one sample out of the middle takes out its reading. */
  lemma TakeOut(a: seq<Sample>, x: Sample, b: seq<Sample>, g: Group)
    ensures multiset(Readings(a + ([x] + b), g)) == multiset(Readings(a + b, g)) + multiset(Readings([x], g))
  {
    ReadingsJoin(a, [x] + b, g);
    ReadingsJoin([x], b, g);
    ReadingsJoin(a, b, g);
    BagsJoin(Readings(a, g), Readings([x], g), Readings(b, g));
  }

  lemma TakeOutInvalid(a: seq<Sample>, x: Sample, b: seq<Sample>, key: Key)
    ensures InvalidOf(a + ([x] + b), key) == InvalidOf(a + b, key) + InvalidOf([x], key)
  {
    InvalidJoin(a, [x] + b, key);
    InvalidJoin([x], b, key);
    InvalidJoin(a, b, key);
  }

  lemma BagsJoin(a: seq<real>, x: seq<real>, b: seq<real>)
    ensures multiset(a + (x + b)) == multiset(a + b) + multiset(x)
  {
  }

  lemma BagWithout(a: seq<Sample>, x: Sample, b: seq<Sample>)
    ensures multiset(a + b) == multiset(a + ([x] + b)) - multiset{x}
  {
  }

  lemma Locate(s: seq<Sample>, t: seq<Sample>) returns (a: seq<Sample>, b: seq<Sample>)
    requires s != [] && multiset(s) == multiset(t)
    ensures t == a + ([s[0]] + b) && multiset(s[1..]) == multiset(a + b)
  {
    assert s[0] in multiset(t);
    assert s[0] in t;
    var i :| 0 <= i < |t| && t[i] == s[0];
    a, b := t[..i], t[i + 1..];
    assert t == a + ([s[0]] + b);
    assert s == [] + ([s[0]] + s[1..]) && [] + s[1..] == s[1..];
    BagWithout(a, s[0], b);
    BagWithout([], s[0], s[1..]);
  }

  lemma FirstAndRest(s: seq<Sample>)
    requires s != []
    ensures s == [] + ([s[0]] + s[1..]) && s[1..] == [] + s[1..]
  {
  }

  lemma {:induction false} ShuffleKeepsReadings(s: seq<Sample>, t: seq<Sample>, g: Group)
    requires multiset(s) == multiset(t)
    ensures multiset(Readings(s, g)) == multiset(Readings(t, g))
    decreases |s|
  {
    if s == [] {
      assert |multiset(t)| == 0;
    } else {
      var a, b := Locate(s, t);
      ShuffleKeepsReadings(s[1..], a + b, g);
      FirstAndRest(s);
      TakeOut(a, s[0], b, g);
      TakeOut([], s[0], s[1..], g);
    }
  }

  lemma {:induction false} ShuffleKeepsInvalid(s: seq<Sample>, t: seq<Sample>, key: Key)
    requires multiset(s) == multiset(t)
    ensures InvalidOf(s, key) == InvalidOf(t, key)
    decreases |s|
  {
    if s == [] {
      assert |multiset(t)| == 0;
    } else {
      var a, b := Locate(s, t);
      ShuffleKeepsInvalid(s[1..], a + b, key);
      FirstAndRest(s);
      TakeOutInvalid(a, s[0], b, key);
      TakeOutInvalid([], s[0], s[1..], key);
    }
  }

  lemma ShuffleKeepsMeasured(s: seq<Sample>, t: seq<Sample>, key: Key)
    requires multiset(s) == multiset(t) && Measured(s, key)
    ensures Measured(t, key)
  {
    var metric :| Readings(s, Group(key, metric)) != [];
    ShuffleKeepsReadings(s, t, Group(key, metric));
    assert |multiset(Readings(t, Group(key, metric)))| == |multiset(Readings(s, Group(key, metric)))|;
  }

  lemma ShuffleKeepsRows(s: seq<Sample>, t: seq<Sample>, row: Row)
    requires multiset(s) == multiset(t) && IsRow(s, row)
    ensures IsRow(t, row)
  {
    var g := Group(row.key, if row.metric.Some? then row.metric.value else "");
    ShuffleKeepsReadings(s, t, g);
    ShuffleKeepsInvalid(s, t, row.key);
    OrderIsIrrelevant(Readings(s, g), Readings(t, g));
    if Measured(t, row.key) {
      ShuffleKeepsMeasured(t, s, row.key);
    }
    assert |multiset(Readings(t, g))| == |multiset(Readings(s, g))|;
  }

  /** The report depends on which samples there are, not on their order, and there is only one. */
  lemma ReportIgnoresOrder(s: seq<Sample>, t: seq<Sample>, a: seq<Row>, b: seq<Row>)
    requires multiset(s) == multiset(t) && IsReport(s, a) && IsReport(t, b)
    ensures a == b
  {
    forall row
      ensures row in a <==> row in b
    {
      if row in a {
        ShuffleKeepsRows(s, t, row);
      }
      if row in b {
        ShuffleKeepsRows(t, s, row);
      }
    }
    IncreasingIsUnique(a, b);
  }

  /** The samples that measure a group. */
  ghost function Sources(samples: seq<Sample>, g: Group): set<nat> {
    set i: nat | i < |samples| && Measures(samples[i], g)
  }

  lemma {:induction false} ReadingsCount(samples: seq<Sample>, g: Group)
    ensures |Readings(samples, g)| == |Sources(samples, g)|
  {
    if samples == [] {
      assert Sources(samples, g) == {};
    } else {
      var n := |samples| - 1;
      ReadingsCount(samples[..n], g);
      SourcesGrow(samples, n, g);
    }
  }

  lemma SourcesGrow(samples: seq<Sample>, n: nat, g: Group)
    requires |samples| == n + 1
    ensures var fewer := Sources(samples[..n], g);
      n !in fewer && Sources(samples, g) == if Measures(samples[n], g) then fewer + {n} else fewer
  {
    assert forall i :: 0 <= i < n ==> samples[..n][i] == samples[i];
  }

  lemma {:induction false} ReadingIsKept(samples: seq<Sample>, i: nat, g: Group)
    requires i < |samples| && Measures(samples[i], g)
    ensures samples[i].metrics[g.metric].number in Readings(samples, g)
  {
    if i < |samples| - 1 {
      ReadingIsKept(samples[..|samples| - 1], i, g);
    }
  }

  /** No valid number is lost: it has a row, which counts every sample that has the metric and whose
      extremes bound the number. */
  lemma NoReadingIsLost(samples: seq<Sample>, rows: seq<Row>, i: nat, g: Group) returns (row: Row)
    requires IsReport(samples, rows) && i < |samples| && Measures(samples[i], g)
    ensures row in rows && row.key == g.key && row.metric == Some(g.metric) && row.statistics.Some?
    ensures row.statistics.value.count == |Sources(samples, g)|
    ensures row.statistics.value.min <= samples[i].metrics[g.metric].number <= row.statistics.value.max
  {
    var readings := Readings(samples, g);
    ReadingIsKept(samples, i, g);
    ReadingsCount(samples, g);
    ExtremesBound(readings);
    StatisticsAreOrdered(readings);
    row := Row(g.key, Some(g.metric), Some(Summarize(readings).value), InvalidOf(samples, g.key));
    assert IsRow(samples, row);
  }

  ghost function Rejected(samples: seq<Sample>, key: Key): set<nat> {
    set i: nat | i < |samples| && samples[i].key == key && !samples[i].valid
  }

  lemma {:induction false} InvalidCount(samples: seq<Sample>, key: Key)
    ensures InvalidOf(samples, key) == |Rejected(samples, key)|
  {
    if samples == [] {
      assert Rejected(samples, key) == {};
    } else {
      var n := |samples| - 1;
      InvalidCount(samples[..n], key);
      RejectedGrows(samples, n, key);
    }
  }

  lemma RejectedGrows(samples: seq<Sample>, n: nat, key: Key)
    requires |samples| == n + 1
    ensures var fewer := Rejected(samples[..n], key);
      && n !in fewer
      && Rejected(samples, key) == if samples[n].key == key && !samples[n].valid then fewer + {n} else fewer
  {
    assert forall i :: 0 <= i < n ==> samples[..n][i] == samples[i];
  }

  /** Every key with invalid samples has a row, and every row of the key carries their number. */
  lemma InvalidIsReported(samples: seq<Sample>, rows: seq<Row>, key: Key)
    requires IsReport(samples, rows)
    ensures Rejected(samples, key) != {} ==> exists row :: row in rows && row.key == key
    ensures forall row :: row in rows && row.key == key ==> row.invalidSamples == |Rejected(samples, key)|
  {
    InvalidCount(samples, key);
    if Rejected(samples, key) != {} {
      if Measured(samples, key) {
        var metric :| Readings(samples, Group(key, metric)) != [];
        var readings := Readings(samples, Group(key, metric));
        var row := Row(key, Some(metric), Some(Summarize(readings).value), InvalidOf(samples, key));
        assert IsRow(samples, row);
        assert row in rows;
      } else {
        var row := Row(key, None, None, InvalidOf(samples, key));
        assert IsRow(samples, row);
        assert row in rows;
      }
    }
  }
}
