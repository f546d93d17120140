/** From per-column points back to records: classify, merge, sort stably by time and group. */
module CsvImport {
  import opened Slices
  import opened Wrappers
  import opened CsvSplit
  import opened CsvRows

  datatype Field = NumberField(column: nat, number: real) | TextField(column: nat, text: string)

  datatype Point = Point(ts: int, field: Field)

  datatype Record = Record(ts: int, fields: seq<Field>)

  /** static_cast<int64_t>(t * 1e9): any function. */
  type Clock = real -> int

  // ----- classification -----

  predicate IsData(config: Config, column: nat) {
    !(config.timeColumn >= 0 && config.timeColumn == column) && !IsComponent(config, column)
  }

  /** A column with any number is numeric, and so is one without points. */
  predicate IsNumeric(c: Column) {
    c.numbers != [] || c.texts == []
  }

  ghost predicate InRange(indices: seq<nat>, width: nat) {
    forall i :: 0 <= i < |indices| ==> indices[i] < width
  }

  /** The data columns among the first k of the given class, ascending. */
  function ColumnsOf(config: Config, columns: seq<Column>, numeric: bool, k: nat): (r: seq<nat>)
    requires k <= |columns|
    ensures InRange(r, k)
  {
    if k == 0 then []
    else
      ColumnsOf(config, columns, numeric, k - 1)
      + if IsData(config, k - 1) && IsNumeric(columns[k - 1]) == numeric then [k - 1] else []
  }

  ghost predicate Ascends(indices: seq<nat>) {
    forall i, j :: 0 <= i < j < |indices| ==> indices[i] < indices[j]
  }

  lemma OneMoreColumn(front: seq<nat>, k: nat)
    requires InRange(front, k) && Ascends(front)
    ensures Ascends(front + [k])
  {
  }

  lemma {:induction false} ColumnsAscend(config: Config, columns: seq<Column>, numeric: bool, k: nat)
    requires k <= |columns|
    ensures Ascends(ColumnsOf(config, columns, numeric, k))
  {
    if k > 0 {
      var front := ColumnsOf(config, columns, numeric, k - 1);
      ColumnsAscend(config, columns, numeric, k - 1);
      OneMoreColumn(front, k - 1);
      NothingAfter(front, []);
    }
  }

  lemma {:induction false} InColumns(config: Config, columns: seq<Column>, numeric: bool, k: nat, c: nat)
    requires k <= |columns|
    ensures c in ColumnsOf(config, columns, numeric, k)
            <==> c < k && IsData(config, c) && IsNumeric(columns[c]) == numeric
  {
    if k > 0 {
      InColumns(config, columns, numeric, k - 1, c);
    }
  }

  /** Every data column is in exactly one of the two ascending lists, and no other column is. */
  lemma ColumnsOfExactly(config: Config, columns: seq<Column>, numeric: bool, k: nat)
    requires k <= |columns|
    ensures var r := ColumnsOf(config, columns, numeric, k);
            && Ascends(r)
            && (forall c: nat :: c in r <==> c < k && IsData(config, c) && IsNumeric(columns[c]) == numeric)
  {
    ColumnsAscend(config, columns, numeric, k);
    forall c: nat
      ensures c in ColumnsOf(config, columns, numeric, k)
              <==> c < k && IsData(config, c) && IsNumeric(columns[c]) == numeric
    {
      InColumns(config, columns, numeric, k, c);
    }
  }

  method ClassifyColumns(config: Config, columns: seq<Column>) returns (numeric: seq<nat>, texts: seq<nat>)
    ensures numeric == ColumnsOf(config, columns, true, |columns|)
    ensures texts == ColumnsOf(config, columns, false, |columns|)
  {
    numeric, texts := [], [];
    for i := 0 to |columns|
      invariant numeric == ColumnsOf(config, columns, true, i) && texts == ColumnsOf(config, columns, false, i)
    {
      if (config.timeColumn >= 0 && config.timeColumn == i) || IsComponent(config, i) {
        continue;
      }
      var hasNumbers, hasTexts := columns[i].numbers != [], columns[i].texts != [];
      if hasNumbers {
        numeric := numeric + [i];
      } else if hasTexts {
        texts := texts + [i];
      }
      if !hasNumbers && !hasTexts {
        numeric := numeric + [i];
      }
    }
  }

  // ----- merging -----

  function NumberPoints(ns: Clock, numbers: seq<(real, real)>, column: nat): seq<Point> {
    if numbers == [] then []
    else
      var last := numbers[|numbers| - 1];
      NumberPoints(ns, numbers[..|numbers| - 1], column) + [Point(ns(last.0), NumberField(column, last.1))]
  }

  function TextPoints(ns: Clock, texts: seq<(real, string)>, column: nat): seq<Point> {
    if texts == [] then []
    else
      var last := texts[|texts| - 1];
      TextPoints(ns, texts[..|texts| - 1], column) + [Point(ns(last.0), TextField(column, last.1))]
  }

  /** The points of the listed columns, column by column. */
  function Merged(ns: Clock, columns: seq<Column>, indices: seq<nat>, numeric: bool): seq<Point>
    requires InRange(indices, |columns|)
  {
    if indices == [] then []
    else
      var last := indices[|indices| - 1];
      Merged(ns, columns, indices[..|indices| - 1], numeric)
      + if numeric then NumberPoints(ns, columns[last].numbers, last) else TextPoints(ns, columns[last].texts, last)
  }

  /** All kept points: numeric columns first, then text columns. */
  function AllPoints(ns: Clock, config: Config, columns: seq<Column>): seq<Point> {
    Merged(ns, columns, ColumnsOf(config, columns, true, |columns|), true)
    + Merged(ns, columns, ColumnsOf(config, columns, false, |columns|), false)
  }

  method AppendNumbers(ns: Clock, numbers: seq<(real, real)>, column: nat, points: seq<Point>)
    returns (points': seq<Point>)
    ensures points' == points + NumberPoints(ns, numbers, column)
  {
    points' := points;
    for i := 0 to |numbers|
      invariant points' == points + NumberPoints(ns, numbers[..i], column)
    {
      PrefixOfPrefix(numbers, i + 1, i);
      points' := points' + [Point(ns(numbers[i].0), NumberField(column, numbers[i].1))];
    }
    Whole(numbers);
  }

  method AppendTexts(ns: Clock, texts: seq<(real, string)>, column: nat, points: seq<Point>)
    returns (points': seq<Point>)
    ensures points' == points + TextPoints(ns, texts, column)
  {
    points' := points;
    for i := 0 to |texts|
      invariant points' == points + TextPoints(ns, texts[..i], column)
    {
      PrefixOfPrefix(texts, i + 1, i);
      points' := points' + [Point(ns(texts[i].0), TextField(column, texts[i].1))];
    }
    Whole(texts);
  }

  method MergePoints(ns: Clock, columns: seq<Column>, numeric: seq<nat>, texts: seq<nat>) returns (points: seq<Point>)
    requires InRange(numeric, |columns|) && InRange(texts, |columns|)
    ensures points == Merged(ns, columns, numeric, true) + Merged(ns, columns, texts, false)
  {
    points := [];
    for i := 0 to |numeric|
      invariant points == Merged(ns, columns, numeric[..i], true)
    {
      PrefixOfPrefix(numeric, i + 1, i);
      points := AppendNumbers(ns, columns[numeric[i]].numbers, numeric[i], points);
    }
    Whole(numeric);
    for i := 0 to |texts|
      invariant points == Merged(ns, columns, numeric, true) + Merged(ns, columns, texts[..i], false)
    {
      PrefixOfPrefix(texts, i + 1, i);
      points := AppendTexts(ns, columns[texts[i]].texts, texts[i], points);
    }
    Whole(texts);
  }

  // ----- stable sorting -----

  ghost predicate Sorted(points: seq<Point>) {
    forall i, j :: 0 <= i < j < |points| ==> points[i].ts <= points[j].ts
  }

  function FieldAt(p: Point, ts: int): seq<Field> {
    if p.ts == ts then [p.field] else []
  }

  /** The fields stamped `ts`, in order. */
  function FieldsAt(points: seq<Point>, ts: int): seq<Field> {
    if points == [] then [] else FieldsAt(points[..|points| - 1], ts) + FieldAt(points[|points| - 1], ts)
  }

  lemma LastPoint(points: seq<Point>, p: Point, ts: int)
    ensures Same(FieldsAt(points + [p], ts), FieldsAt(points, ts) + FieldAt(p, ts))
  {
    CutConcat(points, [p]);
  }

  lemma {:induction false} FieldsAtConcat(a: seq<Point>, b: seq<Point>, ts: int)
    ensures FieldsAt(a + b, ts) == FieldsAt(a, ts) + FieldsAt(b, ts)
  {
    if b == [] {
      assert a + b == a;
    } else {
      assert (a + b)[..|a + b| - 1] == a + b[..|b| - 1];
      FieldsAtConcat(a, b[..|b| - 1], ts);
    }
  }

  /** Puts p after every point that is not later. */
  function Insert(sorted: seq<Point>, p: Point): (r: seq<Point>) {
    if sorted == [] || sorted[|sorted| - 1].ts <= p.ts then sorted + [p]
    else Insert(sorted[..|sorted| - 1], p) + [sorted[|sorted| - 1]]
  }

  /** std::stable_sort by timestamp. */
  function StableSort(points: seq<Point>): seq<Point> {
    if points == [] then [] else Insert(StableSort(points[..|points| - 1]), points[|points| - 1])
  }

  ghost predicate NoLater(points: seq<Point>, ts: int) {
    forall i :: 0 <= i < |points| ==> points[i].ts <= ts
  }

  lemma {:induction false} InsertStaysEarly(sorted: seq<Point>, p: Point, ts: int)
    requires NoLater(sorted, ts) && p.ts <= ts
    ensures NoLater(Insert(sorted, p), ts)
  {
    if sorted != [] && sorted[|sorted| - 1].ts > p.ts {
      InsertStaysEarly(sorted[..|sorted| - 1], p, ts);
    }
  }

  lemma {:induction false} InsertSorts(sorted: seq<Point>, p: Point)
    requires Sorted(sorted)
    ensures Sorted(Insert(sorted, p))
  {
    if sorted != [] && sorted[|sorted| - 1].ts > p.ts {
      var front, last := sorted[..|sorted| - 1], sorted[|sorted| - 1];
      InsertSorts(front, p);
      InsertStaysEarly(front, p, last.ts);
    }
  }

  lemma {:induction false} InsertPermutes(sorted: seq<Point>, p: Point)
    ensures multiset(Insert(sorted, p)) == multiset(sorted) + multiset{p}
  {
    if sorted != [] && sorted[|sorted| - 1].ts > p.ts {
      InsertPermutes(sorted[..|sorted| - 1], p);
      LastOff(sorted);
    }
  }

  lemma {:induction false} InsertKeepsFields(sorted: seq<Point>, p: Point, ts: int)
    requires Sorted(sorted)
    ensures Same(FieldsAt(Insert(sorted, p), ts), FieldsAt(sorted, ts) + FieldAt(p, ts))
  {
    if sorted != [] && sorted[|sorted| - 1].ts > p.ts {
      var front, last := sorted[..|sorted| - 1], sorted[|sorted| - 1];
      InsertKeepsFields(front, p, ts);
      LastPoint(Insert(front, p), last, ts);
      SwapEnds(FieldsAt(front, ts), last, p, ts);
    } else {
      LastPoint(sorted, p, ts);
    }
  }

  /** Points with different timestamps can change places. */
  lemma SwapEnds(front: seq<Field>, a: Point, b: Point, ts: int)
    requires a.ts != b.ts
    ensures Same(front + FieldAt(a, ts) + FieldAt(b, ts), front + FieldAt(b, ts) + FieldAt(a, ts))
  {
    if a.ts != ts {
      SameIf(front + [] + FieldAt(b, ts), front + FieldAt(b, ts) + []);
    } else {
      SameIf(front + FieldAt(a, ts) + [], front + [] + FieldAt(a, ts));
    }
  }

  /** Sorting permutes the points. */
  lemma {:induction false} StableSortSorts(points: seq<Point>)
    ensures Sorted(StableSort(points)) && multiset(StableSort(points)) == multiset(points)
  {
    if points != [] {
      var front, last := points[..|points| - 1], points[|points| - 1];
      StableSortSorts(front);
      InsertSorts(StableSort(front), last);
      InsertPermutes(StableSort(front), last);
      assert points == front + [last];
    }
  }

  /** Points with the same timestamp keep their order. */
  lemma {:induction false} StableSortIsStable(points: seq<Point>, ts: int)
    ensures FieldsAt(StableSort(points), ts) == FieldsAt(points, ts)
  {
    if points != [] {
      var front, last := points[..|points| - 1], points[|points| - 1];
      StableSortIsStable(front, ts);
      StableSortSorts(front);
      InsertKeepsFields(StableSort(front), last, ts);
    }
  }

  // ----- grouping -----

  function Fields(points: seq<Point>): (r: seq<Field>)
    ensures |r| == |points|
  {
    seq(|points|, i requires 0 <= i < |points| => points[i].field)
  }

  /** Length of the leading run of one timestamp. */
  function RunLength(points: seq<Point>, ts: int): (n: nat)
    ensures n <= |points|
    ensures points != [] && points[0].ts == ts ==> n > 0
  {
    if points == [] || points[0].ts != ts then 0 else 1 + RunLength(points[1..], ts)
  }

  lemma {:induction false} RunLengthIs(points: seq<Point>, ts: int)
    ensures var n := RunLength(points, ts);
            && (forall i :: 0 <= i < n ==> points[i].ts == ts)
            && (n < |points| ==> points[n].ts != ts)
  {
    if points != [] && points[0].ts == ts {
      RunLengthIs(points[1..], ts);
    }
  }

  /** One record per run of equal timestamps. */
  function Groups(points: seq<Point>): seq<Record>
    decreases |points|
  {
    if points == [] then []
    else
      var n := RunLength(points, points[0].ts);
      [Record(points[0].ts, Fields(points[..n]))] + Groups(points[n..])
  }

  lemma GroupsFrom(points: seq<Point>, start: nat, end: nat)
    requires start < end <= |points| && end - start == RunLength(points[start..], points[start].ts)
    ensures Same(Groups(points[start..]),
                 [Record(points[start].ts, Fields(points[start..end]))] + Groups(points[end..]))
  {
    SplitFirstRun(points[start..], end - start);
    SliceOfSuffix(points, start, 0, end - start);
    SuffixOfSuffix(points, start, end - start);
  }

  lemma SplitFirstRun(points: seq<Point>, n: nat)
    requires points != [] && n == RunLength(points, points[0].ts)
    ensures Same(points, points[..n] + points[n..])
    ensures Same(Groups(points), [Record(points[0].ts, Fields(points[..n]))] + Groups(points[n..]))
  {
    SplitJoin(points, n);
  }

  function Stamped(ts: int, fields: seq<Field>): (r: seq<Point>)
    ensures |r| == |fields|
  {
    seq(|fields|, i requires 0 <= i < |fields| => Point(ts, fields[i]))
  }

  /** The points of a record list, in order. */
  function Flattened(records: seq<Record>): seq<Point> {
    if records == [] then [] else Stamped(records[0].ts, records[0].fields) + Flattened(records[1..])
  }

  lemma StampedRun(points: seq<Point>, ts: int)
    requires forall i :: 0 <= i < |points| ==> points[i].ts == ts
    ensures Stamped(ts, Fields(points)) == points
  {
  }

  lemma FlattenedCons(r: Record, rest: seq<Record>)
    ensures Flattened([r] + rest) == Stamped(r.ts, r.fields) + Flattened(rest)
  {
    assert ([r] + rest)[1..] == rest;
  }

  /** Grouping loses, adds and reorders nothing. */
  lemma {:induction false} FlattenedGroups(points: seq<Point>)
    decreases |points|
    ensures Flattened(Groups(points)) == points
  {
    if points != [] {
      var ts := points[0].ts;
      var n := RunLength(points, ts);
      FlattenedGroups(points[n..]);
      SplitFirstRun(points, n);
      RunLengthIs(points, ts);
      StampedRun(points[..n], ts);
      FlattenedCons(Record(ts, Fields(points[..n])), Groups(points[n..]));
    }
  }

  ghost predicate Increasing(records: seq<Record>) {
    forall i, j :: 0 <= i < j < |records| ==> records[i].ts < records[j].ts
  }

  lemma {:induction false} FieldsAtRun(points: seq<Point>, ts: int)
    ensures (forall i :: 0 <= i < |points| ==> points[i].ts == ts) ==> FieldsAt(points, ts) == Fields(points)
    ensures (forall i :: 0 <= i < |points| ==> points[i].ts != ts) ==> FieldsAt(points, ts) == []
  {
    if points != [] {
      FieldsAtRun(points[..|points| - 1], ts);
    }
  }

  /** The record holds every field stamped with its time, and there is one. */
  ghost predicate IsGroup(r: Record, points: seq<Point>) {
    r.fields == FieldsAt(points, r.ts) && r.fields != []
  }

  /** One record per timestamp that occurs, in increasing order, each complete. */
  ghost predicate AreGroups(records: seq<Record>, points: seq<Point>) {
    && Increasing(records)
    && (forall i :: 0 <= i < |records| ==> IsGroup(records[i], points))
    && (forall k :: 0 <= k < |points| ==> HasRecord(records, points[k].ts))
  }

  lemma GroupStays(r: Record, run: seq<Point>, rest: seq<Point>, ts: int)
    requires IsGroup(r, rest) && r.ts != ts && forall i :: 0 <= i < |run| ==> run[i].ts == ts
    ensures IsGroup(r, run + rest)
  {
    FieldsAtRun(run, r.ts);
    FieldsAtConcat(run, rest, r.ts);
  }

  lemma FirstGroup(run: seq<Point>, rest: seq<Point>, ts: int)
    requires run != [] && forall i :: 0 <= i < |run| ==> run[i].ts == ts
    requires forall i :: 0 <= i < |rest| ==> rest[i].ts > ts
    ensures IsGroup(Record(ts, Fields(run)), run + rest)
  {
    FieldsAtRun(run, ts);
    FieldsAtRun(rest, ts);
    FieldsAtConcat(run, rest, ts);
  }

  lemma GroupIsLater(r: Record, rest: seq<Point>, ts: int)
    requires IsGroup(r, rest) && forall i :: 0 <= i < |rest| ==> rest[i].ts > ts
    ensures r.ts > ts
  {
    FieldMeansPoint(rest, r.ts);
  }

  lemma PrependGroup(run: seq<Point>, rest: seq<Point>, ts: int, groups: seq<Record>)
    requires run != [] && forall i :: 0 <= i < |run| ==> run[i].ts == ts
    requires forall i :: 0 <= i < |rest| ==> rest[i].ts > ts
    requires AreGroups(groups, rest)
    ensures AreGroups([Record(ts, Fields(run))] + groups, run + rest)
  {
    var all, points := [Record(ts, Fields(run))] + groups, run + rest;
    FirstGroup(run, rest, ts);
    forall i | 0 <= i < |groups| ensures groups[i].ts > ts && IsGroup(groups[i], points) {
      GroupIsLater(groups[i], rest, ts);
      GroupStays(groups[i], run, rest, ts);
    }
    forall k | 0 <= k < |points| ensures HasRecord(all, points[k].ts) {
      if k < |run| {
        assert all[0].ts == points[k].ts;
      } else {
        assert points[k] == rest[k - |run|];
        var i :| 0 <= i < |groups| && groups[i].ts == points[k].ts;
        assert all[i + 1] == groups[i];
      }
    }
  }

  lemma RestIsLater(points: seq<Point>, n: nat, ts: int)
    requires Sorted(points) && 0 < n <= |points| && (forall i :: 0 <= i < n ==> points[i].ts == ts)
    requires n < |points| ==> points[n].ts != ts
    ensures Sorted(points[n..]) && forall i :: 0 <= i < |points[n..]| ==> points[n..][i].ts > ts
  {
    forall i | 0 <= i < |points[n..]| ensures points[n..][i].ts > ts {
      assert points[0].ts <= points[n].ts;
      assert points[n..][i] == points[n + i];
    }
  }

  /** Grouping a sorted list. */
  lemma {:induction false} GroupsOfSorted(points: seq<Point>)
    requires Sorted(points)
    decreases |points|
    ensures AreGroups(Groups(points), points)
  {
    if points != [] {
      var ts := points[0].ts;
      var n := RunLength(points, ts);
      var run, rest := points[..n], points[n..];
      RunLengthIs(points, ts);
      RestIsLater(points, n, ts);
      GroupsOfSorted(rest);
      PrependGroup(run, rest, ts, Groups(rest));
      SplitFirstRun(points, n);
    }
  }

  ghost predicate HasRecord(records: seq<Record>, ts: int) {
    exists i :: 0 <= i < |records| && records[i].ts == ts
  }

  function Records(ns: Clock, config: Config, columns: seq<Column>): seq<Record> {
    Groups(StableSort(AllPoints(ns, config, columns)))
  }

  lemma RunLengthAt(points: seq<Point>, i: nat, ts: int)
    requires i <= |points|
    ensures RunLength(points[i..], ts)
            == if i < |points| && points[i].ts == ts then 1 + RunLength(points[i + 1..], ts) else 0
  {
    if i < |points| {
      SuffixOfSuffix(points, i, 1);
    }
  }

  lemma FieldsGrow(points: seq<Point>, start: nat, end: nat)
    requires start <= end < |points|
    ensures Same(Fields(points[start..end + 1]), Fields(points[start..end]) + [points[end].field])
  {
    RangeGrows(points, start, end);
    SameIf(Fields(points[start..end + 1]), Fields(points[start..end]) + [points[end].field]);
  }

  /** The inner loop: the fields of the run that starts at `start`. */
  method CollectRun(points: seq<Point>, start: nat) returns (fields: seq<Field>, end: nat)
    requires start < |points|
    ensures start < end <= |points| && end - start == RunLength(points[start..], points[start].ts)
    ensures fields == Fields(points[start..end])
  {
    var ts := points[start].ts;
    fields := [];
    end := start;
    ghost var rest := points[start..];
    while end < |points| && points[end].ts == ts
      invariant start <= end <= |points| && Same(fields, Fields(points[start..end]))
      invariant RunLength(rest, ts) == (end - start) + RunLength(points[end..], ts)
    {
      RunLengthAt(points, end, ts);
      FieldsGrow(points, start, end);
      fields := fields + [points[end].field];
      end := end + 1;
    }
    RunLengthAt(points, end, ts);
  }

  /** What was written is the records of the columns, up to the first one the host refuses. */
  ghost predicate UpToRefusal(written: seq<Record>, complete: bool, records: seq<Record>, host: Record -> bool) {
    && written <= records
    && (forall i :: 0 <= i < |written| ==> host(written[i]))
    && (if complete then written == records else |written| < |records| && !host(records[|written|]))
  }

  /** The write loop: groups the sorted points and stops at the first record the host refuses. */
  method WriteGroups(points: seq<Point>, host: Record -> bool) returns (written: seq<Record>, ok: bool)
    ensures UpToRefusal(written, ok, Groups(points), host)
  {
    written := [];
    ghost var records := Groups(points);
    var i := 0;
    NothingBefore(written, records);
    while i < |points|
      invariant i <= |points|
      invariant Same(records, written + Groups(points[i..]))
      invariant forall k :: 0 <= k < |written| ==> host(written[k])
    {
      var fields, end := CollectRun(points, i);
      var record := Record(points[i].ts, fields);
      GroupsFrom(points, i, end);
      NextRecord(records, written, record, Groups(points[end..]));
      if !host(record) {
        return written, false;
      }
      written := written + [record];
      i := end;
    }
    NothingAfter(written, Groups(points[i..]));
    ok := true;
  }

  lemma NextRecord(records: seq<Record>, written: seq<Record>, record: Record, rest: seq<Record>)
    requires Same(records, written + ([record] + rest))
    ensures |written| < |records| && records[|written|] == record && written <= records
    ensures Same(records, (written + [record]) + rest)
  {
    Regroup(written, [record], rest);
    CutConcat(written, [record] + rest);
  }

  /** importData after parsing: classification, merged timeline, records. */
  method ImportColumns(ns: Clock, config: Config, columns: seq<Column>, host: Record -> bool)
    returns (written: seq<Record>, ok: bool)
    ensures UpToRefusal(written, ok, Records(ns, config, columns), host)
  {
    var numeric, texts := ClassifyColumns(config, columns);
    var points := MergePoints(ns, columns, numeric, texts);
    written, ok := WriteGroups(StableSort(points), host);
  }

  // ----- records are rows -----

  /** The rows stamped `ts`, in order. */
  function RowsAt(ns: Clock, rows: seq<Row>, ts: int): seq<Row> {
    if rows == [] then []
    else RowsAt(ns, rows[..|rows| - 1], ts) + if ns(rows[|rows| - 1].time) == ts then [rows[|rows| - 1]] else []
  }

  function CellFields(row: Row, column: nat, numeric: bool): seq<Field> {
    if column >= |row.cells| || row.cells[column].None? then []
    else match row.cells[column].value
      case Num(v) => if numeric then [NumberField(column, v)] else []
      case Text(s) => if numeric then [] else [TextField(column, s)]
  }

  /** One column's cells of the given class, in row order. */
  function ColumnFields(rows: seq<Row>, column: nat, numeric: bool): seq<Field> {
    if rows == [] then []
    else ColumnFields(rows[..|rows| - 1], column, numeric) + CellFields(rows[|rows| - 1], column, numeric)
  }

  /** The listed columns' cells, column by column. */
  function ListedFields(rows: seq<Row>, indices: seq<nat>, numeric: bool): seq<Field> {
    if indices == [] then []
    else
      ListedFields(rows, indices[..|indices| - 1], numeric)
      + ColumnFields(rows, indices[|indices| - 1], numeric)
  }

  /** Everything kept of some rows, in the order a record lists it. */
  function KeptFields(config: Config, columns: seq<Column>, rows: seq<Row>): seq<Field> {
    ListedFields(rows, ColumnsOf(config, columns, true, |columns|), true)
    + ListedFields(rows, ColumnsOf(config, columns, false, |columns|), false)
  }

  /** f is the content of a data column of the matching class in this row: not the time column nor a part of the
      combined one, and a number where the column has any number or no point at all, else a text. */
  ghost predicate IsKept(config: Config, columns: seq<Column>, row: Row, f: Field) {
    && f.column < |columns| && f.column < |row.cells| && config.timeColumn != f.column
    && (0 <= config.combinedIndex < |config.combinedColumns| ==>
          var pair := config.combinedColumns[config.combinedIndex]; f.column != pair.date && f.column != pair.time)
    && match f
       case NumberField(c, v) => (columns[c].numbers != [] || columns[c].texts == []) && row.cells[c] == Some(Num(v))
       case TextField(c, s) => columns[c].numbers == [] && columns[c].texts != [] && row.cells[c] == Some(Text(s))
  }

  lemma {:induction false} ListedOfRow(row: Row, indices: seq<nat>, numeric: bool, f: Field)
    ensures f in ListedFields([row], indices, numeric)
            <==> f.column in indices && f in CellFields(row, f.column, numeric)
  {
    if indices != [] {
      ListedOfRow(row, indices[..|indices| - 1], numeric, f);
      var last := indices[|indices| - 1];
      assert ColumnFields([row], last, numeric) == ColumnFields([], last, numeric) + CellFields(row, last, numeric) by {
        assert [row][..0] == [];
      }
      assert indices == indices[..|indices| - 1] + [last];
    }
  }

  lemma CellFieldsExactly(row: Row, numeric: bool, f: Field)
    ensures f in CellFields(row, f.column, numeric) <==>
            && f.column < |row.cells| && f.NumberField? == numeric
            && row.cells[f.column] == Some(if f.NumberField? then Num(f.number) else Text(f.text))
  {
  }

  lemma ListedExactly(config: Config, columns: seq<Column>, row: Row, numeric: bool, f: Field)
    ensures f in ListedFields([row], ColumnsOf(config, columns, numeric, |columns|), numeric)
            <==> f.NumberField? == numeric && IsKept(config, columns, row, f)
  {
    InColumns(config, columns, numeric, |columns|, f.column);
    ListedOfRow(row, ColumnsOf(config, columns, numeric, |columns|), numeric, f);
    CellFieldsExactly(row, numeric, f);
  }

  /** What is kept of a row: exactly its non-empty data cells whose class is their column's. */
  lemma KeptOfRowExactly(config: Config, columns: seq<Column>, row: Row, f: Field)
    ensures f in KeptFields(config, columns, [row]) <==> IsKept(config, columns, row, f)
  {
    ListedExactly(config, columns, row, true, f);
    ListedExactly(config, columns, row, false, f);
  }

  /** One more row adds its own cell at its own timestamp. */
  lemma ColumnFieldsGrow(rows: seq<Row>, row: Row, column: nat, numeric: bool)
    ensures ColumnFields(rows + [row], column, numeric)
            == ColumnFields(rows, column, numeric) + CellFields(row, column, numeric)
  {
    CutConcat(rows, [row]);
  }

  lemma NumbersGrow(ns: Clock, rows: seq<Row>, row: Row, column: nat, ts: int)
    ensures FieldsAt(NumberPoints(ns, Numbers(rows + [row], column), column), ts)
            == FieldsAt(NumberPoints(ns, Numbers(rows, column), column), ts)
               + if ns(row.time) == ts then CellFields(row, column, true) else []
  {
    CutConcat(rows, [row]);
    var numbers, all := Numbers(rows, column), Numbers(rows + [row], column);
    if column < |row.cells| && row.cells[column].Some? && row.cells[column].value.Num? {
      var v := row.cells[column].value.number;
      assert all[..|numbers|] == numbers;
      LastPoint(NumberPoints(ns, numbers, column), Point(ns(row.time), NumberField(column, v)), ts);
    } else {
      assert all == numbers;
    }
  }

  lemma StringsGrow(ns: Clock, rows: seq<Row>, row: Row, column: nat, ts: int)
    ensures FieldsAt(TextPoints(ns, Strings(rows + [row], column), column), ts)
            == FieldsAt(TextPoints(ns, Strings(rows, column), column), ts)
               + if ns(row.time) == ts then CellFields(row, column, false) else []
  {
    CutConcat(rows, [row]);
    var texts, all := Strings(rows, column), Strings(rows + [row], column);
    if column < |row.cells| && row.cells[column].Some? && row.cells[column].value.Text? {
      var s := row.cells[column].value.text;
      assert all[..|texts|] == texts;
      LastPoint(TextPoints(ns, texts, column), Point(ns(row.time), TextField(column, s)), ts);
    } else {
      assert all == texts;
    }
  }

  lemma RowsAtGrow(ns: Clock, rows: seq<Row>, row: Row, ts: int)
    ensures RowsAt(ns, rows + [row], ts) == RowsAt(ns, rows, ts) + if ns(row.time) == ts then [row] else []
  {
    CutConcat(rows, [row]);
  }

  /** One column's points stamped ts are its cells in the rows stamped ts. */
  lemma {:induction false} ColumnAtStamp(ns: Clock, rows: seq<Row>, column: nat, ts: int)
    ensures FieldsAt(NumberPoints(ns, Numbers(rows, column), column), ts)
            == ColumnFields(RowsAt(ns, rows, ts), column, true)
    ensures FieldsAt(TextPoints(ns, Strings(rows, column), column), ts)
            == ColumnFields(RowsAt(ns, rows, ts), column, false)
  {
    if rows != [] {
      var front, last := rows[..|rows| - 1], rows[|rows| - 1];
      assert rows == front + [last];
      ColumnAtStamp(ns, front, column, ts);
      NumbersGrow(ns, front, last, column, ts);
      StringsGrow(ns, front, last, column, ts);
      RowsAtGrow(ns, front, last, ts);
      ColumnFieldsGrow(RowsAt(ns, front, ts), last, column, true);
      ColumnFieldsGrow(RowsAt(ns, front, ts), last, column, false);
      assert RowsAt(ns, front, ts) + [] == RowsAt(ns, front, ts);
    }
  }

  lemma {:induction false} MergedAtStamp(
      ns: Clock, columns: seq<Column>, rows: seq<Row>, indices: seq<nat>, numeric: bool, ts: int)
    requires InRange(indices, |columns|) && Scattered(columns, rows)
    ensures FieldsAt(Merged(ns, columns, indices, numeric), ts) == ListedFields(RowsAt(ns, rows, ts), indices, numeric)
  {
    if indices != [] {
      var front, last := indices[..|indices| - 1], indices[|indices| - 1];
      MergedAtStamp(ns, columns, rows, front, numeric, ts);
      ColumnAtStamp(ns, rows, last, ts);
      FieldsAtConcat(
        Merged(ns, columns, front, numeric),
        if numeric then NumberPoints(ns, columns[last].numbers, last)
          else TextPoints(ns, columns[last].texts, last), ts);
    }
  }

  /** All kept points stamped ts are exactly the kept cells of the rows stamped ts. */
  lemma PointsAtStamp(ns: Clock, config: Config, columns: seq<Column>, rows: seq<Row>, ts: int)
    requires Scattered(columns, rows)
    ensures FieldsAt(AllPoints(ns, config, columns), ts) == KeptFields(config, columns, RowsAt(ns, rows, ts))
  {
    var numeric, texts := ColumnsOf(config, columns, true, |columns|), ColumnsOf(config, columns, false, |columns|);
    MergedAtStamp(ns, columns, rows, numeric, true, ts);
    MergedAtStamp(ns, columns, rows, texts, false, ts);
    FieldsAtConcat(Merged(ns, columns, numeric, true), Merged(ns, columns, texts, false), ts);
  }

  /** Record times strictly increase, the records in order are a permutation of the kept points, and each record holds
      exactly the kept cells of the rows with its timestamp. */
  ghost predicate AreSortedPoints(
      records: seq<Record>, ns: Clock, config: Config, columns: seq<Column>, rows: seq<Row>)
  {
    && Increasing(records)
    && Sorted(Flattened(records))
    && multiset(Flattened(records)) == multiset(AllPoints(ns, config, columns))
    && forall i :: 0 <= i < |records| ==>
         && records[i].fields == KeptFields(config, columns, RowsAt(ns, rows, records[i].ts))
         && records[i].fields != []
  }

  /** For any input. */
  lemma RecordsAreSortedPoints(ns: Clock, config: Config, columns: seq<Column>, rows: seq<Row>)
    requires Scattered(columns, rows)
    ensures AreSortedPoints(Records(ns, config, columns), ns, config, columns, rows)
  {
    var points := AllPoints(ns, config, columns);
    var sorted := StableSort(points);
    StableSortSorts(points);
    GroupsOfSorted(sorted);
    FlattenedGroups(sorted);
    var records := Groups(sorted);
    forall i | 0 <= i < |records|
      ensures records[i].fields == KeptFields(config, columns, RowsAt(ns, rows, records[i].ts))
    {
      assert IsGroup(records[i], sorted);
      StableSortIsStable(points, records[i].ts);
      PointsAtStamp(ns, config, columns, rows, records[i].ts);
    }
  }

  ghost predicate DistinctStamps(ns: Clock, rows: seq<Row>) {
    forall i, j :: 0 <= i < j < |rows| ==> ns(rows[i].time) != ns(rows[j].time)
  }

  lemma {:induction false} OnlyRowAt(ns: Clock, rows: seq<Row>, j: nat)
    requires j < |rows| && DistinctStamps(ns, rows)
    ensures RowsAt(ns, rows, ns(rows[j].time)) == [rows[j]]
  {
    var front := rows[..|rows| - 1];
    if j < |rows| - 1 {
      OnlyRowAt(ns, front, j);
    } else {
      NoRowAt(ns, front, ns(rows[j].time));
    }
  }

  lemma {:induction false} NoRowAt(ns: Clock, rows: seq<Row>, ts: int)
    requires forall i :: 0 <= i < |rows| ==> ns(rows[i].time) != ts
    ensures RowsAt(ns, rows, ts) == []
  {
    if rows != [] {
      NoRowAt(ns, rows[..|rows| - 1], ts);
    }
  }

  lemma {:induction false} FieldMeansPoint(points: seq<Point>, ts: int)
    ensures FieldsAt(points, ts) != [] ==> exists k :: 0 <= k < |points| && points[k].ts == ts
  {
    if points != [] {
      FieldMeansPoint(points[..|points| - 1], ts);
    }
  }

  lemma {:induction false} RowMeansStamp(ns: Clock, rows: seq<Row>, ts: int)
    ensures RowsAt(ns, rows, ts) != [] ==> exists j :: 0 <= j < |rows| && ns(rows[j].time) == ts
  {
    if rows != [] {
      RowMeansStamp(ns, rows[..|rows| - 1], ts);
    }
  }

  lemma {:induction false} NothingKeptOfNoRows(config: Config, columns: seq<Column>, indices: seq<nat>, numeric: bool)
    ensures ListedFields([], indices, numeric) == []
  {
    if indices != [] {
      NothingKeptOfNoRows(config, columns, indices[..|indices| - 1], numeric);
    }
  }

  ghost predicate IsRecordOf(r: Record, ns: Clock, config: Config, columns: seq<Column>, row: Row) {
    r == Record(ns(row.time), KeptFields(config, columns, [row]))
  }

  ghost predicate OfSomeRow(r: Record, ns: Clock, config: Config, columns: seq<Column>, rows: seq<Row>) {
    exists j :: 0 <= j < |rows| && IsRecordOf(r, ns, config, columns, rows[j])
  }

  ghost predicate InSomeRecord(row: Row, ns: Clock, config: Config, columns: seq<Column>, records: seq<Record>) {
    exists i :: 0 <= i < |records| && IsRecordOf(records[i], ns, config, columns, row)
  }

  /** Every record is that of a row, every row with kept cells has its record, and no two records share a time. */
  ghost predicate AreRows(records: seq<Record>, ns: Clock, config: Config, columns: seq<Column>, rows: seq<Row>) {
    && Increasing(records)
    && (forall i :: 0 <= i < |records| ==> OfSomeRow(records[i], ns, config, columns, rows))
    && (forall j :: 0 <= j < |rows| && KeptFields(config, columns, [rows[j]]) != [] ==>
          InSomeRecord(rows[j], ns, config, columns, records))
  }

  /** With pairwise distinct row timestamps. */
  lemma RecordsAreRows(ns: Clock, config: Config, columns: seq<Column>, rows: seq<Row>)
    requires Scattered(columns, rows) && DistinctStamps(ns, rows)
    ensures AreRows(Records(ns, config, columns), ns, config, columns, rows)
  {
    RecordsAreSortedPoints(ns, config, columns, rows);
    var records := Records(ns, config, columns);
    forall i | 0 <= i < |records| ensures OfSomeRow(records[i], ns, config, columns, rows) {
      RecordHasRow(ns, config, columns, rows, records[i]);
    }
    forall j | 0 <= j < |rows| && KeptFields(config, columns, [rows[j]]) != []
      ensures InSomeRecord(rows[j], ns, config, columns, records)
    {
      var i := RowHasRecord(ns, config, columns, rows, j);
    }
  }

  lemma RecordHasRow(ns: Clock, config: Config, columns: seq<Column>, rows: seq<Row>, r: Record)
    requires DistinctStamps(ns, rows)
    requires r.fields == KeptFields(config, columns, RowsAt(ns, rows, r.ts)) && r.fields != []
    ensures OfSomeRow(r, ns, config, columns, rows)
  {
    NothingKeptOfNoRows(config, columns, ColumnsOf(config, columns, true, |columns|), true);
    NothingKeptOfNoRows(config, columns, ColumnsOf(config, columns, false, |columns|), false);
    RowMeansStamp(ns, rows, r.ts);
    var j :| 0 <= j < |rows| && ns(rows[j].time) == r.ts;
    OnlyRowAt(ns, rows, j);
    assert IsRecordOf(r, ns, config, columns, rows[j]);
  }

  lemma StampHasRecord(points: seq<Point>, ts: int) returns (i: nat)
    requires FieldsAt(points, ts) != []
    ensures i < |Groups(StableSort(points))|
    ensures Groups(StableSort(points))[i] == Record(ts, FieldsAt(points, ts))
  {
    var sorted := StableSort(points);
    StableSortSorts(points);
    StableSortIsStable(points, ts);
    FieldMeansPoint(sorted, ts);
    GroupsOfSorted(sorted);
    var records := Groups(sorted);
    assert HasRecord(records, ts);
    i :| 0 <= i < |records| && records[i].ts == ts;
    assert IsGroup(records[i], sorted);
  }

  lemma RowHasRecord(ns: Clock, config: Config, columns: seq<Column>, rows: seq<Row>, j: nat)
    returns (i: nat)
    requires Scattered(columns, rows) && DistinctStamps(ns, rows)
    requires j < |rows| && KeptFields(config, columns, [rows[j]]) != []
    ensures i < |Records(ns, config, columns)|
    ensures IsRecordOf(Records(ns, config, columns)[i], ns, config, columns, rows[j])
  {
    OnlyRowAt(ns, rows, j);
    PointsAtStamp(ns, config, columns, rows, ns(rows[j].time));
    i := StampHasRecord(AllPoints(ns, config, columns), ns(rows[j].time));
  }

  datatype Outcome = Failed | Written(records: seq<Record>, complete: bool)

  /** The whole import. The reading ends after `read` lines, `finished` when no callback stopped it. One that did not
      finish writes nothing, unless the user stopped it: then the rows read so far are written. */
  method ImportData(
      r: Readers, ns: Clock, config: Config, progress: Option<nat -> bool>, stopped: bool, lines: seq<string>,
      host: Record -> bool)
    returns (outcome: Outcome, ghost columns: seq<Column>, ghost read: nat, ghost finished: bool)
    requires HasHeader(config, lines) ==> Fits(config, Width(config, lines))
    ensures outcome.Failed? <==> !stopped && !finished
    ensures !HasHeader(config, lines) ==> columns == [] && read == 0 && !finished
    ensures HasHeader(config, lines) ==>
      && EndsAt(r, config, progress, Width(config, lines), Body(config, lines), read, finished)
      && |columns| == Width(config, lines)
      && Scattered(columns, ReadUpTo(r, config, lines, read).rows)
    ensures outcome.Written? ==> UpToRefusal(outcome.records, outcome.complete, Records(ns, config, columns), host)
    ensures outcome.Written? && outcome.complete && HasHeader(config, lines) ==>
      var rows := ReadUpTo(r, config, lines, read).rows;
      && AreSortedPoints(outcome.records, ns, config, columns, rows)
      && (DistinctStamps(ns, rows) ==> AreRows(outcome.records, ns, config, columns, rows))
  {
    var result;
    result, read := ParseCsvData(r, config, progress, lines);
    columns, finished := result.columns, result.success;
    if !result.success && !stopped {
      return Failed, columns, read, finished;
    }
    var written, ok := ImportColumns(ns, config, result.columns, host);
    outcome := Written(written, ok);
    if HasHeader(config, lines) {
      ghost var rows := ReadUpTo(r, config, lines, read).rows;
      RecordsAreSortedPoints(ns, config, columns, rows);
      if DistinctStamps(ns, rows) {
        RecordsAreRows(ns, config, columns, rows);
      }
    }
  }
}
