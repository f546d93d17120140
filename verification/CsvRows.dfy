/** Reading CSV rows: each accepted line becomes a row, scattered into one point list per column. */
module CsvRows {
  import opened Slices
  import opened Wrappers
  import opened CsvSplit
  import opened TextLines

  datatype ColumnKind =
    | Number | Hex | EpochSeconds | EpochMillis | EpochMicros | EpochNanos | DateTime | DateOnly | TimeOnly | Str
    | Undefined

  datatype ColumnType = ColumnType(kind: ColumnKind, format: string, hasFractional: bool)

  const NO_TYPE := ColumnType(Undefined, "", false)

  /** Value recognition and date arithmetic: any outcome, the same for the same arguments. */
  datatype Readers = Readers(
    detect: string -> ColumnType,
    parse: (string, ColumnType) -> Option<real>,
    combine: (string, string, ColumnType, ColumnType) -> Option<real>,
    custom: (string, string) -> Option<real>)

  datatype CombinedPair = CombinedPair(date: nat, time: nat)

  datatype Config = Config(
    delimiter: char, timeColumn: int, customFormat: string, skipRows: nat,
    combinedColumns: seq<CombinedPair>, combinedIndex: int)

  predicate UsesCombined(config: Config) {
    0 <= config.combinedIndex < |config.combinedColumns|
  }

  function Combined(config: Config): CombinedPair
    requires UsesCombined(config)
  {
    config.combinedColumns[config.combinedIndex]
  }

  predicate UsesTime(config: Config, width: nat) {
    UsesCombined(config) || 0 <= config.timeColumn < width
  }

  /** The chosen date and time columns exist. */
  predicate Fits(config: Config, width: nat) {
    UsesCombined(config) ==> Combined(config).date < width && Combined(config).time < width
  }

  predicate IsComponent(config: Config, column: nat) {
    UsesCombined(config) && (column == Combined(config).date || column == Combined(config).time)
  }

  datatype Value = Num(number: real) | Text(text: string)

  /** An accepted line: its time and what each column stores for it. */
  datatype Row = Row(time: real, cells: seq<Option<Value>>)

  datatype Column = Column(numbers: seq<(real, real)>, texts: seq<(real, string)>)

  // ----- one line -----

  /** The first non-empty cell of a column decides its type, also in a line rejected later. */
  function Detected(r: Readers, types: seq<ColumnType>, parts: seq<string>): (found: seq<ColumnType>)
    requires |types| == |parts|
    ensures |found| == |types|
  {
    seq(|types|, i requires 0 <= i < |types| =>
      if types[i].kind == Undefined && parts[i] != [] then r.detect(parts[i]) else types[i])
  }

  /** The timestamp of a line, or None when its time cells do not parse. */
  function TimeOf(r: Readers, config: Config, types: seq<ColumnType>, parts: seq<string>, samples: nat): Option<real>
    requires |types| == |parts| && Fits(config, |parts|)
  {
    if UsesCombined(config) then
      var c := Combined(config);
      r.combine(Trim(parts[c.date]), Trim(parts[c.time]), types[c.date], types[c.time])
    else if 0 <= config.timeColumn < |parts| then
      var cell := Trim(parts[config.timeColumn]);
      if config.customFormat != [] then r.custom(cell, config.customFormat)
      else if types[config.timeColumn].kind == Str then None
      else r.parse(cell, types[config.timeColumn])
    else Some(samples as real)
  }

  /** Large integers in a data column keep their raw value. */
  function DataType(t: ColumnType): ColumnType {
    if t.kind in {EpochSeconds, EpochMillis, EpochMicros, EpochNanos} then t.(kind := Number) else t
  }

  function CellOf(r: Readers, config: Config, column: nat, t: ColumnType, cell: string): Option<Value> {
    if IsComponent(config, column) || cell == [] || t.kind == Undefined then None
    else if t.kind == Str then Some(Text(cell))
    else match r.parse(cell, DataType(t))
      case Some(v) => Some(Num(v))
      case None => Some(Text(cell))
  }

  function RowOf(r: Readers, config: Config, types: seq<ColumnType>, parts: seq<string>, time: real): (row: Row)
    requires |types| == |parts|
    ensures |row.cells| == |parts|
  {
    Row(time, seq(|parts|, i requires 0 <= i < |parts| => CellOf(r, config, i, types[i], parts[i])))
  }

  // ----- all lines -----

  /** What the lines leave: rows in order, skipped lines and the column types at the end. */
  datatype Reading = Reading(rows: seq<Row>, skipped: nat, types: seq<ColumnType>)

  function ReadLine(r: Readers, config: Config, before: Reading, line: string): (after: Reading)
    requires Fits(config, |before.types|)
    ensures |after.types| == |before.types|
  {
    var parts := Split(WithoutReturn(line), config.delimiter, [], false);
    if |parts| != |before.types| then before.(skipped := before.skipped + 1)
    else
      var types := Detected(r, before.types, parts);
      match TimeOf(r, config, types, parts, |before.rows|)
      case None => before.(skipped := before.skipped + 1, types := types)
      case Some(time) => before.(rows := before.rows + [RowOf(r, config, types, parts, time)], types := types)
  }

  function ReadLines(r: Readers, config: Config, width: nat, lines: seq<string>): (reading: Reading)
    requires Fits(config, width)
    ensures |reading.types| == width
  {
    if lines == [] then Reading([], 0, seq(width, _ => NO_TYPE))
    else ReadLine(r, config, ReadLines(r, config, width, lines[..|lines| - 1]), lines[|lines| - 1])
  }

  /** Every line is either a row or skipped, and every row has one cell per column. */
  lemma {:induction false} LinesAddUp(r: Readers, config: Config, width: nat, lines: seq<string>)
    requires Fits(config, width)
    ensures var reading := ReadLines(r, config, width, lines);
            && |reading.rows| + reading.skipped == |lines|
            && forall j :: 0 <= j < |reading.rows| ==> |reading.rows[j].cells| == width
  {
    if lines != [] {
      LinesAddUp(r, config, width, lines[..|lines| - 1]);
    }
  }

  // ----- scattering -----

  /** The numeric points of one column: its number cells, in row order. */
  function Numbers(rows: seq<Row>, column: nat): seq<(real, real)> {
    if rows == [] then []
    else
      var row := rows[|rows| - 1];
      Numbers(rows[..|rows| - 1], column)
      + if column < |row.cells| && row.cells[column].Some? && row.cells[column].value.Num?
        then [(row.time, row.cells[column].value.number)] else []
  }

  function Strings(rows: seq<Row>, column: nat): seq<(real, string)> {
    if rows == [] then []
    else
      var row := rows[|rows| - 1];
      Strings(rows[..|rows| - 1], column)
      + if column < |row.cells| && row.cells[column].Some? && row.cells[column].value.Text?
        then [(row.time, row.cells[column].value.text)] else []
  }

  ghost predicate Scattered(columns: seq<Column>, rows: seq<Row>) {
    forall i :: 0 <= i < |columns| ==> columns[i] == Column(Numbers(rows, i), Strings(rows, i))
  }

  /** A row's time is below an earlier one's. */
  ghost predicate StepsBack(rows: seq<Row>) {
    exists i, j :: 0 <= i < j < |rows| && rows[i].time > rows[j].time
  }

  datatype CsvResult = CsvResult(
    success: bool, columns: seq<Column>, nonMonotonic: bool, processed: nat, skipped: nat, types: seq<ColumnType>)

  /** Appends one accepted line to the columns, cell by cell. */
  method StoreRow(
      r: Readers, config: Config, types: seq<ColumnType>, parts: seq<string>, time: real, columns: seq<Column>,
      ghost rows: seq<Row>)
    returns (columns': seq<Column>)
    requires |types| == |parts| == |columns| && Scattered(columns, rows)
    ensures |columns'| == |columns| && Scattered(columns', rows + [RowOf(r, config, types, parts, time)])
  {
    columns' := columns;
    ghost var rows' := rows + [RowOf(r, config, types, parts, time)];
    assert rows'[..|rows'| - 1] == rows;
    for i := 0 to |parts|
      invariant |columns'| == |columns|
      invariant forall k :: 0 <= k < i ==> columns'[k] == Column(Numbers(rows', k), Strings(rows', k))
      invariant forall k :: i <= k < |columns| ==> columns'[k] == columns[k]
    {
      var str, t, column := parts[i], types[i], columns'[i];
      if !IsComponent(config, i) && str != [] && t.kind != Undefined {
        if t.kind != Str {
          match r.parse(str, DataType(t)) {
            case Some(v) => column := column.(numbers := column.numbers + [(time, v)]);
            case None => column := column.(texts := column.texts + [(time, str)]);
          }
        } else {
          column := column.(texts := column.texts + [(time, str)]);
        }
      }
      columns' := columns'[i := column];
    }
  }

  /** After line n, counted from 1, the progress callback is asked and says stop. */
  ghost predicate StopsAt(
      r: Readers, config: Config, progress: Option<nat -> bool>, width: nat, lines: seq<string>, n: nat)
    requires Fits(config, width) && 0 < n <= |lines|
  {
    && |ReadLines(r, config, width, lines[..n]).rows| > |ReadLines(r, config, width, lines[..n - 1]).rows|
    && progress.Some? && (config.skipRows + 1 + n) % 100 == 0 && !progress.value(config.skipRows + 1 + n)
  }

  /** Where the reading ends: at the first line after which it is told to stop, else with the last line. */
  ghost predicate EndsAt(
      r: Readers, config: Config, progress: Option<nat -> bool>, width: nat, lines: seq<string>, read: nat,
      success: bool)
    requires Fits(config, width)
  {
    && read <= |lines|
    && if success then read == |lines| && NoStop(r, config, progress, width, lines, read)
       else
         && read > 0 && NoStop(r, config, progress, width, lines, read - 1)
         && StopsAt(r, config, progress, width, lines, read)
  }

  /** None of the first `read` lines brought a stop. */
  ghost predicate NoStop(
      r: Readers, config: Config, progress: Option<nat -> bool>, width: nat, lines: seq<string>, read: nat)
    requires Fits(config, width) && read <= |lines|
  {
    read > 0 ==>
      NoStop(r, config, progress, width, lines, read - 1) && !StopsAt(r, config, progress, width, lines, read)
  }

  lemma {:induction false} NoStopBefore(
      r: Readers, config: Config, progress: Option<nat -> bool>, width: nat, lines: seq<string>, n: nat, read: nat)
    requires Fits(config, width) && 0 < n <= read <= |lines| && NoStop(r, config, progress, width, lines, read)
    ensures !StopsAt(r, config, progress, width, lines, n)
  {
    if n < read {
      NoStopBefore(r, config, progress, width, lines, n, read - 1);
    }
  }

  /** The callback's answers determine where a reading ends, and how. */
  lemma EndIsUnique(
      r: Readers, config: Config, progress: Option<nat -> bool>, width: nat, lines: seq<string>, read: nat,
      success: bool, read': nat, success': bool)
    requires Fits(config, width)
    requires EndsAt(r, config, progress, width, lines, read, success)
    requires EndsAt(r, config, progress, width, lines, read', success')
    ensures read == read' && success == success'
  {
    if !success && (success' || read < read') {
      NoStopBefore(r, config, progress, width, lines, read, if success' then read' else read' - 1);
    }
    if !success' && (success || read' < read) {
      NoStopBefore(r, config, progress, width, lines, read', if success then read else read - 1);
    }
  }

  /** The callback stops the reading after an accepted line. */
  predicate Told(progress: Option<nat -> bool>, accepted: bool, number: nat) {
    accepted && progress.Some? && number % 100 == 0 && !progress.value(number)
  }

  lemma StopsAtExactly(
      r: Readers, config: Config, progress: Option<nat -> bool>, width: nat, lines: seq<string>, n: nat,
      before: nat, after: nat)
    requires Fits(config, width) && 0 < n <= |lines|
    requires |ReadLines(r, config, width, lines[..n - 1]).rows| == before
    requires |ReadLines(r, config, width, lines[..n]).rows| == after
    ensures StopsAt(r, config, progress, width, lines, n) <==> Told(progress, after > before, config.skipRows + 1 + n)
  {
  }

  /** One more line either ends the reading or brings no stop. */
  lemma LineEnds(
      r: Readers, config: Config, progress: Option<nat -> bool>, width: nat, lines: seq<string>, read: nat,
      before: Reading, after: Reading, accepted: bool, number: nat)
    requires Fits(config, width) && read < |lines| && NoStop(r, config, progress, width, lines, read)
    requires number == config.skipRows + 2 + read
    requires HasRead(r, config, width, lines, read, before) && HasRead(r, config, width, lines, read + 1, after)
    requires |after.rows| == |before.rows| + if accepted then 1 else 0
    ensures if Told(progress, accepted, number)
            then EndsAt(r, config, progress, width, lines, read + 1, false)
            else NoStop(r, config, progress, width, lines, read + 1)
  {
    StopsAtExactly(r, config, progress, width, lines, read + 1, |before.rows|, |after.rows|);
  }

  /** The columns, counters and flags that the given rows leave. */
  ghost predicate Reports(result: CsvResult, config: Config, width: nat, reading: Reading) {
    && |result.columns| == width && Scattered(result.columns, reading.rows)
    && result.skipped == reading.skipped
    && (result.nonMonotonic <==> UsesTime(config, width) && StepsBack(reading.rows))
    && (if result.success then result.processed == |reading.rows| && result.types == reading.types
        else result.processed == 0 && result.types == seq(width, _ => NO_TYPE))
  }

  /** The loop body up to the progress callback: the time of the line when it is accepted. */
  method ReadOneLine(
      r: Readers, config: Config, line: string, types: seq<ColumnType>, columns: seq<Column>, skipped: nat,
      samples: nat, ghost rows: seq<Row>)
    returns (time: Option<real>, types': seq<ColumnType>, columns': seq<Column>, skipped': nat, ghost rows': seq<Row>)
    requires Fits(config, |types|) && |columns| == |types| && Scattered(columns, rows) && samples == |rows|
    ensures Reading(rows', skipped', types') == ReadLine(r, config, Reading(rows, skipped, types), line)
    ensures |columns'| == |types'| == |types| && Scattered(columns', rows')
    ensures match time
            case None => rows' == rows
            case Some(t) =>
              |rows'| == |rows| + 1 && Same(rows', rows + [rows'[|rows|]]) && rows'[|rows|].time == t
  {
    time, types', columns', skipped', rows' := None, types, columns, skipped, rows;
    var parts := SplitLine(WithoutReturn(line), config.delimiter);
    if |parts| != |types| {
      skipped' := skipped + 1;
      return;
    }
    types' := Detected(r, types, parts);
    time := TimeOf(r, config, types', parts, samples);
    if time.None? {
      skipped' := skipped + 1;
      return;
    }
    columns' := StoreRow(r, config, types', parts, time.value, columns, rows);
    rows' := rows + [RowOf(r, config, types', parts, time.value)];
  }

  /** The line loop. The result covers the first `read` lines; a stopped reading leaves the processed count and the
      column types at their defaults. */
  method ParseCsvRows(r: Readers, config: Config, progress: Option<nat -> bool>, width: nat, lines: seq<string>)
    returns (result: CsvResult, read: nat)
    requires Fits(config, width)
    ensures EndsAt(r, config, progress, width, lines, read, result.success)
    ensures Reports(result, config, width, ReadLines(r, config, width, lines[..read]))
  {
    var columns := seq(width, _ => Column([], []));
    var types := seq(width, _ => NO_TYPE);
    var samples, skipped, nonMonotonic := 0, 0, false;
    var previous: Option<real> := None;
    var number := config.skipRows + 1;
    read := 0;
    ghost var rows: seq<Row> := [];
    NothingRead(r, config, width, lines, columns);
    while read < |lines|
      invariant read <= |lines| && number == config.skipRows + 1 + read
      invariant NoStop(r, config, progress, width, lines, read)
      invariant HasRead(r, config, width, lines, read, Reading(rows, skipped, types))
      invariant |columns| == |types| == width && Scattered(columns, rows) && samples == |rows|
      invariant previous == if UsesTime(config, width) && rows != [] then Some(rows[|rows| - 1].time) else None
      invariant nonMonotonic <==> UsesTime(config, width) && StepsBack(rows)
    {
      ghost var before, was := rows, Reading(rows, skipped, types);
      var time;
      time, types, columns, skipped, rows :=
        ReadOneLine(r, config, lines[read], types, columns, skipped, samples, rows);
      number := number + 1;
      OneMoreLine(r, config, width, lines, read, was, Reading(rows, skipped, types));
      LineEnds(r, config, progress, width, lines, read, was, Reading(rows, skipped, types), time.Some?, number);
      read := read + 1;
      if time.None? {
        continue;
      }
      StepsBackGrows(before, rows[|before|]);
      if UsesTime(config, width) {
        if previous.Some? && previous.value > time.value {
          nonMonotonic := true;
        }
        previous := time;
      }
      samples := samples + 1;
      if progress.Some? && number % 100 == 0 {
        if !progress.value(number) {
          result := CsvResult(false, columns, nonMonotonic, 0, skipped, seq(width, _ => NO_TYPE));
          return;
        }
      }
    }
    result := CsvResult(true, columns, nonMonotonic, samples, skipped, types);
  }

  /** What the first `read` lines leave. */
  ghost predicate HasRead(r: Readers, config: Config, width: nat, lines: seq<string>, read: nat, reading: Reading)
    requires Fits(config, width) && read <= |lines|
  {
    ReadLines(r, config, width, lines[..read]) == reading
  }

  lemma NothingRead(r: Readers, config: Config, width: nat, lines: seq<string>, columns: seq<Column>)
    requires Fits(config, width) && Same(columns, seq(width, _ => Column([], [])))
    ensures HasRead(r, config, width, lines, 0, Reading([], 0, seq(width, _ => NO_TYPE)))
    ensures Scattered(columns, [])
  {
    assert lines[..0] == [];
  }

  lemma OneMoreLine(
      r: Readers, config: Config, width: nat, lines: seq<string>, read: nat, before: Reading, after: Reading)
    requires Fits(config, width) && read < |lines| && HasRead(r, config, width, lines, read, before)
    requires after == ReadLine(r, config, before, lines[read])
    ensures HasRead(r, config, width, lines, read + 1, after)
  {
    PrefixOfPrefix(lines, read + 1, read);
  }

  /** Comparing each row with the one before it is enough. */
  lemma StepsBackGrows(rows: seq<Row>, row: Row)
    ensures StepsBack(rows + [row]) <==> StepsBack(rows) || (rows != [] && rows[|rows| - 1].time > row.time)
  {
    var all := rows + [row];
    if StepsBack(all) {
      var i, j :| 0 <= i < j < |all| && all[i].time > all[j].time;
      if j < |rows| {
        assert rows[i].time > rows[j].time;
      } else {
        assert rows[i].time > row.time;
        assert i == |rows| - 1 || rows[|rows| - 1].time > row.time || rows[i].time > rows[|rows| - 1].time;
      }
    }
    if StepsBack(rows) {
      var i, j :| 0 <= i < j < |rows| && rows[i].time > rows[j].time;
      assert all[i].time > all[j].time;
    }
    if rows != [] && rows[|rows| - 1].time > row.time {
      assert all[|rows| - 1].time > all[|rows|].time;
    }
  }

  predicate HasHeader(config: Config, lines: seq<string>) {
    |lines| > config.skipRows
  }

  /** The header's field count fixes the number of columns. */
  function Width(config: Config, lines: seq<string>): nat
    requires HasHeader(config, lines)
  {
    |Split(WithoutReturn(lines[config.skipRows]), config.delimiter, [], false)|
  }

  function Body(config: Config, lines: seq<string>): seq<string>
    requires HasHeader(config, lines)
  {
    lines[config.skipRows + 1..]
  }

  /** What the first `read` lines after the header leave. */
  function ReadUpTo(r: Readers, config: Config, lines: seq<string>, read: nat): Reading
    requires HasHeader(config, lines) && Fits(config, Width(config, lines)) && read <= |Body(config, lines)|
  {
    ReadLines(r, config, Width(config, lines), Body(config, lines)[..read])
  }

  lemma EveryLineCounted(
      r: Readers, config: Config, progress: Option<nat -> bool>, width: nat, lines: seq<string>, read: nat,
      result: CsvResult)
    requires Fits(config, width) && EndsAt(r, config, progress, width, lines, read, true) && result.success
    requires Reports(result, config, width, ReadLines(r, config, width, lines[..read]))
    ensures result.processed + result.skipped == |lines|
  {
    LinesAddUp(r, config, width, lines[..read]);
  }

  /** The whole reader: skipped rows, the header, then the lines. */
  method ParseCsvData(r: Readers, config: Config, progress: Option<nat -> bool>, lines: seq<string>)
    returns (result: CsvResult, read: nat)
    requires HasHeader(config, lines) ==> Fits(config, Width(config, lines))
    ensures !HasHeader(config, lines) ==> result == CsvResult(false, [], false, 0, 0, []) && read == 0
    ensures HasHeader(config, lines) ==>
      && EndsAt(r, config, progress, Width(config, lines), Body(config, lines), read, result.success)
      && Reports(result, config, Width(config, lines), ReadUpTo(r, config, lines, read))
      && (result.success ==> result.processed + result.skipped == |Body(config, lines)|)
  {
    if |lines| <= config.skipRows {
      return CsvResult(false, [], false, 0, 0, []), 0;
    }
    var header := SplitLine(WithoutReturn(lines[config.skipRows]), config.delimiter);
    var body := lines[config.skipRows + 1..];
    result, read := ParseCsvRows(r, config, progress, |header|, body);
    if result.success {
      EveryLineCounted(r, config, progress, |header|, body, read, result);
    }
  }

  // ----- what one line leaves -----

  /** The text of a line, which may end in the carriage return of a "\r\n" ending. */
  ghost predicate IsLine(line: string, text: string) {
    line == text + "\r" || (line == text && (text == "" || text[|text| - 1] != '\r'))
  }

  /** The time a line's cells give: the chosen date and time columns together, else the chosen time column in the
      custom format or under its type, else the number of rows before. */
  ghost predicate TimeReads(
      r: Readers, config: Config, types: seq<ColumnType>, parts: seq<string>, rows: nat, time: Option<real>)
    requires |types| == |parts|
  {
    var combined := 0 <= config.combinedIndex < |config.combinedColumns|;
    var single := !combined && 0 <= config.timeColumn < |parts|;
    && (combined ==>
          var c := config.combinedColumns[config.combinedIndex];
          && c.date < |parts| && c.time < |parts|
          && time == r.combine(Trim(parts[c.date]), Trim(parts[c.time]), types[c.date], types[c.time]))
    && (single && config.customFormat != "" ==>
          time == r.custom(Trim(parts[config.timeColumn]), config.customFormat))
    && (single && config.customFormat == "" ==>
          time == if types[config.timeColumn].kind == Str then None
                  else r.parse(Trim(parts[config.timeColumn]), types[config.timeColumn]))
    && (!combined && !single ==> time == Some(rows as real))
  }

  /** What column i keeps of a cell: nothing of a date or time component, of an empty cell or without a type; else a
      number where the cell reads as one, epochs as plain numbers, and the text itself where it does not. */
  ghost predicate CellStored(r: Readers, config: Config, i: nat, t: ColumnType, text: string, cell: Option<Value>) {
    var component := && 0 <= config.combinedIndex < |config.combinedColumns|
                     && i in {config.combinedColumns[config.combinedIndex].date,
                              config.combinedColumns[config.combinedIndex].time};
    var epoch := t.kind in {EpochSeconds, EpochMillis, EpochMicros, EpochNanos};
    var number := r.parse(text, if epoch then ColumnType(Number, t.format, t.hasFractional) else t);
    if component || text == "" || t.kind == Undefined then cell == None
    else if t.kind == Str || number.None? then cell == Some(Text(text))
    else cell == Some(Num(number.value))
  }

  lemma ReturnDropped(line: string, text: string)
    requires IsLine(line, text)
    ensures Same(WithoutReturn(line), text)
  {
    if line == text + "\r" {
      CutConcat(text, "\r");
    }
  }

  /** What a line of these fields makes of the reading. One of another field count is skipped. Any other fixes the
      type of columns that had none; it is skipped exactly when its time does not read, and else appends one row with
      that time and with what each column keeps of its cell. */
  ghost predicate LineLeaves(
      r: Readers, config: Config, before: Reading, parts: seq<string>, after: Reading, time: Option<real>)
  {
    && |after.types| == |before.types|
    && (|parts| != |before.types| ==> after == before.(skipped := before.skipped + 1))
    && (|parts| == |before.types| ==>
          && (forall i :: 0 <= i < |parts| ==>
                after.types[i] == if before.types[i].kind == Undefined && parts[i] != ""
                                  then r.detect(parts[i]) else before.types[i])
          && TimeReads(r, config, after.types, parts, |before.rows|, time)
          && (time.None? ==> after.rows == before.rows && after.skipped == before.skipped + 1)
          && (time.Some? ==>
                && after.skipped == before.skipped && |after.rows| == |before.rows| + 1
                && after.rows[..|before.rows|] == before.rows
                && RowKeeps(r, config, after.types, parts, after.rows[|before.rows|], time.value)))
  }

  ghost predicate RowKeeps(
      r: Readers, config: Config, types: seq<ColumnType>, parts: seq<string>, row: Row, time: real)
    requires |types| == |parts|
  {
    && row.time == time && |row.cells| == |parts|
    && forall i :: 0 <= i < |parts| ==> CellStored(r, config, i, types[i], parts[i], row.cells[i])
  }

  lemma RowIsKept(r: Readers, config: Config, types: seq<ColumnType>, parts: seq<string>, time: real)
    requires |types| == |parts|
    ensures RowKeeps(r, config, types, parts, RowOf(r, config, types, parts, time), time)
  {
  }

  lemma OneLine(r: Readers, config: Config, before: Reading, line: string, parts: seq<string>)
    returns (time: Option<real>)
    requires Fits(config, |before.types|)
    requires parts == Split(WithoutReturn(line), config.delimiter, "", false)
    ensures LineLeaves(r, config, before, parts, ReadLine(r, config, before, line), time)
  {
    time := None;
    if |parts| == |before.types| {
      var types := Detected(r, before.types, parts);
      time := TimeOf(r, config, types, parts, |before.rows|);
      if time.Some? {
        RowIsKept(r, config, types, parts, time.value);
      }
    }
  }

  /** For every line after the header, from the reading of the lines before it. */
  lemma LineExactly(r: Readers, config: Config, file: seq<string>, n: nat, text: string) returns (time: Option<real>)
    requires HasHeader(config, file) && Fits(config, Width(config, file)) && config.skipRows + 1 + n < |file|
    requires IsLine(file[config.skipRows + 1 + n], text)
    ensures |ReadUpTo(r, config, file, n).types| == Width(config, file)
    ensures LineLeaves(r, config, ReadUpTo(r, config, file, n), Split(text, config.delimiter, "", false),
                       ReadUpTo(r, config, file, n + 1), time)
  {
    var body := Body(config, file);
    assert body[n] == file[config.skipRows + 1 + n];
    PrefixOfPrefix(body, n + 1, n);
    ReturnDropped(body[n], text);
    time := OneLine(r, config, ReadUpTo(r, config, file, n), body[n], Split(text, config.delimiter, "", false));
  }
}
