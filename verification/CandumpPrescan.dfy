/** The bounded scans of a capture: the time-mode pass and the dialog's full prescan. */
module CandumpPrescan {
  import opened Slices
  import opened Wrappers
  import opened Int64
  import opened CandumpTokens
  import opened CandumpLines
  import opened CandumpClock
  import opened Decimal

  // ----- the shared time-mode rule -----

  const ABSOLUTE_THRESHOLD_SECONDS := 1_000_000_000

  /** One numeric timestamp as both scans see it. */
  datatype Seen = Seen(seconds: int, ns: int)

  datatype TimeModeDetection = TimeModeDetection(mode: TimeMode, sawNumericTimestamp: bool)

  predicate NonDecreasing(s: seq<Seen>) {
    forall i, j :: 0 <= i < j < |s| ==> s[i].ns <= s[j].ns
  }

  /** The documented rule, on the list of all stamps seen. */
  ghost function TimeModeOf(s: seq<Seen>): TimeModeDetection {
    if s == [] then TimeModeDetection(Absolute, false)
    else if s[0].seconds >= ABSOLUTE_THRESHOLD_SECONDS then TimeModeDetection(Absolute, true)
    else if NonDecreasing(s) then TimeModeDetection(RelativeMonotonic, true)
    else TimeModeDetection(RelativeDelta, true)
  }

  /** The rule, case by case: a first stamp of 10^9 s or more is absolute, and so is a file without stamps; otherwise a
      stamp below an earlier one makes deltas. */
  lemma TimeModeExactly(s: seq<Seen>)
    ensures var r := TimeModeOf(s);
            && (r.sawNumericTimestamp <==> s != [])
            && (r.mode == Absolute <==> s == [] || s[0].seconds >= 1_000_000_000)
            && (r.mode == RelativeDelta <==>
                  && s != [] && s[0].seconds < 1_000_000_000
                  && exists i, j :: 0 <= i < j < |s| && s[i].ns > s[j].ns)
  {
  }

  function DecideTimeMode(saw: bool, firstSeconds: int, monotonic: bool): TimeModeDetection {
    if !saw then TimeModeDetection(Absolute, false)
    else if firstSeconds >= ABSOLUTE_THRESHOLD_SECONDS then TimeModeDetection(Absolute, true)
    else if monotonic then TimeModeDetection(RelativeMonotonic, true)
    else TimeModeDetection(RelativeDelta, true)
  }

  /** The five variables both loops keep, one per stamp seen. */
  datatype Tracker = Tracker(saw: bool, havePrev: bool, prevNs: int, firstSeconds: int, monotonic: bool)

  const NOTHING_SEEN := Tracker(false, false, 0, 0, true)

  function Track(t: Tracker, x: Seen): Tracker {
    Tracker(true, true, x.ns, if t.havePrev then t.firstSeconds else x.seconds,
            t.monotonic && !(t.havePrev && x.ns < t.prevNs))
  }

  ghost predicate InOrder(s: seq<Seen>, i: nat)
    requires 0 < i < |s|
  {
    s[i - 1].ns <= s[i].ns
  }

  ghost predicate Stepwise(s: seq<Seen>) {
    forall i :: 0 < i < |s| ==> InOrder(s, i)
  }

  ghost predicate Tracks(t: Tracker, s: seq<Seen>) {
    && t.saw == t.havePrev == (s != [])
    && (s != [] ==> t.firstSeconds == s[0].seconds && t.prevNs == s[|s| - 1].ns)
    && (t.monotonic <==> Stepwise(s))
  }

  lemma TrackStep(t: Tracker, s: seq<Seen>, x: Seen)
    requires Tracks(t, s)
    ensures Tracks(Track(t, x), s + [x])
  {
    var s' := s + [x];
    assert forall i :: 0 < i < |s| ==> InOrder(s', i) == InOrder(s, i);
    if t.monotonic && !(t.havePrev && x.ns < t.prevNs) {
      forall i | 0 < i < |s'| ensures InOrder(s', i) {}
    }
    if t.havePrev && x.ns < t.prevNs {
      assert !InOrder(s', |s|);
    }
  }

  /** Comparing neighbours only is comparing every pair. */
  lemma {:induction false} StepwiseNonDecreasing(s: seq<Seen>, i: nat, j: nat)
    requires Stepwise(s)
    requires i <= j < |s|
    ensures s[i].ns <= s[j].ns
  {
    if i < j {
      StepwiseNonDecreasing(s, i, j - 1);
      assert InOrder(s, j);
    }
  }

  lemma TrackerDecides(t: Tracker, s: seq<Seen>)
    requires Tracks(t, s)
    ensures DecideTimeMode(t.saw, t.firstSeconds, t.monotonic) == TimeModeOf(s)
  {
    if t.monotonic {
      forall i, j | 0 <= i < j < |s| ensures s[i].ns <= s[j].ns {
        StepwiseNonDecreasing(s, i, j);
      }
    } else {
      var i :| 0 < i < |s| && !InOrder(s, i);
      assert s[i - 1].ns > s[i].ns;
      assert !NonDecreasing(s);
    }
  }

  // ----- detectTimeMode -----

  /** parseTimestampPrefix: the stamp of a line, read without looking at its body. */
  function PrefixStamp(line: string): Option<Seen> {
    var ts := Timestamp(SkipSpaces(line)).0;
    StampProper(SkipSpaces(line));
    if ts.present && ts.numeric then Some(Seen(ts.seconds, CombineRawNs(ts.seconds, ts.fractionNs))) else None
  }

  /** What the pre-pass collects: every numeric prefix of a non-blank line. */
  function PrefixStamps(lines: seq<string>): seq<Seen> {
    if lines == [] then []
    else
      var before, last := PrefixStamps(lines[..|lines| - 1]), lines[|lines| - 1];
      if last == "" then before
      else match PrefixStamp(last)
        case None => before
        case Some(x) => before + [x]
  }

  lemma PrefixStampsAppend(lines: seq<string>, last: string)
    ensures PrefixStamps(lines + [last])
            == if last == "" then PrefixStamps(lines)
               else match PrefixStamp(last)
                 case None => PrefixStamps(lines)
                 case Some(x) => PrefixStamps(lines) + [x]
  {
    CutConcat(lines, [last]);
  }

  method TrackPrefix(t: Tracker, line: string, ghost before: seq<string>) returns (t': Tracker)
    requires Tracks(t, PrefixStamps(before))
    ensures Tracks(t', PrefixStamps(before + [line]))
  {
    t' := t;
    PrefixStampsAppend(before, line);
    if line != "" {
      var prefix := PrefixStamp(line);
      if prefix.Some? {
        TrackStep(t, PrefixStamps(before), prefix.value);
        t' := Track(t, prefix.value);
      }
    }
  }

  function Capped(n: nat, cap: nat): nat {
    if n < cap then n else cap
  }

  /** The pre-pass counts every line read against the cap, blank ones included. */
  method DetectTimeMode(lines: seq<string>, maxLines: nat) returns (r: TimeModeDetection)
    ensures r == TimeModeOf(PrefixStamps(lines[..Capped(|lines|, maxLines)]))
  {
    var t := NOTHING_SEEN;
    var count := 0;
    while count < maxLines && count < |lines|
      invariant count <= Capped(|lines|, maxLines)
      invariant Tracks(t, PrefixStamps(lines[..count]))
    {
      OneMore(lines, count);
      t := TrackPrefix(t, lines[count], lines[..count]);
      count := count + 1;
    }
    TrackerDecides(t, PrefixStamps(lines[..count]));
    r := DecideTimeMode(t.saw, t.firstSeconds, t.monotonic);
  }

  // ----- per-interface statistics -----

  datatype IfaceStats = IfaceStats(iface: string, frames: nat, ids: set<nat>)

  /** The dialog's row: the id set is reported by its size. */
  datatype IfaceRow = IfaceRow(iface: string, frames: nat, distinctIds: nat)

  function FindIface(stats: seq<IfaceStats>, iface: string): (r: Option<nat>)
    ensures r.Some? ==> r.value < |stats| && stats[r.value].iface == iface
    ensures r.None? ==> forall i :: 0 <= i < |stats| ==> stats[i].iface != iface
  {
    if stats == [] then None
    else if stats[|stats| - 1].iface == iface then Some(|stats| - 1)
    else FindIface(stats[..|stats| - 1], iface)
  }

  function Record(stats: seq<IfaceStats>, line: ParsedLine): seq<IfaceStats> {
    if !IsFrameKind(line.kind) || line.iface == "" then stats
    else match FindIface(stats, line.iface)
      case None => stats + [IfaceStats(line.iface, 1, {line.canId})]
      case Some(i) => stats[i := IfaceStats(line.iface, stats[i].frames + 1, stats[i].ids + {line.canId})]
  }

  function StatsOf(lines: seq<ParsedLine>): seq<IfaceStats> {
    if lines == [] then [] else Record(StatsOf(lines[..|lines| - 1]), lines[|lines| - 1])
  }

  /** How many of the lines satisfy a classification. */
  function Count(lines: seq<ParsedLine>, p: ParsedLine -> bool): nat {
    if lines == [] then 0
    else Count(lines[..|lines| - 1], p) + if p(lines[|lines| - 1]) then 1 else 0
  }

  predicate IsFrame(line: ParsedLine) {
    IsFrameKind(line.kind)
  }

  predicate IsFrameOn(line: ParsedLine, iface: string) {
    IsFrameKind(line.kind) && line.iface == iface
  }

  function IdsOn(lines: seq<ParsedLine>, iface: string): set<nat> {
    set i | 0 <= i < |lines| && IsFrameOn(lines[i], iface) :: lines[i].canId
  }

  function TotalFrames(stats: seq<IfaceStats>): nat {
    if stats == [] then 0 else TotalFrames(stats[..|stats| - 1]) + stats[|stats| - 1].frames
  }

  ghost predicate IfacesDistinct(stats: seq<IfaceStats>) {
    forall i, j :: 0 <= i < j < |stats| ==> stats[i].iface != stats[j].iface
  }

  /** Each row counts exactly the frames of its interface and holds exactly their ids. */
  ghost predicate RowExact(row: IfaceStats, lines: seq<ParsedLine>) {
    && row.iface != ""
    && row.frames == Count(lines, (l: ParsedLine) => IsFrameOn(l, row.iface))
    && row.ids == IdsOn(lines, row.iface)
  }

  lemma IdsOnStep(lines: seq<ParsedLine>, last: ParsedLine, iface: string)
    ensures IdsOn(lines + [last], iface) == IdsOn(lines, iface) + if IsFrameOn(last, iface) then {last.canId} else {}
  {
    var all := lines + [last];
    forall id | id in IdsOn(lines, iface) ensures id in IdsOn(all, iface) {
      var i :| 0 <= i < |lines| && IsFrameOn(lines[i], iface) && lines[i].canId == id;
      assert all[i] == lines[i];
    }
    assert all[|lines|] == last;
  }

  lemma CountStep(lines: seq<ParsedLine>, last: ParsedLine, p: ParsedLine -> bool)
    ensures Count(lines + [last], p) == Count(lines, p) + if p(last) then 1 else 0
  {
    CutConcat(lines, [last]);
  }

  lemma RowStep(row: IfaceStats, lines: seq<ParsedLine>, last: ParsedLine)
    requires RowExact(row, lines)
    ensures RowExact(if IsFrameOn(last, row.iface)
                     then IfaceStats(row.iface, row.frames + 1, row.ids + {last.canId}) else row, lines + [last])
  {
    CountStep(lines, last, (l: ParsedLine) => IsFrameOn(l, row.iface));
    IdsOnStep(lines, last, row.iface);
  }

  /** An interface without a row has had no frame. */
  ghost predicate NoneMissed(stats: seq<IfaceStats>, lines: seq<ParsedLine>) {
    forall i :: 0 <= i < |lines| && IsFrameKind(lines[i].kind) && lines[i].iface != ""
      ==> FindIface(stats, lines[i].iface).Some?
  }

  lemma {:induction false} CountNone(lines: seq<ParsedLine>, iface: string)
    requires forall i :: 0 <= i < |lines| ==> !IsFrameOn(lines[i], iface)
    ensures Count(lines, (l: ParsedLine) => IsFrameOn(l, iface)) == 0 && IdsOn(lines, iface) == {}
  {
    if lines != [] {
      CountNone(lines[..|lines| - 1], iface);
    }
  }

  ghost predicate StatsExact(stats: seq<IfaceStats>, lines: seq<ParsedLine>) {
    && IfacesDistinct(stats)
    && (forall i :: 0 <= i < |stats| ==> RowExact(stats[i], lines))
    && NoneMissed(stats, lines)
  }

  lemma FindIfaceUnique(stats: seq<IfaceStats>, i: nat)
    requires IfacesDistinct(stats) && i < |stats|
    ensures FindIface(stats, stats[i].iface) == Some(i)
  {
  }

  lemma FirstFrame(lines: seq<ParsedLine>, last: ParsedLine)
    requires IsFrameKind(last.kind) && last.iface != ""
    requires forall i :: 0 <= i < |lines| ==> !IsFrameOn(lines[i], last.iface)
    ensures RowExact(IfaceStats(last.iface, 1, {last.canId}), lines + [last])
  {
    CountNone(lines, last.iface);
    RowStep(IfaceStats(last.iface, 0, {}), lines, last);
    assert {} + {last.canId} == {last.canId};
  }

  lemma RecordNew(stats: seq<IfaceStats>, lines: seq<ParsedLine>, last: ParsedLine)
    requires StatsExact(stats, lines)
    requires IsFrameKind(last.kind) && last.iface != "" && FindIface(stats, last.iface).None?
    ensures StatsExact(Record(stats, last), lines + [last])
  {
    var stats', all := Record(stats, last), lines + [last];
    FirstFrame(lines, last);
    forall i | 0 <= i < |stats| ensures RowExact(stats'[i], all) {
      RowStep(stats[i], lines, last);
    }
    NoneMissedGrows(stats, lines, last);
  }

  lemma RecordKnown(stats: seq<IfaceStats>, lines: seq<ParsedLine>, last: ParsedLine)
    requires StatsExact(stats, lines)
    requires !(IsFrameKind(last.kind) && last.iface != "" && FindIface(stats, last.iface).None?)
    ensures StatsExact(Record(stats, last), lines + [last])
  {
    var stats', all := Record(stats, last), lines + [last];
    forall i | 0 <= i < |stats| ensures RowExact(stats'[i], all) {
      RowStep(stats[i], lines, last);
      FindIfaceUnique(stats, i);
    }
    NoneMissedGrows(stats, lines, last);
  }

  lemma NoneMissedGrows(stats: seq<IfaceStats>, lines: seq<ParsedLine>, last: ParsedLine)
    requires NoneMissed(stats, lines)
    ensures NoneMissed(Record(stats, last), lines + [last])
  {
    var stats', all := Record(stats, last), lines + [last];
    forall i | 0 <= i < |all| && IsFrameKind(all[i].kind) && all[i].iface != ""
      ensures FindIface(stats', all[i].iface).Some?
    {
      var known := FindIface(stats, all[i].iface);
      if known.Some? {
        assert stats'[known.value].iface == all[i].iface;
      } else {
        assert i == |lines|;
        assert stats'[|stats|].iface == last.iface;
      }
    }
  }

  lemma {:induction false} StatsAreExact(lines: seq<ParsedLine>)
    ensures StatsExact(StatsOf(lines), lines)
  {
    if lines != [] {
      var front, last := lines[..|lines| - 1], lines[|lines| - 1];
      StatsAreExact(front);
      assert lines == front + [last];
      if IsFrameKind(last.kind) && last.iface != "" && FindIface(StatsOf(front), last.iface).None? {
        RecordNew(StatsOf(front), front, last);
      } else {
        RecordKnown(StatsOf(front), front, last);
      }
    }
  }

  lemma {:induction false} TotalAfterUpdate(stats: seq<IfaceStats>, i: nat, row: IfaceStats)
    requires i < |stats|
    ensures TotalFrames(stats[i := row]) == TotalFrames(stats) - stats[i].frames + row.frames
  {
    var n := |stats| - 1;
    if i == n {
      assert stats[i := row][..n] == stats[..n];
    } else {
      TotalAfterUpdate(stats[..n], i, row);
      assert stats[i := row][..n] == stats[..n][i := row];
    }
  }

  lemma TotalStep(stats: seq<IfaceStats>, last: ParsedLine)
    requires IsFrameKind(last.kind) ==> last.iface != ""
    ensures TotalFrames(Record(stats, last)) == TotalFrames(stats) + if IsFrame(last) then 1 else 0
  {
    if IsFrameKind(last.kind) {
      match FindIface(stats, last.iface)
      case None => CutConcat(stats, [IfaceStats(last.iface, 1, {last.canId})]);
      case Some(i) =>
        TotalAfterUpdate(stats, i, IfaceStats(last.iface, stats[i].frames + 1, stats[i].ids + {last.canId}));
    }
  }

  /** The frames of all interfaces add up to the frame lines that name one. */
  lemma {:induction false} TotalIsFrameCount(lines: seq<ParsedLine>)
    requires forall i :: 0 <= i < |lines| && IsFrameKind(lines[i].kind) ==> lines[i].iface != ""
    ensures TotalFrames(StatsOf(lines)) == Count(lines, IsFrame)
  {
    if lines != [] {
      var front, last := lines[..|lines| - 1], lines[|lines| - 1];
      TotalIsFrameCount(front);
      TotalStep(StatsOf(front), last);
    }
  }

  // ----- prescanCandump -----

  datatype Counters = Counters(
    rtr: nat, fd: nat, xl: nat, error: nat, errorDetail: nat, dropcount: nat, droppedFramesTotal: nat, wallClock: nat)

  datatype PrescanResult = PrescanResult(
    linesScanned: nat, truncated: bool, malformed: nat, logShaped: nat, screenShaped: nat, recognized: Counters,
    interfaces: seq<IfaceRow>, timeMode: TimeModeDetection, firstTimestampNs: Option<int>)

  /** The lines the prescan parses: blank ones are skipped and not counted against the cap. */
  function NonBlank(lines: seq<string>): seq<string> {
    if lines == [] then []
    else
      var before, last := NonBlank(lines[..|lines| - 1]), lines[|lines| - 1];
      if last == "" then before else before + [last]
  }

  function Parsed(lines: seq<string>): (r: seq<ParsedLine>)
    ensures |r| == |lines|
    ensures forall i :: 0 <= i < |lines| ==> r[i] == Line(lines[i])
  {
    seq(|lines|, i requires 0 <= i < |lines| => Line(lines[i]))
  }

  /** The stamps the prescan tracks: those of accepted frame lines. */
  function FrameStamp(line: ParsedLine): Option<Seen> {
    if IsFrameKind(line.kind) && line.hasTimestamp && ProperStamp(line)
    then Some(Seen(line.tsSeconds, RawTimestampNs(line))) else None
  }

  function FrameStamps(lines: seq<ParsedLine>): seq<Seen> {
    if lines == [] then []
    else
      var before := FrameStamps(lines[..|lines| - 1]);
      match FrameStamp(lines[|lines| - 1])
      case None => before
      case Some(x) => before + [x]
  }

  /** The running total is a uint64. */
  function AddDropped(total: nat, line: ParsedLine): nat {
    if line.kind == DropNotice then (total + line.droppedCount) % UINT64_RANGE else total
  }

  function DroppedTotal(lines: seq<ParsedLine>): nat {
    if lines == [] then 0
    else
      AddDropped(DroppedTotal(lines[..|lines| - 1]), lines[|lines| - 1])
  }

  function OfKind(k: LineKind): ParsedLine -> bool {
    (l: ParsedLine) => l.kind == k
  }

  function FramesOfGrammar(g: Grammar): ParsedLine -> bool {
    (l: ParsedLine) => IsFrameKind(l.kind) && l.grammar == g
  }

  function CountersOf(p: seq<ParsedLine>): Counters {
    Counters(Count(p, OfKind(Rtr)), Count(p, OfKind(Fd)), Count(p, OfKind(Xl)), Count(p, OfKind(ErrorFrame)),
             Count(p, OfKind(ErrorDetail)), Count(p, OfKind(DropNotice)), DroppedTotal(p), Count(p, OfKind(WallClock)))
  }

  lemma {:induction false} CountIs(lines: seq<ParsedLine>, p: ParsedLine -> bool)
    ensures Count(lines, p) == |set i | 0 <= i < |lines| && p(lines[i])|
  {
    var all := set i | 0 <= i < |lines| && p(lines[i]);
    if lines == [] {
      assert all == {};
    } else {
      var front, last := lines[..|lines| - 1], |lines| - 1;
      CountIs(front, p);
      assert all == (set i | 0 <= i < |front| && p(front[i])) + if p(lines[last]) then {last} else {};
    }
  }

  /** The recognised lines of each kind, as sets of line numbers. */
  lemma CountersExactly(p: seq<ParsedLine>)
    ensures var c := CountersOf(p);
            && c.rtr == |set i | 0 <= i < |p| && p[i].kind == Rtr|
            && c.fd == |set i | 0 <= i < |p| && p[i].kind == Fd|
            && c.xl == |set i | 0 <= i < |p| && p[i].kind == Xl|
            && c.error == |set i | 0 <= i < |p| && p[i].kind == ErrorFrame|
            && c.errorDetail == |set i | 0 <= i < |p| && p[i].kind == ErrorDetail|
            && c.dropcount == |set i | 0 <= i < |p| && p[i].kind == DropNotice|
            && c.wallClock == |set i | 0 <= i < |p| && p[i].kind == WallClock|
  {
    KindCount(p, Rtr);
    KindCount(p, Fd);
    KindCount(p, Xl);
    KindCount(p, ErrorFrame);
    KindCount(p, ErrorDetail);
    KindCount(p, DropNotice);
    KindCount(p, WallClock);
  }

  lemma KindCount(p: seq<ParsedLine>, k: LineKind)
    ensures Count(p, OfKind(k)) == |set i | 0 <= i < |p| && p[i].kind == k|
  {
    CountIs(p, OfKind(k));
    assert (set i | 0 <= i < |p| && p[i].kind == k) == set i | 0 <= i < |p| && OfKind(k)(p[i]);
  }

  function Rows(stats: seq<IfaceStats>): seq<IfaceRow> {
    seq(|stats|, i requires 0 <= i < |stats| => IfaceRow(stats[i].iface, stats[i].frames, |stats[i].ids|))
  }

  /** The running state of the scan. */
  datatype Scan = Scan(malformed: nat, logShaped: nat, screenShaped: nat, recognized: Counters,
                       stats: seq<IfaceStats>, tracker: Tracker, first: Option<int>)

  const EMPTY_SCAN := Scan(0, 0, 0, Counters(0, 0, 0, 0, 0, 0, 0, 0), [], NOTHING_SEEN, None)

  function FirstNs(s: seq<Seen>): Option<int> {
    if s == [] then None else Some(s[0].ns)
  }

  ghost predicate Scanned(s: Scan, p: seq<ParsedLine>) {
    && s.malformed == Count(p, OfKind(Malformed))
    && s.logShaped == Count(p, FramesOfGrammar(LogGrammar))
    && s.screenShaped == Count(p, FramesOfGrammar(ScreenGrammar))
    && s.recognized == CountersOf(p)
    && s.stats == StatsOf(p)
    && Tracks(s.tracker, FrameStamps(p))
    && s.first == FirstNs(FrameStamps(p))
  }

  method RecordFrame(stats: seq<IfaceStats>, line: ParsedLine) returns (stats': seq<IfaceStats>)
    requires IsFrameKind(line.kind)
    ensures stats' == Record(stats, line)
  {
    stats' := stats;
    if line.iface != "" {
      var known := FindIface(stats, line.iface);
      if known.Some? {
        var row := stats[known.value];
        stats' := stats[known.value := IfaceStats(row.iface, row.frames + 1, row.ids + {line.canId})];
      } else {
        stats' := stats + [IfaceStats(line.iface, 1, {line.canId})];
      }
    }
  }

  method TrackFrame(t: Tracker, first: Option<int>, line: ParsedLine, ghost seen: seq<Seen>)
    returns (t': Tracker, first': Option<int>)
    requires Tracks(t, seen) && first == FirstNs(seen)
    requires IsFrameKind(line.kind) && ProperStamp(line)
    ensures var seen' := match FrameStamp(line) case None => seen case Some(x) => seen + [x];
            Tracks(t', seen') && first' == FirstNs(seen')
  {
    t', first' := t, first;
    if line.hasTimestamp {
      var ns := RawTimestampNs(line);
      if !t.havePrev {
        first' := Some(ns);
      }
      TrackStep(t, seen, Seen(line.tsSeconds, ns));
      t' := Track(t, Seen(line.tsSeconds, ns));
    }
  }

  /** The counter of each recognized kind; the other kinds leave the counters alone. */
  function Tallied(c: Counters, line: ParsedLine): Counters {
    match line.kind
    case ErrorDetail => c.(errorDetail := c.errorDetail + 1)
    case WallClock => c.(wallClock := c.wallClock + 1)
    case DropNotice =>
      c.(dropcount := c.dropcount + 1, droppedFramesTotal := AddDropped(c.droppedFramesTotal, line))
    case Rtr => c.(rtr := c.rtr + 1)
    case Fd => c.(fd := c.fd + 1)
    case Xl => c.(xl := c.xl + 1)
    case ErrorFrame => c.(error := c.error + 1)
    case _ => c
  }

  lemma TalliedStep(before: seq<ParsedLine>, line: ParsedLine)
    ensures CountersOf(before + [line]) == Tallied(CountersOf(before), line)
  {
    ScanSteps(before, line);
  }

  /** The body of the prescan loop for one parsed line. */
  method ScanLine(s: Scan, line: ParsedLine, ghost before: seq<ParsedLine>) returns (s': Scan)
    requires Scanned(s, before) && ProperStamp(line)
    ensures Scanned(s', before + [line])
  {
    ScanSteps(before, line);
    TalliedStep(before, line);
    s' := s.(recognized := Tallied(s.recognized, line));
    if line.kind == Malformed {
      return s'.(malformed := s.malformed + 1);
    }
    if !IsFrameKind(line.kind) {
      return;
    }
    if line.grammar == LogGrammar {
      s' := s'.(logShaped := s.logShaped + 1);
    } else if line.grammar == ScreenGrammar {
      s' := s'.(screenShaped := s.screenShaped + 1);
    }
    var tracker, first := TrackFrame(s.tracker, s.first, line, FrameStamps(before));
    var stats := RecordFrame(s.stats, line);
    s' := s'.(tracker := tracker, first := first, stats := stats);
  }

  /** How every specification function advances by one line. */
  lemma ScanSteps(before: seq<ParsedLine>, line: ParsedLine)
    ensures var p := before + [line];
            && (forall k :: Count(p, OfKind(k)) == Count(before, OfKind(k)) + if line.kind == k then 1 else 0)
            && (forall g :: Count(p, FramesOfGrammar(g))
                            == Count(before, FramesOfGrammar(g))
                               + if IsFrameKind(line.kind) && line.grammar == g then 1 else 0)
            && DroppedTotal(p) == AddDropped(DroppedTotal(before), line)
            && StatsOf(p) == Record(StatsOf(before), line)
            && FrameStamps(p)
               == match FrameStamp(line) case None => FrameStamps(before) case Some(x) => FrameStamps(before) + [x]
  {
    var p := before + [line];
    assert p[..|before|] == before;
    forall k ensures Count(p, OfKind(k)) == Count(before, OfKind(k)) + if line.kind == k then 1 else 0 {
      CountStep(before, line, OfKind(k));
    }
    forall g
      ensures Count(p, FramesOfGrammar(g))
              == Count(before, FramesOfGrammar(g)) + if IsFrameKind(line.kind) && line.grammar == g then 1 else 0
    {
      CountStep(before, line, FramesOfGrammar(g));
    }
  }

  function Window(lines: seq<string>, maxLines: nat): seq<string> {
    NonBlank(lines)[..Capped(|NonBlank(lines)|, maxLines)]
  }

  lemma {:induction false} NonBlankPrefix(lines: seq<string>, i: nat)
    requires i <= |lines|
    ensures NonBlank(lines[..i]) <= NonBlank(lines)
  {
    if i == |lines| {
      assert lines[..i] == lines;
    } else {
      NonBlankPrefix(lines[..|lines| - 1], i);
      assert lines[..|lines| - 1][..i] == lines[..i];
    }
  }

  lemma ParsedAppend(lines: seq<string>, last: string)
    ensures Parsed(lines + [last]) == Parsed(lines) + [Line(last)]
  {
  }

  method ScanText(s: Scan, line: string, ghost seen: seq<string>) returns (s': Scan)
    requires Scanned(s, Parsed(seen))
    ensures Scanned(s', Parsed(seen + [line]))
  {
    var parsed := ParseLine(line);
    LineProper(line);
    s' := ScanLine(s, parsed, Parsed(seen));
    ParsedAppend(seen, line);
  }

  lemma EmptyScanned(p: seq<ParsedLine>)
    requires p == []
    ensures Scanned(EMPTY_SCAN, p)
  {
  }

  lemma NonBlankStep(lines: seq<string>, i: nat)
    requires i < |lines|
    ensures NonBlank(lines[..i + 1])
            == if lines[i] == "" then NonBlank(lines[..i]) else NonBlank(lines[..i]) + [lines[i]]
  {
    PrefixOfPrefix(lines, i + 1, i);
  }

  lemma WindowReached(lines: seq<string>, next: nat, maxLines: nat)
    requires next <= |lines| && |NonBlank(lines[..next])| <= maxLines
    requires next == |lines| || |NonBlank(lines[..next])| == maxLines
    ensures NonBlank(lines[..next]) == Window(lines, maxLines)
  {
    NonBlankPrefix(lines, next);
    assert next == |lines| ==> lines[..next] == lines;
  }

  /** Between rounds: the lines read so far are scanned, at most `maxLines` of them non-blank. */
  ghost predicate ScanInv(s: Scan, scanned: nat, next: nat, lines: seq<string>, maxLines: nat) {
    && next <= |lines| && scanned == |NonBlank(lines[..next])| <= maxLines
    && Scanned(s, Parsed(NonBlank(lines[..next])))
  }

  method ScanNext(s: Scan, scanned: nat, next: nat, lines: seq<string>, maxLines: nat)
    returns (s': Scan, scanned': nat)
    requires ScanInv(s, scanned, next, lines, maxLines) && next < |lines| && scanned < maxLines
    ensures ScanInv(s', scanned', next + 1, lines, maxLines)
  {
    s', scanned' := s, scanned;
    NonBlankStep(lines, next);
    if lines[next] != "" {
      scanned' := scanned + 1;
      s' := ScanText(s, lines[next], NonBlank(lines[..next]));
    }
  }

  lemma ScanStarts(lines: seq<string>, maxLines: nat)
    ensures ScanInv(EMPTY_SCAN, 0, 0, lines, maxLines)
  {
    EmptyScanned(Parsed(NonBlank(lines[..0])));
  }

  lemma ScanEnds(s: Scan, scanned: nat, next: nat, lines: seq<string>, maxLines: nat)
    requires ScanInv(s, scanned, next, lines, maxLines) && (scanned == maxLines || next == |lines|)
    ensures Scanned(s, Parsed(Window(lines, maxLines))) && scanned == |Window(lines, maxLines)|
  {
    WindowReached(lines, next, maxLines);
  }

  /** The scan loop: stops at the cap or at the end of the stream. */
  method ScanLines(lines: seq<string>, maxLines: nat) returns (s: Scan, scanned: nat)
    ensures Scanned(s, Parsed(Window(lines, maxLines))) && scanned == |Window(lines, maxLines)|
  {
    s, scanned := EMPTY_SCAN, 0;
    var next := 0;
    ScanStarts(lines, maxLines);
    while scanned < maxLines && next < |lines|
      invariant ScanInv(s, scanned, next, lines, maxLines)
      decreases |lines| - next
    {
      s, scanned := ScanNext(s, scanned, next, lines, maxLines);
      next := next + 1;
    }
    ScanEnds(s, scanned, next, lines, maxLines);
  }

  /** The final loop: each id set is reported by its size. */
  method BuildRows(stats: seq<IfaceStats>) returns (rows: seq<IfaceRow>)
    ensures rows == Rows(stats)
  {
    rows := [];
    for i := 0 to |stats|
      invariant rows == Rows(stats)[..i]
    {
      rows := rows + [IfaceRow(stats[i].iface, stats[i].frames, |stats[i].ids|)];
    }
  }

  method PrescanCandump(lines: seq<string>, maxLines: nat) returns (r: PrescanResult)
    ensures var p := Parsed(Window(lines, maxLines));
            && r.linesScanned == |p| && (r.truncated <==> |NonBlank(lines)| >= maxLines)
            && r.malformed == Count(p, OfKind(Malformed))
            && r.logShaped == Count(p, FramesOfGrammar(LogGrammar))
            && r.screenShaped == Count(p, FramesOfGrammar(ScreenGrammar))
            && r.recognized == CountersOf(p)
            && r.interfaces == Rows(StatsOf(p))
            && r.timeMode == TimeModeOf(FrameStamps(p))
            && r.firstTimestampNs == FirstNs(FrameStamps(p))
  {
    var s, scanned := ScanLines(lines, maxLines);
    TrackerDecides(s.tracker, FrameStamps(Parsed(Window(lines, maxLines))));
    var rows := BuildRows(s.stats);
    r := PrescanResult(
      scanned, scanned >= maxLines, s.malformed, s.logShaped, s.screenShaped, s.recognized, rows,
      DecideTimeMode(s.tracker.saw, s.tracker.firstSeconds, s.tracker.monotonic), s.first);
  }

  // ----- what is read -----

  function FilledCount(lines: seq<string>): nat {
    if lines == [] then 0
    else FilledCount(lines[..|lines| - 1]) + if lines[|lines| - 1] != "" then 1 else 0
  }

  /** The lines the prescan reads: the first of those that are not blank, in order, up to the cap. */
  lemma {:induction false} WindowExactly(lines: seq<string>, maxLines: nat, i: nat)
    ensures var n := FilledCount(lines); |Window(lines, maxLines)| == if n < maxLines then n else maxLines
    ensures i < |lines| && lines[i] != "" && FilledCount(lines[..i]) < maxLines ==>
              && FilledCount(lines[..i]) < |Window(lines, maxLines)|
              && Window(lines, maxLines)[FilledCount(lines[..i])] == lines[i]
  {
    NonBlankAt(lines, i);
  }

  lemma {:induction false} NonBlankAt(lines: seq<string>, i: nat)
    ensures |NonBlank(lines)| == FilledCount(lines)
    ensures i < |lines| && lines[i] != "" ==>
              FilledCount(lines[..i]) < |NonBlank(lines)| && NonBlank(lines)[FilledCount(lines[..i])] == lines[i]
  {
    if lines != [] {
      NonBlankAt(lines[..|lines| - 1], i);
      if i < |lines| - 1 {
        PrefixOfPrefix(lines, |lines| - 1, i);
      }
    }
  }

  /** What the scans see of a stamp without a minus that fits: its whole seconds, and min(whole * 10^9 + fraction,
      2^63 - 1) nanoseconds. */
  lemma SeenExactly(line: string, whole: string, fraction: string)
    requires AllDigits(whole) && AllDigits(fraction) && Value(whole) <= INT64_MAX && FractionFits(fraction)
    requires IsStamped(line, whole, fraction)
    ensures PrefixStamp(line) == Some(SeenOf(Value(whole), WrittenFraction(fraction)))
  {
    RawOfStamped(line, whole, fraction);
    SecondsOfStamped(line, whole, fraction);
    NumericPrefix(line);
    SeenAs(Line(line), whole, fraction);
  }

  ghost function SeenOf(seconds: nat, ns: nat): Seen {
    Seen(seconds, LeastOf(seconds * 1_000_000_000 + ns, 0x7FFF_FFFF_FFFF_FFFF))
  }

  lemma SeenAs(out: ParsedLine, whole: string, fraction: string)
    requires AllDigits(whole) && AllDigits(fraction) && ReadsAs(out, whole, fraction)
    ensures Seen(Value(whole), RawTimestampNs(out)) == SeenOf(Value(whole), WrittenFraction(fraction))
  {
  }

  lemma SecondsOfStamped(line: string, whole: string, fraction: string)
    requires AllDigits(whole) && Value(whole) <= INT64_MAX && IsStamped(line, whole, fraction)
    ensures Line(line).tsSeconds == Value(whole)
  {
    LineStamp(line);
    SecondsExactly(false, whole);
  }

  lemma NumericPrefix(line: string)
    requires HasNumericTimestamp(Line(line))
    ensures ProperStamp(Line(line))
    ensures PrefixStamp(line) == Some(Seen(Line(line).tsSeconds, RawTimestampNs(Line(line))))
  {
    LineProper(line);
    KeepsPrefix(line);
  }

  // ----- conservation -----

  /** A frame line says which grammar accepted it and names an interface. */
  ghost predicate Classified(p: seq<ParsedLine>) {
    forall i :: 0 <= i < |p| && IsFrameKind(p[i].kind) ==>
      p[i].iface != "" && (p[i].grammar == LogGrammar || p[i].grammar == ScreenGrammar)
  }

  lemma ParsedIsClassified(lines: seq<string>)
    ensures Classified(Parsed(lines))
  {
    forall i | 0 <= i < |lines| && IsFrameKind(Line(lines[i]).kind)
      ensures Line(lines[i]).iface != ""
      ensures Line(lines[i]).grammar == LogGrammar || Line(lines[i]).grammar == ScreenGrammar
    {
      AcceptedFrame(lines[i]);
    }
  }

  lemma {:induction false} SixTotals(p: seq<ParsedLine>)
    requires Classified(p)
    ensures |p| == Count(p, OfKind(Malformed)) + Count(p, OfKind(ErrorDetail)) + Count(p, OfKind(WallClock))
                   + Count(p, OfKind(DropNotice)) + Count(p, FramesOfGrammar(LogGrammar))
                   + Count(p, FramesOfGrammar(ScreenGrammar))
    ensures Count(p, IsFrame) == Count(p, FramesOfGrammar(LogGrammar)) + Count(p, FramesOfGrammar(ScreenGrammar))
  {
    if p != [] {
      SixTotals(p[..|p| - 1]);
    }
  }

  /** Every line the prescan counts falls into exactly one of the six totals. */
  lemma CountsAddUp(lines: seq<string>)
    ensures var p := Parsed(lines);
            |lines| == Count(p, OfKind(Malformed)) + Count(p, OfKind(ErrorDetail)) + Count(p, OfKind(WallClock))
                       + Count(p, OfKind(DropNotice)) + Count(p, FramesOfGrammar(LogGrammar))
                       + Count(p, FramesOfGrammar(ScreenGrammar))
  {
    ParsedIsClassified(lines);
    SixTotals(Parsed(lines));
  }

  /** Prescan conservation: the log- and screen-shaped lines are the frames over all distinct interfaces, and
      each interface's row counts its own frames and the distinct ids among them. */
  lemma FramesPerInterface(lines: seq<string>)
    ensures var p := Parsed(lines);
            && Count(p, FramesOfGrammar(LogGrammar)) + Count(p, FramesOfGrammar(ScreenGrammar))
               == TotalFrames(StatsOf(p))
            && IfacesDistinct(StatsOf(p))
            && forall i :: 0 <= i < |StatsOf(p)| ==>
                 var row := StatsOf(p)[i];
                 && Rows(StatsOf(p))[i] == IfaceRow(row.iface, row.frames, |IdsOn(p, row.iface)|)
                 && row.frames == Count(p, (l: ParsedLine) => IsFrameOn(l, row.iface))
  {
    var p := Parsed(lines);
    ParsedIsClassified(lines);
    SixTotals(p);
    TotalIsFrameCount(p);
    StatsAreExact(p);
    forall i | 0 <= i < |StatsOf(p)| ensures RowExact(StatsOf(p)[i], p) {}
  }

  // ----- agreement of the two time modes -----

  /** A line the pre-pass counts but the prescan drops: a numeric stamp in front of an unparsable body. */
  predicate HiddenStamp(line: string) {
    Line(line).kind == Malformed && PrefixStamp(line).Some?
  }

  lemma FrameLineStamp(line: string)
    requires IsFrameKind(Line(line).kind)
    ensures FrameStamp(Line(line)) == PrefixStamp(line) && PrefixStamp(line).Some?
  {
    AcceptedPrefix(line);
    StampProper(SkipSpaces(line));
  }

  /** The two scans take the same stamp from a line exactly when it is not such a line. */
  lemma SameStampExactly(line: string)
    ensures FrameStamp(Line(line)) == PrefixStamp(line) <==> !HiddenStamp(line)
    ensures FrameStamp(Line(line)).Some? ==> FrameStamp(Line(line)) == PrefixStamp(line)
  {
    if IsFrameKind(Line(line).kind) {
      FrameLineStamp(line);
    } else if Line(line).kind != Malformed {
      NoStampBeforeGrammars(line);
    }
  }

  lemma NoStampBeforeGrammars(line: string)
    requires !IsFrameKind(Line(line).kind) && Line(line).kind != Malformed
    ensures PrefixStamp(line).None?
  {
    if IsDetail(line) {
      assert SkipSpaces(line) == line;
    } else if DROP_PREFIX <= line {
      assert line[0] == 'D';
      assert SkipSpaces(line) == line;
    } else {
      assert Line(line).kind == WallClock;
    }
  }

  ghost predicate NoBlank(lines: seq<string>) {
    forall i :: 0 <= i < |lines| ==> lines[i] != ""
  }

  ghost predicate NoneHidden(lines: seq<string>) {
    forall i :: 0 <= i < |lines| ==> !HiddenStamp(lines[i])
  }

  lemma FrameStampsAppend(lines: seq<ParsedLine>, last: ParsedLine)
    ensures FrameStamps(lines + [last])
            == match FrameStamp(last) case None => FrameStamps(lines) case Some(x) => FrameStamps(lines) + [x]
  {
    CutConcat(lines, [last]);
  }

  /** One more line: both lists grow alike, unless its stamp is hidden. */
  lemma StampListsStep(front: seq<string>, last: string)
    requires last != ""
    ensures var a, b := FrameStamps(Parsed(front)), PrefixStamps(front);
            var a', b' := FrameStamps(Parsed(front + [last])), PrefixStamps(front + [last]);
            if HiddenStamp(last) then a' == a && |b'| == |b| + 1
            else |a'| - |a| == |b'| - |b| && (Same(a', b') <==> Same(a, b))
  {
    SameStampExactly(last);
    ParsedAppend(front, last);
    FrameStampsAppend(Parsed(front), Line(last));
    PrefixStampsAppend(front, last);
    assert HiddenStamp(last) ==> FrameStamp(Line(last)).None?;
    var a, b := FrameStamps(Parsed(front)), PrefixStamps(front);
    if !HiddenStamp(last) && PrefixStamp(last).Some? {
      var x := PrefixStamp(last).value;
      CutConcat(a, [x]);
      CutConcat(b, [x]);
    }
  }

  lemma NoneHiddenStep(front: seq<string>, last: string)
    ensures NoneHidden(front + [last]) <==> NoneHidden(front) && !HiddenStamp(last)
  {
    var lines := front + [last];
    assert lines[|front|] == last && forall i :: 0 <= i < |front| ==> lines[i] == front[i];
  }

  lemma {:induction false} StampListsSame(lines: seq<string>)
    requires NoBlank(lines)
    ensures |FrameStamps(Parsed(lines))| <= |PrefixStamps(lines)|
    ensures Same(FrameStamps(Parsed(lines)), PrefixStamps(lines)) <==> NoneHidden(lines)
    ensures !NoneHidden(lines) ==> |FrameStamps(Parsed(lines))| < |PrefixStamps(lines)|
  {
    if lines != [] {
      var front, last := lines[..|lines| - 1], lines[|lines| - 1];
      StampListsSame(front);
      StampListsStep(front, last);
      NoneHiddenStep(front, last);
      LastOff(lines);
    }
  }

  /** On non-blank lines the prescan's stamps are the pre-pass's without the hidden ones. */
  lemma StampListsAgree(lines: seq<string>)
    requires NoBlank(lines)
    ensures |FrameStamps(Parsed(lines))| <= |PrefixStamps(lines)|
    ensures FrameStamps(Parsed(lines)) == PrefixStamps(lines) <==> NoneHidden(lines)
    ensures !NoneHidden(lines) ==> |FrameStamps(Parsed(lines))| < |PrefixStamps(lines)|
  {
    StampListsSame(lines);
  }

  lemma {:induction false} BlankLinesCarryNoStamp(lines: seq<string>)
    ensures PrefixStamps(NonBlank(lines)) == PrefixStamps(lines)
    ensures NoBlank(NonBlank(lines))
  {
    if lines != [] {
      BlankLinesCarryNoStamp(lines[..|lines| - 1]);
      PrefixStampsAppend(NonBlank(lines[..|lines| - 1]), lines[|lines| - 1]);
    }
  }

  lemma {:induction false} NonBlankIdentity(lines: seq<string>)
    requires NoBlank(lines)
    ensures NonBlank(lines) == lines
  {
    if lines != [] {
      NonBlankIdentity(lines[..|lines| - 1]);
    }
  }

  /** Both windows cover the same non-blank lines: no blank one among those read, or all of them fit. */
  lemma SameWindow(lines: seq<string>, maxLines: nat)
    requires |lines| <= maxLines || NoBlank(lines[..maxLines])
    ensures Window(lines, maxLines) == NonBlank(lines[..Capped(|lines|, maxLines)])
  {
    if |lines| <= maxLines {
      NonBlankLength(lines);
      assert lines[..Capped(|lines|, maxLines)] == lines;
    } else {
      NonBlankPrefix(lines, maxLines);
      NonBlankIdentity(lines[..maxLines]);
    }
  }

  lemma {:induction false} NonBlankLength(lines: seq<string>)
    ensures |NonBlank(lines)| <= |lines|
  {
    if lines != [] {
      NonBlankLength(lines[..|lines| - 1]);
    }
  }

  /** The non-blank lines the pre-pass reads … */
  function PrePass(lines: seq<string>, maxLines: nat): seq<string> {
    NonBlank(lines[..Capped(|lines|, maxLines)])
  }

  /** … are the first the prescan reads: blank lines count against the pre-pass's cap only. */
  lemma PrePassIsPrefix(lines: seq<string>, maxLines: nat)
    ensures PrePass(lines, maxLines) <= Window(lines, maxLines)
  {
    var read := lines[..Capped(|lines|, maxLines)];
    NonBlankPrefix(lines, |read|);
    NonBlankLength(read);
  }

  /** The lines only the prescan reads. */
  function Beyond(lines: seq<string>, maxLines: nat): (r: seq<string>)
    ensures Window(lines, maxLines) == PrePass(lines, maxLines) + r
  {
    PrePassIsPrefix(lines, maxLines);
    Window(lines, maxLines)[|PrePass(lines, maxLines)|..]
  }

  lemma {:induction false} FrameStampsConcat(a: seq<ParsedLine>, b: seq<ParsedLine>)
    ensures Same(FrameStamps(a + b), FrameStamps(a) + FrameStamps(b))
  {
    if b == [] {
      NothingAfter(a, b);
      NothingAfter(FrameStamps(a), []);
    } else {
      var front, last := b[..|b| - 1], b[|b| - 1];
      FrameStampsConcat(a, front);
      LastOff(b);
      Regroup(a, front, [last]);
      FrameStampsAppend(a + front, last);
      if FrameStamp(last).Some? {
        Regroup(FrameStamps(a), FrameStamps(front), [FrameStamp(last).value]);
      }
    }
  }

  lemma ParsedConcat(a: seq<string>, b: seq<string>)
    ensures Parsed(a + b) == Parsed(a) + Parsed(b)
  {
  }

  ghost predicate SameStamps(lines: seq<string>, maxLines: nat) {
    FrameStamps(Parsed(Window(lines, maxLines))) == PrefixStamps(lines[..Capped(|lines|, maxLines)])
  }

  /** For any lines and cap. When no line that both scans read hides a stamp, they see the same stamps exactly when
      the lines that only the prescan reads hold no frame; when those hold none, exactly when no stamp is hidden. In
      both cases, and whenever the stamps are the same, they decide the same time mode. */
  lemma TimeModesAgree(lines: seq<string>, maxLines: nat)
    ensures var hidden := !NoneHidden(PrePass(lines, maxLines));
            var more := FrameStamps(Parsed(Beyond(lines, maxLines))) != [];
            && (!hidden ==> (SameStamps(lines, maxLines) <==> !more))
            && (!more ==> (SameStamps(lines, maxLines) <==> !hidden))
    ensures SameStamps(lines, maxLines) ==>
              TimeModeOf(FrameStamps(Parsed(Window(lines, maxLines))))
              == TimeModeOf(PrefixStamps(lines[..Capped(|lines|, maxLines)]))
  {
    var read, common := lines[..Capped(|lines|, maxLines)], PrePass(lines, maxLines);
    BlankLinesCarryNoStamp(read);
    StampListsAgree(common);
    ParsedConcat(common, Beyond(lines, maxLines));
    FrameStampsConcat(Parsed(common), Parsed(Beyond(lines, maxLines)));
  }

  /** Without a blank line among those read, or when all lines fit the cap, both scans read the same lines. */
  lemma NothingBeyond(lines: seq<string>, maxLines: nat)
    requires |lines| <= maxLines || NoBlank(lines[..maxLines])
    ensures Beyond(lines, maxLines) == []
  {
    SameWindow(lines, maxLines);
  }
}
