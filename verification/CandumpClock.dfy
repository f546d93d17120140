/** Raw timestamps and the import timeline: exact saturating arithmetic on 64-bit nanoseconds. */
module CandumpClock {
  import opened Slices
  import opened Wrappers
  import opened Int64
  import opened Decimal
  import opened CandumpTokens
  import opened CandumpLines

  function Clamp(x: int): (r: int)
    ensures FitsInt64(r) && (FitsInt64(x) ==> r == x)
    ensures x > INT64_MAX ==> r == INT64_MAX
    ensures x < INT64_MIN ==> r == INT64_MIN
  {
    if x > INT64_MAX then INT64_MAX else if x < INT64_MIN then INT64_MIN else x
  }

  predicate IsFraction(f: int) {
    -NS_PER_SECOND < f < NS_PER_SECOND
  }

  /** combineRawNs, overflow guards included; the guards' own subtractions wrap. */
  function CombineRawNs(seconds: int, fraction: int): int
    requires IsFraction(fraction)
  {
    if seconds > 0 && seconds > TruncDiv(Wrap64(INT64_MAX - fraction), NS_PER_SECOND) then INT64_MAX
    else if seconds < 0 && seconds < TruncDiv(Wrap64(INT64_MIN - fraction), NS_PER_SECOND) then INT64_MIN
    else seconds * NS_PER_SECOND + fraction
  }

  /** Neither guard wraps: seconds and fraction do not have opposite signs. */
  predicate SameSign(seconds: int, fraction: int) {
    (seconds > 0 ==> fraction >= 0) && (seconds < 0 ==> fraction <= 0)
  }

  lemma GuardQuotient(x: nat)
    ensures (x / NS_PER_SECOND) * NS_PER_SECOND <= x < (x / NS_PER_SECOND + 1) * NS_PER_SECOND
  {
  }

  lemma CombineAbove(seconds: int, fraction: int)
    requires IsFraction(fraction) && seconds > 0
    ensures CombineRawNs(seconds, fraction)
            == if fraction >= 0 then Clamp(seconds * NS_PER_SECOND + fraction) else INT64_MAX
  {
    if fraction >= 0 {
      GuardQuotient(INT64_MAX - fraction);
    } else {
      WrapShift(INT64_MAX - fraction - UINT64_RANGE, 1);
      var x := UINT64_RANGE - INT64_MAX + fraction;
      GuardQuotient(x);
      TruncDivNegated(x, NS_PER_SECOND);
      assert 0 - x == INT64_MAX - fraction - UINT64_RANGE;
    }
  }

  lemma CombineBelow(seconds: int, fraction: int)
    requires IsFraction(fraction) && seconds < 0
    ensures CombineRawNs(seconds, fraction)
            == if fraction <= 0 then Clamp(seconds * NS_PER_SECOND + fraction) else INT64_MIN
  {
    if fraction <= 0 {
      var x := fraction - INT64_MIN;
      GuardQuotient(x);
      TruncDivNegated(x, NS_PER_SECOND);
      assert 0 - x == INT64_MIN - fraction;
    } else {
      WrapShift(INT64_MIN - fraction, 1);
      GuardQuotient(INT64_MIN - fraction + UINT64_RANGE);
    }
  }

  /** Saturation is exact when seconds and fraction have the same sign. When they do not, the guard's own
      subtraction wraps and the result is an end of the range, which is right only when the exact sum lies there. */
  lemma CombineRawNsExact(seconds: int, fraction: int)
    requires IsFraction(fraction)
    ensures FitsInt64(CombineRawNs(seconds, fraction))
    ensures var exact := seconds * NS_PER_SECOND + fraction;
            CombineRawNs(seconds, fraction) == Clamp(exact)
            <==> || SameSign(seconds, fraction)
                 || (seconds > 0 && exact >= INT64_MAX) || (seconds < 0 && exact <= INT64_MIN)
    ensures seconds >= 0 && fraction >= 0 ==>
              CombineRawNs(seconds, fraction)
              == if seconds * NS_PER_SECOND + fraction < INT64_MAX then seconds * NS_PER_SECOND + fraction
                 else INT64_MAX
  {
    if seconds > 0 {
      CombineAbove(seconds, fraction);
    } else if seconds < 0 {
      CombineBelow(seconds, fraction);
    }
  }

  // ----- raw timestamps of parsed lines -----

  predicate HasNumericTimestamp(line: ParsedLine) {
    line.hasTimestamp && line.kind != WallClock
  }

  /** Fractions of parsed lines are less than a second in size; a default line has none. */
  predicate ProperStamp(line: ParsedLine) {
    IsFraction(line.tsFractionNs)
  }

  function RawTimestampNs(line: ParsedLine): int
    requires ProperStamp(line)
  {
    CombineRawNs(line.tsSeconds, line.tsFractionNs)
  }

  lemma StampProper(s: string)
    ensures IsFraction(Timestamp(s).0.fractionNs)
  {
    forall inner: string | Stamp(inner).Some? ensures IsFraction(Stamp(inner).value.1) {
      FractionRange(FiguresOf(inner).value.fraction);
    }
  }

  lemma PrefixProper(line: string)
    ensures ProperStamp(CommonPrefix(line).out)
  {
    StampProper(SkipSpaces(line));
  }

  /** Every line the parser returns carries a fraction of less than a second in size. */
  lemma LineProper(line: string)
    ensures ProperStamp(Line(line))
  {
    if IsFrameLine(line) {
      LogProper(line);
      ScreenProper(line);
    }
  }

  lemma LogProper(line: string)
    ensures ProperStamp(LogLine(line))
  {
    PrefixProper(line);
  }

  lemma ScreenProper(line: string)
    ensures ProperStamp(ScreenLine(line))
  {
    PrefixProper(line);
  }

  /** The text between the parentheses a line starts with. */
  function StampInner(line: string): Option<string> {
    var s := SkipSpaces(line);
    if s == [] || s[0] != '(' then None
    else match IndexOf(s[1..], ')')
      case None => None
      case Some(k) => Some(s[1..k + 1])
  }

  /** The stamp of a line with a numeric timestamp is that of the text between its parentheses. */
  lemma LineStamp(line: string)
    requires HasNumericTimestamp(Line(line))
    ensures StampInner(line).Some?
    ensures Stamp(StampInner(line).value) == Some((Line(line).tsSeconds, Line(line).tsFractionNs))
  {
    KeepsPrefix(line);
  }

  lemma KeepsPrefix(line: string)
    requires HasNumericTimestamp(Line(line))
    ensures var out := CommonPrefix(line).out;
            && out.hasTimestamp && out.kind != WallClock
            && Line(line).tsSeconds == out.tsSeconds && Line(line).tsFractionNs == out.tsFractionNs
  {
    var p := CommonPrefix(line);
    if p.ok && IsFrameLine(line) {
      LineFromBodies(line, p.out, p.rest);
    }
  }

  /** The fraction of a negative number is added with the wrong sign unless it is 0 or the number is below int64
      anyway. */
  predicate SignKept(f: Figures)
    requires AllDigits(f.whole) && AllDigits(f.fraction)
  {
    !f.negative || WrittenFraction(f.fraction) == 0 || WrittenNs(f) <= INT64_MIN
  }

  /** The raw nanoseconds of a stamp whose digit runs fit. */
  lemma RawOfFigures(inner: string)
    requires FiguresOf(inner).Some? && Representable(inner)
    ensures var f := FiguresOf(inner).value;
            var (s, ns) := Stamp(inner).value;
            IsFraction(ns) && (CombineRawNs(s, ns) == Clamp(WrittenNs(f)) <==> SignKept(f))
  {
    var f := FiguresOf(inner).value;
    StampExactly(inner);
    WrittenInRange(f.fraction);
    var s, ns := Stamp(inner).value.0, Stamp(inner).value.1;
    CombineRawNsExact(s, ns);
    if s > 0 {
      CombineAbove(s, ns);
    } else if s < 0 {
      CombineBelow(s, ns);
    }
  }

  /** For a line whose digit runs fit int64, the raw time is the written number saturated to int64 exactly when the
      sign is kept; without a minus it is min(s * 10^9 + f, 2^63 - 1). */
  lemma RawTimestampExact(line: string)
    requires HasNumericTimestamp(Line(line)) && Representable(StampInner(line).value)
    ensures ProperStamp(Line(line)) && FiguresOf(StampInner(line).value).Some?
    ensures var f := FiguresOf(StampInner(line).value).value;
            && (RawTimestampNs(Line(line)) == Clamp(WrittenNs(f)) <==> SignKept(f))
            && (!f.negative ==>
                  RawTimestampNs(Line(line)) == if WrittenNs(f) < INT64_MAX then WrittenNs(f) else INT64_MAX)
  {
    LineProper(line);
    LineStamp(line);
    RawOfFigures(StampInner(line).value);
  }

  /** A sign, digits, a point and digits are read as just these. */
  lemma FiguresOfNegative(whole: string, fraction: string)
    requires AllDigits(whole) && whole != [] && AllDigits(fraction)
    ensures FiguresOf("-" + whole + "." + fraction) == Some(Figures(true, whole, fraction))
  {
    var inner := "-" + whole + "." + fraction;
    assert inner[1..] == whole + ("." + fraction);
    DigitRunOf(whole, "." + fraction);
    DigitRunOf(fraction, []);
    assert fraction + [] == fraction;
    assert inner[1..][..|whole|] == whole && inner[1..][|whole| + 1..] == fraction;
  }

  /** "(-0.5)" is read as half a second after zero. */
  lemma LostSign()
    ensures Stamp("-0.5") == Some((0, 500_000_000)) && CombineRawNs(0, 500_000_000) == 500_000_000
    ensures FiguresOf("-0.5") == Some(Figures(true, "0", "5")) && WrittenNs(Figures(true, "0", "5")) == -500_000_000
  {
    FiguresOfNegative("0", "5");
    assert "-" + "0" + "." + "5" == "-0.5";
    TenthsOf("5");
    ZeroSeconds();
  }

  /** "(-1.5)" is read as -1 s and 0.5 s, and becomes the earliest instant there is. */
  lemma NegativeFractionCounterexample()
    ensures Stamp("-1.5") == Some((-1, 500_000_000)) && CombineRawNs(-1, 500_000_000) == INT64_MIN
    ensures FiguresOf("-1.5") == Some(Figures(true, "1", "5")) && WrittenNs(Figures(true, "1", "5")) == -1_500_000_000
  {
    FiguresOfNegative("1", "5");
    assert "-" + "1" + "." + "5" == "-1.5";
    TenthsOf("5");
    assert "1"[..0] == [];
    CombineBelow(-1, 500_000_000);
  }

  lemma ZeroSeconds()
    ensures Value("0") == 0
  {
    assert "0"[..0] == [];
  }

  /** One fraction digit counts tenths of a second. */
  lemma TenthsOf(digit: string)
    requires |digit| == 1 && AllDigits(digit)
    ensures FractionNs(digit) == WrittenFraction(digit) == 100_000_000 * DigitValue(digit[0])
  {
    var d, p := DigitValue(digit[0]), Pow10(8);
    assert digit[..0] == [];
    assert Value(digit) == d;
    Pow10Nine();
    assert Pow10(9) == 10 * p;
    assert Accumulated(digit) == d && 9 - |digit| == 8;
    assert d * p == p * d;
  }

  /** One second past the int64 seconds: the stamp wraps to the earliest instant instead of saturating at the latest. */
  lemma LongSecondsWrap() returns (whole: string)
    ensures AllDigits(whole) && Value(whole) == 9_223_372_036_854_775_808
    ensures SecondsOf(false, whole) == INT64_MIN
    ensures CombineRawNs(SecondsOf(false, whole), 0) == INT64_MIN
    ensures Clamp(Value(whole) * NS_PER_SECOND) == INT64_MAX
  {
    whole := ToString(9_223_372_036_854_775_808);
    ValueOfToString(9_223_372_036_854_775_808);
    WrapShift(INT64_MIN, 1);
    CombineBelow(INT64_MIN, 0);
  }

  /** A data line always has a numeric timestamp, so the importer may read its timeline position. */
  lemma DataLinesAreStamped(line: string)
    requires Line(line).kind == Data
    ensures HasNumericTimestamp(Line(line))
  {
    AcceptedFrame(line);
  }

  // ----- the timeline clock -----

  datatype TimeMode = Absolute | RelativeMonotonic | RelativeDelta

  /** One advance: the new running sum and the line's timeline position. */
  function Advanced(mode: TimeMode, cumulative: int, line: ParsedLine): (int, Option<int>)
    requires ProperStamp(line)
  {
    if !HasNumericTimestamp(line) then (cumulative, None)
    else
      var raw := RawTimestampNs(line);
      if mode == RelativeDelta then (Clamp(cumulative + raw), Some(Clamp(cumulative + raw)))
      else (cumulative, Some(raw))
  }

  class TimelineClock {
    const mode: TimeMode
    var cumulativeNs: int

    ghost predicate Valid()
      reads this
    {
      FitsInt64(cumulativeNs)
    }

    constructor (mode: TimeMode)
      ensures this.mode == mode && cumulativeNs == 0 && Valid()
    {
      this.mode := mode;
      cumulativeNs := 0;
    }

    /** The comparisons are written so that no intermediate value leaves int64. */
    method Advance(line: ParsedLine) returns (r: Option<int>)
      requires Valid() && ProperStamp(line)
      modifies this
      ensures Valid() && (cumulativeNs, r) == Advanced(mode, old(cumulativeNs), line)
    {
      if !HasNumericTimestamp(line) {
        return None;
      }
      var rawNs := RawTimestampNs(line);
      CombineRawNsExact(line.tsSeconds, line.tsFractionNs);
      if mode == RelativeDelta {
        if rawNs > 0 && cumulativeNs > INT64_MAX - rawNs {
          cumulativeNs := INT64_MAX;
        } else if rawNs < 0 && cumulativeNs < INT64_MIN - rawNs {
          cumulativeNs := INT64_MIN;
        } else {
          cumulativeNs := cumulativeNs + rawNs;
        }
        return Some(cumulativeNs);
      }
      return Some(rawNs);
    }
  }

  // ----- whole files in delta mode -----

  ghost predicate AllProper(lines: seq<ParsedLine>) {
    forall i :: 0 <= i < |lines| ==> ProperStamp(lines[i])
  }

  /** The raw times of all lines with a numeric timestamp, whatever their kind. */
  function Raws(lines: seq<ParsedLine>): seq<int>
    requires AllProper(lines)
  {
    if lines == [] then []
    else
      var last := lines[|lines| - 1];
      Raws(lines[..|lines| - 1]) + if HasNumericTimestamp(last) then [RawTimestampNs(last)] else []
  }

  function Sum(xs: seq<int>): int {
    if xs == [] then 0 else Sum(xs[..|xs| - 1]) + xs[|xs| - 1]
  }

  function ClampedSum(xs: seq<int>): int {
    if xs == [] then 0 else Clamp(ClampedSum(xs[..|xs| - 1]) + xs[|xs| - 1])
  }

  /** The clock as it stands after the given lines. */
  function ClockAfter(mode: TimeMode, lines: seq<ParsedLine>): int
    requires AllProper(lines)
  {
    if lines == [] then 0
    else Advanced(mode, ClockAfter(mode, lines[..|lines| - 1]), lines[|lines| - 1]).0
  }

  /** The timeline position of the last of the given lines. */
  function Position(mode: TimeMode, lines: seq<ParsedLine>): Option<int>
    requires AllProper(lines) && lines != []
  {
    Advanced(mode, ClockAfter(mode, lines[..|lines| - 1]), lines[|lines| - 1]).1
  }

  /** The import loop: every parsed line is fed to the clock, in order. */
  method Timeline(mode: TimeMode, lines: seq<ParsedLine>) returns (out: seq<Option<int>>)
    requires AllProper(lines)
    ensures |out| == |lines|
    ensures forall i :: 0 <= i < |lines| ==> out[i] == Position(mode, lines[..i + 1])
  {
    var clock := new TimelineClock(mode);
    out := [];
    for i := 0 to |lines|
      invariant clock.mode == mode && clock.Valid()
      invariant clock.cumulativeNs == ClockAfter(mode, lines[..i])
      invariant |out| == i
      invariant forall k :: 0 <= k < i ==> out[k] == Position(mode, lines[..k + 1])
    {
      PrefixOfPrefix(lines, i + 1, i);
      var r := clock.Advance(lines[i]);
      out := out + [r];
    }
  }

  lemma {:induction false} ClockIsClampedSum(lines: seq<ParsedLine>)
    requires AllProper(lines)
    ensures ClockAfter(RelativeDelta, lines) == ClampedSum(Raws(lines))
  {
    if lines != [] {
      var front, last := lines[..|lines| - 1], lines[|lines| - 1];
      ClockIsClampedSum(front);
      if HasNumericTimestamp(last) {
        assert Raws(lines)[..|Raws(lines)| - 1] == Raws(front);
      } else {
        assert Raws(lines) == Raws(front);
      }
    }
  }

  /** In delta mode a stamped line sits at the clamped running sum of all raw times up to it. */
  lemma DeltaPosition(lines: seq<ParsedLine>)
    requires AllProper(lines) && lines != []
    ensures Position(RelativeDelta, lines)
            == if HasNumericTimestamp(lines[|lines| - 1]) then Some(ClampedSum(Raws(lines))) else None
  {
    ClockIsClampedSum(lines);
  }

  /** In the other modes a stamped line sits at its own raw time, whatever came before it. */
  lemma AbsolutePosition(mode: TimeMode, lines: seq<ParsedLine>)
    requires AllProper(lines) && lines != [] && mode != RelativeDelta
    ensures var last := lines[|lines| - 1];
            Position(mode, lines) == if HasNumericTimestamp(last) then Some(RawTimestampNs(last)) else None
  {
  }

  /** The line has a numeric timestamp without a minus, of these whole and fraction digits. */
  ghost predicate IsStamped(line: string, whole: string, fraction: string) {
    && HasNumericTimestamp(Line(line)) && StampInner(line).Some?
    && FiguresOf(StampInner(line).value) == Some(Figures(false, whole, fraction))
  }

  lemma RawOfStamped(line: string, whole: string, fraction: string)
    requires AllDigits(whole) && AllDigits(fraction) && Value(whole) <= INT64_MAX && FractionFits(fraction)
    requires IsStamped(line, whole, fraction)
    ensures ReadsAs(Line(line), whole, fraction)
  {
    RawTimestampExact(line);
    UnsignedNs(Figures(false, whole, fraction));
  }

  ghost predicate ReadsAs(out: ParsedLine, whole: string, fraction: string)
    requires AllDigits(whole) && AllDigits(fraction)
  {
    && HasNumericTimestamp(out) && ProperStamp(out)
    && RawTimestampNs(out)
       == LeastOf(Value(whole) * 1_000_000_000 + WrittenFraction(fraction), 0x7FFF_FFFF_FFFF_FFFF)
  }

  lemma PositionOfStamped(mode: TimeMode, before: seq<ParsedLine>, last: ParsedLine, whole: string, fraction: string)
    requires mode != RelativeDelta && AllProper(before)
    requires AllDigits(whole) && AllDigits(fraction) && ReadsAs(last, whole, fraction)
    ensures AllProper(before + [last])
    ensures Position(mode, before + [last])
            == Some(LeastOf(Value(whole) * 1_000_000_000 + WrittenFraction(fraction), 0x7FFF_FFFF_FFFF_FFFF))
  {
    StampedPosition(mode, before, last);
  }

  function LeastOf(a: int, b: int): int {
    if a < b then a else b
  }

  /** A line whose stamp has no minus and fits sits at min(whole * 10^9 + fraction, 2^63 - 1), digits as written; a
      fraction shorter than nine digits is padded. */
  lemma AbsolutePositionOfText(
      mode: TimeMode, before: seq<ParsedLine>, line: string, whole: string, fraction: string)
    requires mode != RelativeDelta && AllProper(before)
    requires AllDigits(whole) && AllDigits(fraction) && Value(whole) <= INT64_MAX && FractionFits(fraction)
    requires IsStamped(line, whole, fraction)
    ensures AllProper(before + [Line(line)])
    ensures Position(mode, before + [Line(line)])
            == Some(LeastOf(Value(whole) * 1_000_000_000 + WrittenFraction(fraction), 0x7FFF_FFFF_FFFF_FFFF))
  {
    RawOfStamped(line, whole, fraction);
    PositionOfStamped(mode, before, Line(line), whole, fraction);
  }

  lemma UnsignedNs(f: Figures)
    requires AllDigits(f.whole) && AllDigits(f.fraction) && !f.negative
    ensures WrittenNs(f) == Value(f.whole) * 1_000_000_000 + WrittenFraction(f.fraction)
  {
  }

  lemma StampedPosition(mode: TimeMode, before: seq<ParsedLine>, last: ParsedLine)
    requires mode != RelativeDelta && AllProper(before) && ProperStamp(last) && HasNumericTimestamp(last)
    ensures AllProper(before + [last]) && Position(mode, before + [last]) == Some(RawTimestampNs(last))
  {
    var lines := before + [last];
    assert lines[|lines| - 1] == last;
    AbsolutePosition(mode, lines);
  }

  /** No prefix sum leaves int64. */
  ghost predicate SumsFit(xs: seq<int>) {
    forall k :: 0 <= k <= |xs| ==> FitsInt64(Sum(xs[..k]))
  }

  /** Clamping changes no prefix exactly when no prefix sum leaves int64. */
  lemma ClampedSumExact(xs: seq<int>)
    ensures SumsFit(xs) <==> forall k :: 0 <= k <= |xs| ==> ClampedSum(xs[..k]) == Sum(xs[..k])
  {
    forall k | 0 <= k <= |xs| ensures FitsInt64(ClampedSum(xs[..k])) {
      ClampedSumFits(xs[..k]);
    }
    if SumsFit(xs) {
      forall k | 0 <= k <= |xs| ensures ClampedSum(xs[..k]) == Sum(xs[..k]) {
        ClampedSumWhileFitting(xs, k);
      }
    }
  }

  lemma ClampedSumFits(xs: seq<int>)
    ensures FitsInt64(ClampedSum(xs))
  {
  }

  lemma {:induction false} ClampedSumWhileFitting(xs: seq<int>, k: nat)
    requires k <= |xs| && SumsFit(xs)
    ensures ClampedSum(xs[..k]) == Sum(xs[..k])
  {
    if k > 0 {
      ClampedSumWhileFitting(xs, k - 1);
      PrefixOfPrefix(xs, k, k - 1);
      assert FitsInt64(Sum(xs[..k]));
    }
  }

  /** The timeline never steps back when no delta is negative. */
  lemma {:induction false} DeltaNeverDecreases(xs: seq<int>, i: nat, j: nat)
    requires i <= j <= |xs|
    requires forall k :: 0 <= k < |xs| ==> xs[k] >= 0
    ensures ClampedSum(xs[..i]) <= ClampedSum(xs[..j])
  {
    if i < j {
      DeltaNeverDecreases(xs, i, j - 1);
      PrefixOfPrefix(xs, j, j - 1);
      ClampedSumFits(xs[..j - 1]);
    }
  }
}
