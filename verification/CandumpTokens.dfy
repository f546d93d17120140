/** Tokens of a candump line: blanks, words, hex runs and the parenthesised timestamp. */
module CandumpTokens {
  import opened Slices
  import opened Wrappers
  import opened RawBytes
  import opened Decimal
  import opened Int64

  // ----- blanks and words -----

  function SkipSpaces(s: string): (r: string)
    ensures r == [] || r[0] != ' '
    ensures |r| <= |s|
  {
    if s != [] && s[0] == ' ' then SkipSpaces(s[1..]) else s
  }

  /** Length of the longest blank-free prefix. */
  function WordLength(s: string): (n: nat)
    ensures n <= |s|
  {
    if s == [] || s[0] == ' ' then 0 else 1 + WordLength(s[1..])
  }

  /** The next word and what follows it, blanks skipped on both sides. */
  function NextToken(s: string): (string, string) {
    var t := SkipSpaces(s);
    var n := WordLength(t);
    (t[..n], SkipSpaces(t[n..]))
  }

  method SkipSpacesAt(s: string, start: nat) returns (pos: nat)
    requires start <= |s|
    ensures start <= pos <= |s| && s[pos..] == SkipSpaces(s[start..])
  {
    pos := start;
    while pos < |s| && s[pos] == ' '
      invariant start <= pos <= |s| && SkipSpaces(s[pos..]) == SkipSpaces(s[start..])
    {
      assert s[pos..][1..] == s[pos + 1..];
      pos := pos + 1;
    }
  }

  method NextTokenAt(s: string, start: nat) returns (tok: string, pos: nat)
    requires start <= |s|
    ensures pos <= |s| && NextToken(s[start..]) == (tok, s[pos..])
  {
    var first := SkipSpacesAt(s, start);
    ghost var t := SkipSpaces(s[start..]);
    pos := first;
    while pos < |s| && s[pos] != ' '
      invariant first <= pos <= |s|
      invariant WordLength(t) == (pos - first) + WordLength(s[pos..])
    {
      assert s[pos..][1..] == s[pos + 1..];
      pos := pos + 1;
    }
    tok := s[first..pos];
    assert tok == t[..WordLength(t)];
    assert s[pos..] == t[WordLength(t)..];
    pos := SkipSpacesAt(s, pos);
  }

  // ----- searching -----

  /** std::string_view::find: the first index of `c`, or None. */
  function IndexOf(s: string, c: char): (r: Option<nat>)
    ensures r.Some? ==> r.value < |s| && s[r.value] == c && c !in s[..r.value]
    ensures r.None? ==> c !in s
  {
    if s == [] then None
    else if s[0] == c then Some(0)
    else match IndexOf(s[1..], c)
      case None => None
      case Some(i) => Some(i + 1)
  }

  lemma {:induction false} IndexOfFirst(a: string, c: char, b: string)
    requires c !in a
    ensures IndexOf(a + [c] + b, c) == Some(|a|)
  {
    if a != [] {
      IndexOfFirst(a[1..], c, b);
      assert (a + [c] + b)[1..] == a[1..] + [c] + b;
    }
  }

  // ----- hexadecimal -----

  /** The lookup table: -1 for anything that is not a hex digit of either case. */
  function HexDigit(c: char): (v: int)
    ensures -1 <= v < 16
  {
    if '0' <= c <= '9' then c as int - '0' as int
    else if 'a' <= c <= 'f' then c as int - 'a' as int + 10
    else if 'A' <= c <= 'F' then c as int - 'A' as int + 10
    else -1
  }

  /** The sixteen digits in either case, and nothing else. */
  lemma HexDigitExactly(c: char, v: nat)
    ensures HexDigit(c) == v <==> v < 16 && (c == "0123456789abcdef"[v] || c == "0123456789ABCDEF"[v])
  {
  }

  predicate IsHex(c: char) {
    HexDigit(c) >= 0
  }

  predicate AllHex(s: string) {
    forall i :: 0 <= i < |s| ==> IsHex(s[i])
  }

  function HexValue(s: string): nat
    requires AllHex(s)
  {
    if s == [] then 0 else 16 * HexValue(s[..|s| - 1]) + HexDigit(s[|s| - 1])
  }

  /** parseHexU32: one to eight hex digits, nothing else. */
  function HexU32(s: string): Option<nat> {
    if s == [] || |s| > 8 || !AllHex(s) then None else Some(HexValue(s))
  }

  method ParseHexU32(text: string) returns (r: Option<nat>)
    ensures r == HexU32(text)
  {
    if text == [] || |text| > 8 {
      return None;
    }
    var value := 0;
    for i := 0 to |text|
      invariant AllHex(text[..i]) && value == HexValue(text[..i])
    {
      var nibble := HexDigit(text[i]);
      if nibble < 0 {
        return None;
      }
      PrefixOfPrefix(text, i + 1, i);
      value := value * 16 + nibble;
    }
    Whole(text);
    return Some(value);
  }

  /** Pairs of hex digits as bytes; None on an odd count or any other character. */
  function HexBytes(s: string): Option<seq<byte>> {
    if |s| % 2 != 0 || !AllHex(s) then None
    else Some(seq(|s| / 2, i requires 0 <= i < |s| / 2 => HexDigit(s[2 * i]) * 16 + HexDigit(s[2 * i + 1])))
  }

  method ParseHexBytes(text: string) returns (r: Option<seq<byte>>)
    ensures r == HexBytes(text)
  {
    if |text| % 2 != 0 {
      return None;
    }
    var out: seq<byte> := [];
    var i := 0;
    while i < |text|
      invariant i <= |text| && i % 2 == 0 && |out| == i / 2
      invariant AllHex(text[..i])
      invariant forall k :: 0 <= k < |out| ==> out[k] == HexDigit(text[2 * k]) * 16 + HexDigit(text[2 * k + 1])
    {
      var hi, lo := HexDigit(text[i]), HexDigit(text[i + 1]);
      if hi < 0 || lo < 0 {
        return None;
      }
      out := out + [hi * 16 + lo];
      i := i + 2;
    }
    assert text[..i] == text;
    assert out == HexBytes(text).value;
    return Some(out);
  }

  /** parseByteToken: exactly two hex digits. */
  function ByteToken(tok: string): Option<byte> {
    if |tok| != 2 || !IsHex(tok[0]) || !IsHex(tok[1]) then None
    else Some(HexDigit(tok[0]) * 16 + HexDigit(tok[1]))
  }

  // ----- the timestamp -----

  /** Length of the longest digit prefix. */
  function DigitRun(s: string): (n: nat)
    ensures n <= |s| && AllDigits(s[..n])
    ensures n < |s| ==> !IsDigit(s[n])
  {
    if s == [] || !IsDigit(s[0]) then 0
    else
      var n := DigitRun(s[1..]);
      assert s[..n + 1] == [s[0]] + s[1..][..n];
      n + 1
  }

  lemma DigitRunAt(s: string, i: nat)
    requires i <= |s|
    ensures DigitRun(s[i..]) == if i < |s| && IsDigit(s[i]) then 1 + DigitRun(s[i + 1..]) else 0
  {
    if i < |s| {
      SuffixOfSuffix(s, i, 1);
    }
  }

  lemma {:induction false} DigitRunOf(a: string, b: string)
    requires AllDigits(a) && (b == [] || !IsDigit(b[0]))
    ensures DigitRun(a + b) == |a|
  {
    if a == [] {
      assert a + b == b;
    } else {
      DigitRunOf(a[1..], b);
      assert (a + b)[1..] == a[1..] + b;
    }
  }

  /** What the int64 accumulator holds after a digit run: the number it denotes, wrapped. */
  function Accumulated(digits: string): (v: int)
    requires AllDigits(digits)
    ensures FitsInt64(v) && (Value(digits) <= INT64_MAX ==> v == Value(digits))
  {
    Wrap64(Value(digits))
  }

  /** Nanoseconds of a fraction's digits: padded on the right to nine, or cut to nine by dividing. */
  function FractionNs(digits: string): int
    requires AllDigits(digits)
  {
    if |digits| <= 9 then Accumulated(digits) * Pow10(9 - |digits|)
    else TruncDiv(Accumulated(digits), Pow10(|digits| - 9))
  }

  /** The nanoseconds the digits denote. */
  function WrittenFraction(digits: string): nat
    requires AllDigits(digits)
  {
    if |digits| <= 9 then Value(digits) * Pow10(9 - |digits|) else Value(digits[..9])
  }

  const NS_PER_SECOND := 1_000_000_000

  lemma Pow10Nine()
    ensures Pow10(9) == NS_PER_SECOND
  {
    assert Pow10(3) == 10 * Pow10(2);
    assert Pow10(6) == 10 * Pow10(5) && Pow10(5) == 10 * Pow10(4) && Pow10(4) == 10 * Pow10(3);
    assert Pow10(9) == 10 * Pow10(8) && Pow10(8) == 10 * Pow10(7) && Pow10(7) == 10 * Pow10(6);
  }

  lemma {:induction false} Pow10Split(a: nat, b: nat)
    ensures Pow10(a) * Pow10(b) == Pow10(a + b)
  {
    if a > 0 {
      Pow10Split(a - 1, b);
      assert Pow10(a) * Pow10(b) == 10 * (Pow10(a - 1) * Pow10(b));
    }
  }

  lemma {:induction false} Pow10Monotone(a: nat, b: nat)
    requires a <= b
    ensures Pow10(a) <= Pow10(b)
  {
    if a < b {
      Pow10Monotone(a, b - 1);
    }
  }

  /** 10^18 fits int64, and 10^19 is beyond it. */
  lemma Pow10Around()
    ensures Pow10(18) == 1_000_000_000_000_000_000 && Pow10(19) == 10_000_000_000_000_000_000
  {
    Pow10Nine();
    Pow10Split(9, 9);
    assert Pow10(19) == 10 * Pow10(18);
  }

  /** A run beyond int64 has at least 19 digits. */
  lemma LongRun(digits: string)
    requires AllDigits(digits) && Value(digits) > INT64_MAX
    ensures |digits| >= 19
  {
    ValueBound(digits);
    Pow10Around();
    if |digits| < 19 {
      Pow10Monotone(|digits|, 18);
    }
  }

  lemma DroppedDigit(digits: string, k: nat)
    requires AllDigits(digits) && 0 < k <= |digits|
    ensures Value(digits[..k]) / 10 == Value(digits[..k - 1])
  {
    PrefixOfPrefix(digits, k, k - 1);
  }

  /** Dividing a run by a power of ten drops that many digits. */
  lemma {:induction false} DroppedDigits(digits: string, k: nat)
    requires AllDigits(digits) && k <= |digits|
    ensures Value(digits) / Pow10(k) == Value(digits[..|digits| - k])
  {
    if k == 0 {
      Whole(digits);
    } else {
      DroppedDigits(digits, k - 1);
      DroppedDigit(digits, |digits| - k + 1);
      DivTwice(Value(digits), Pow10(k - 1), 10);
    }
  }

  lemma WrittenInRange(digits: string)
    requires AllDigits(digits)
    ensures 0 <= WrittenFraction(digits) < NS_PER_SECOND
  {
    Pow10Nine();
    if |digits| <= 9 {
      ValueBound(digits);
      Pow10Split(|digits|, 9 - |digits|);
      var v, p, q := Value(digits), Pow10(|digits|), Pow10(9 - |digits|);
      assert v * q < p * q;
    } else {
      ValueBound(digits[..9]);
    }
  }

  lemma FitsAsWritten(digits: string)
    requires AllDigits(digits) && Value(digits) <= INT64_MAX
    ensures FractionNs(digits) == WrittenFraction(digits)
  {
    if |digits| > 9 {
      DroppedDigits(digits, |digits| - 9);
    }
  }

  /** A wrapped run of fewer than 28 digits never scales back to what is written: the two differ by 2^64 or more
      before the division, which divides by at most 10^18. */
  lemma WrappedDiffers(v: nat, w: int, p: nat)
    requires v > INT64_MAX && 0 < p <= 1_000_000_000_000_000_000 && v >= w + UINT64_RANGE
    ensures v / p != TruncDiv(w, p)
  {
    if w >= 0 {
      DivMonotone(w + p, v, p);
      DivShift(w, p);
    } else {
      DivMonotone(p, v, p);
      assert p / p == 1;
    }
  }

  lemma DivMonotone(a: nat, b: nat, p: nat)
    requires a <= b && p > 0
    ensures a / p <= b / p
  {
    if b / p < a / p {
      AtLeastOneMore(p, b / p, a / p);
    }
  }

  lemma DivShift(a: nat, p: nat)
    requires p > 0
    ensures (a + p) / p == a / p + 1
  {
    QuotientIs(a + p, p, a / p + 1, a % p);
  }

  /** The digits of the run, or enough leading zeros behind the point to swallow what went wrong. */
  predicate FractionFits(digits: string)
    requires AllDigits(digits)
  {
    Value(digits) <= INT64_MAX || (|digits| >= 28 && Value(digits[..9]) == 0)
  }

  /** The scaled fraction is the written one exactly when the run denotes at most 2^63 - 1, or it has at least 28
      digits of which the first nine are zeros. */
  lemma FractionExactly(digits: string)
    requires AllDigits(digits)
    ensures FractionNs(digits) == WrittenFraction(digits) <==> FractionFits(digits)
  {
    if Value(digits) <= INT64_MAX {
      FitsAsWritten(digits);
    } else {
      LongRun(digits);
      var k := |digits| - 9;
      var w, p := Accumulated(digits), Pow10(k);
      DroppedDigits(digits, k);
      Pow10Around();
      if k >= 19 {
        Pow10Monotone(19, k);
        TruncDivSmall(w, p);
      } else {
        Pow10Monotone(k, 18);
        var m := WrapDistance(Value(digits));
        WrappedDiffers(Value(digits), w, p);
      }
    }
  }

  lemma QuotientBelow(x: nat, p: nat, b: nat)
    requires p > 0 && x < p * b
    ensures x / p < b
  {
    if b < x / p {
      AtLeastOneMore(p, b, x / p);
    }
  }

  lemma ScaledRangeBelow(x: nat, p: nat)
    requires p > 0 && x < p * NS_PER_SECOND
    ensures -NS_PER_SECOND < TruncDiv(0 - x, p) <= 0
    ensures TruncDiv(0 - x, p) == 0 <==> x < p
  {
    QuotientBelow(x, p, NS_PER_SECOND);
    TruncDivNegated(x, p);
    if x < p {
      QuotientIs(x, p, 0, x);
    } else {
      DivMonotone(p, x, p);
      QuotientIs(p, p, 1, 0);
    }
  }

  lemma ScaledRangeAbove(x: nat, p: nat)
    requires p > 0 && x < p * NS_PER_SECOND
    ensures 0 <= TruncDiv(x, p) < NS_PER_SECOND
  {
    QuotientBelow(x, p, NS_PER_SECOND);
  }

  lemma ScaledRange(w: int, p: nat, limit: nat)
    requires p > 0 && limit == p * NS_PER_SECOND && 0 - limit < w < limit
    ensures -NS_PER_SECOND < TruncDiv(w, p) < NS_PER_SECOND
    ensures TruncDiv(w, p) >= 0 <==> w > 0 - p
  {
    if w >= 0 {
      ScaledRangeAbove(w, p);
    } else {
      var x: nat := -w;
      assert w == 0 - x;
      ScaledRangeBelow(x, p);
    }
  }

  lemma AccumulatedBelow(digits: string)
    requires AllDigits(digits) && |digits| > 9
    ensures Pow10(|digits| - 9) * NS_PER_SECOND == Pow10(|digits|)
    ensures 0 - Pow10(|digits|) < Accumulated(digits) < Pow10(|digits|)
  {
    Pow10Nine();
    Pow10Split(|digits| - 9, 9);
    ValueBound(digits);
    if Value(digits) > INT64_MAX {
      LongRun(digits);
      Pow10Around();
      Pow10Monotone(19, |digits|);
    }
  }

  /** Whatever the digit count, a scaled fraction is less than a second in size; and it is a proper fraction exactly
      when the accumulator did not wrap to 10^(n-9) or more below zero, n being the number of digits. */
  lemma FractionRange(digits: string)
    requires AllDigits(digits)
    ensures -NS_PER_SECOND < FractionNs(digits) < NS_PER_SECOND
    ensures FractionNs(digits) >= 0 <==> |digits| <= 9 || Accumulated(digits) > 0 - Pow10(|digits| - 9)
    ensures FractionFits(digits) ==> FractionNs(digits) >= 0
  {
    if |digits| <= 9 {
      if Value(digits) > INT64_MAX {
        LongRun(digits);
      }
      FitsAsWritten(digits);
      WrittenInRange(digits);
    } else {
      AccumulatedBelow(digits);
      ScaledRange(Accumulated(digits), Pow10(|digits| - 9), Pow10(|digits|));
      if FractionFits(digits) {
        FractionExactly(digits);
        WrittenInRange(digits);
      }
    }
  }

  /** Nineteen nines: the accumulator wraps below zero, and so does the fraction. */
  lemma LongFractionWraps() returns (digits: string)
    ensures AllDigits(digits) && |digits| == 19 && Value(digits) == 9_999_999_999_999_999_999
    ensures FractionNs(digits) == -844_674_407 && WrittenFraction(digits) == 999_999_999
  {
    digits := ToString(9_999_999_999_999_999_999);
    ValueOfToString(9_999_999_999_999_999_999);
    LongRun(digits);
    Pow10Around();
    ToStringLength(9_999_999_999_999_999_999, 19);
    DroppedDigits(digits, 10);
    Pow10Nine();
    assert Pow10(10) == 10 * Pow10(9);
    WrapShift(-8_446_744_073_709_551_617, 1);
  }

  // ----- the stamp -----

  /** The parts of a plain number: sign, digits and fraction digits. */
  datatype Figures = Figures(negative: bool, whole: string, fraction: string)

  predicate Signed(inner: string) {
    inner != [] && (inner[0] == '+' || inner[0] == '-')
  }

  /** What follows the whole digits: nothing, or a point and digits to the end. */
  function FractionAt(inner: string, at: nat): (r: Option<string>)
    requires at <= |inner|
    ensures r.Some? ==> AllDigits(r.value)
  {
    if at == |inner| then Some([])
    else if inner[at] != '.' then None
    else
      var frac := inner[at + 1..];
      if DigitRun(frac) != |frac| then None
      else
        Whole(frac);
        Some(frac)
  }

  /** The text between the parentheses, when it is a plain number. */
  function FiguresOf(inner: string): (r: Option<Figures>)
    ensures r.Some? ==> AllDigits(r.value.whole) && r.value.whole != [] && AllDigits(r.value.fraction)
  {
    var neg := inner != [] && inner[0] == '-';
    var body := if Signed(inner) then inner[1..] else inner;
    var n := DigitRun(body);
    if n == 0 then None
    else match FractionAt(body, n)
      case None => None
      case Some(fraction) => Some(Figures(neg, body[..n], fraction))
  }

  /** The seconds the int64 field ends up with; negating the minimum wraps too. */
  function SecondsOf(negative: bool, whole: string): (s: int)
    requires AllDigits(whole)
    ensures FitsInt64(s)
  {
    if negative then Wrap64(-Accumulated(whole)) else Accumulated(whole)
  }

  /** Signed seconds and fraction as the two int64 fields hold them. */
  function Stamp(inner: string): Option<(int, int)> {
    match FiguresOf(inner)
    case None => None
    case Some(f) => Some((SecondsOf(f.negative, f.whole), FractionNs(f.fraction)))
  }

  /** The digit runs as numbers: the sign goes with the whole digits, the fraction is unsigned. */
  function WrittenDigits(inner: string): Option<(int, int)> {
    match FiguresOf(inner)
    case None => None
    case Some(f) =>
      var v: int := Value(f.whole);
      Some((if f.negative then -v else v, WrittenFraction(f.fraction)))
  }

  predicate SecondsFit(negative: bool, whole: string)
    requires AllDigits(whole)
  {
    Value(whole) <= INT64_MAX || (negative && Value(whole) == INT64_MAX + 1)
  }

  /** The digit runs of the stamp denote numbers the int64 accumulators can hold. */
  predicate Representable(inner: string) {
    match FiguresOf(inner)
    case None => true
    case Some(f) => SecondsFit(f.negative, f.whole) && FractionFits(f.fraction)
  }

  lemma SecondsExactly(negative: bool, whole: string)
    requires AllDigits(whole)
    ensures var v: int := Value(whole);
            SecondsOf(negative, whole) == (if negative then -v else v) <==> SecondsFit(negative, whole)
  {
    WrapNegated(Value(whole));
  }

  /** The two fields hold the digit runs as written exactly when the runs fit. */
  lemma StampExactly(inner: string)
    ensures Stamp(inner) == WrittenDigits(inner) <==> Representable(inner)
  {
    var r := FiguresOf(inner);
    if r.Some? {
      SecondsExactly(r.value.negative, r.value.whole);
      FractionExactly(r.value.fraction);
    }
  }

  /** The number the text says, in nanoseconds: a sign stands for the whole of it. */
  function WrittenNs(f: Figures): int
    requires AllDigits(f.whole) && AllDigits(f.fraction)
  {
    var size: int := Value(f.whole) * NS_PER_SECOND + WrittenFraction(f.fraction);
    if f.negative then -size else size
  }

  datatype TsToken = TsToken(present: bool, numeric: bool, seconds: int, fractionNs: int)

  const NO_STAMP := TsToken(false, false, 0, 0)

  /** parseTsToken on a suffix: the token and the text after it. */
  function Timestamp(s: string): (TsToken, string) {
    if s == [] || s[0] != '(' then (NO_STAMP, s)
    else match IndexOf(s[1..], ')')
      case None => (TsToken(true, false, 0, 0), [])
      case Some(k) =>
        var rest := SkipSpaces(s[k + 2..]);
        match Stamp(s[1..k + 1])
        case None => (TsToken(true, false, 0, 0), rest)
        case Some((sec, ns)) => (TsToken(true, true, sec, ns), rest)
  }

  lemma AccumulatedStep(s: string, start: nat, k: nat)
    requires start <= k < |s| && AllDigits(s[start..k]) && IsDigit(s[k])
    ensures AllDigits(s[start..k + 1])
    ensures Wrap64(Accumulated(s[start..k]) * 10 + DigitValue(s[k])) == Accumulated(s[start..k + 1])
  {
    RangeGrows(s, start, k);
    CutConcat(s[start..k], [s[k]]);
    WrapStep(Value(s[start..k]), DigitValue(s[k]));
  }

  /** The two digit loops: the end of the run starting at `start`, and what the int64 accumulator then holds. */
  method DigitsAt(s: string, start: nat) returns (end: nat, value: int)
    requires start <= |s|
    ensures start <= end <= |s| && end == start + DigitRun(s[start..])
    ensures AllDigits(s[start..end]) && value == Accumulated(s[start..end])
  {
    end := start;
    while end < |s| && IsDigit(s[end])
      invariant start <= end <= |s|
      invariant DigitRun(s[start..]) == (end - start) + DigitRun(s[end..])
    {
      DigitRunAt(s, end);
      end := end + 1;
    }
    DigitRunAt(s, end);
    SliceOfSuffix(s, start, 0, end - start);
    value := 0;
    for k := start to end
      invariant AllDigits(s[start..k]) && value == Accumulated(s[start..k])
    {
      AccumulatedStep(s, start, k);
      value := Wrap64(value * 10 + DigitValue(s[k]));
    }
  }

  lemma TenTimesMore(value: int, k: nat)
    ensures value * Pow10(k) * 10 == value * Pow10(k + 1)
  {
    assert Pow10(k + 1) == 10 * Pow10(k);
  }

  /** The scaling loops: multiply up to nine digits, or divide down to nine, truncating. */
  method ScaleFraction(digits: string, value: int) returns (ns: int)
    requires AllDigits(digits) && value == Accumulated(digits)
    ensures ns == FractionNs(digits)
  {
    ns := value;
    if |digits| <= 9 {
      for k := |digits| to 9
        invariant ns == value * Pow10(k - |digits|)
      {
        TenTimesMore(value, k - |digits|);
        ns := ns * 10;
      }
    } else {
      var k := |digits|;
      while k > 9
        invariant 9 <= k <= |digits| && ns == TruncDiv(value, Pow10(|digits| - k))
      {
        TruncDivTwice(value, Pow10(|digits| - k), 10);
        ns := TruncDiv(ns, 10);
        k := k - 1;
      }
    }
  }

  /** The multiplications stay within int64. */
  lemma ScalingFits(digits: string, k: nat)
    requires AllDigits(digits) && |digits| <= k <= 9
    ensures FitsInt64(Accumulated(digits) * Pow10(k - |digits|))
  {
    ValueBound(digits);
    Pow10Around();
    Pow10Monotone(|digits|, 18);
    Pow10Split(|digits|, k - |digits|);
    Pow10Monotone(k, 18);
    ProductBelow(Value(digits), Pow10(|digits|), Pow10(k - |digits|));
  }

  lemma ProductBelow(v: nat, p: nat, q: nat)
    requires v <= p
    ensures 0 <= v * q <= p * q
  {
  }

  lemma NoFraction()
    ensures FractionNs([]) == 0
  {
  }

  method ParseFraction(inner: string, at: nat) returns (ok: bool, ns: int)
    requires at <= |inner|
    ensures ok == FractionAt(inner, at).Some?
    ensures ok ==> ns == FractionNs(FractionAt(inner, at).value)
  {
    if at == |inner| {
      NoFraction();
      return true, 0;
    }
    if inner[at] != '.' {
      return false, 0;
    }
    var end, value := DigitsAt(inner, at + 1);
    if end != |inner| {
      return false, 0;
    }
    Whole(inner);
    ns := ScaleFraction(inner[at + 1..], value);
    ok := true;
  }

  lemma FractionShift(inner: string, start: nat, n: nat)
    requires start + n <= |inner|
    ensures FractionAt(inner[start..], n) == FractionAt(inner, start + n)
  {
    if start + n < |inner| {
      SuffixOfSuffix(inner, start, n + 1);
    }
  }

  /** The parts of a text, given where its whole digits start and end. */
  lemma FiguresAt(inner: string, start: nat, at: nat)
    requires start == (if Signed(inner) then 1 else 0) && start <= at <= |inner|
    requires at == start + DigitRun(inner[start..])
    ensures FiguresOf(inner)
            == if at == start then None
               else match FractionAt(inner, at)
                 case None => None
                 case Some(fraction) => Some(Figures(start == 1 && inner[0] == '-', inner[start..at], fraction))
  {
    FractionShift(inner, start, at - start);
    SliceOfSuffix(inner, start, 0, at - start);
    Whole(inner);
  }

  method ParseStamp(inner: string) returns (r: Option<(int, int)>)
    ensures r == Stamp(inner)
  {
    var start := 0;
    var neg := false;
    if |inner| > 0 && (inner[0] == '+' || inner[0] == '-') {
      neg := inner[0] == '-';
      start := 1;
    }
    var at, whole := DigitsAt(inner, start);
    FiguresAt(inner, start, at);
    if at == start {
      return None;
    }
    var ok, fracNs := ParseFraction(inner, at);
    if !ok {
      return None;
    }
    return Some((if neg then Wrap64(-whole) else whole, fracNs));
  }

  method ParseTsToken(s: string, start: nat) returns (t: TsToken, pos: nat)
    requires start <= |s|
    ensures pos <= |s| && Timestamp(s[start..]) == (t, s[pos..])
  {
    t, pos := NO_STAMP, start;
    if pos >= |s| || s[pos] != '(' {
      return;
    }
    t := t.(present := true);
    assert s[start..][1..] == s[start + 1..];
    var found := IndexOf(s[pos + 1..], ')');
    if found.None? {
      pos := |s|;
      assert s[pos..] == [];
      return;
    }
    var close := pos + 1 + found.value;
    var inner := s[pos + 1..close];
    assert inner == s[start..][1..found.value + 1];
    assert s[close + 1..] == s[start..][found.value + 2..];
    pos := SkipSpacesAt(s, close + 1);
    var stamp := ParseStamp(inner);
    if stamp.None? {
      return;
    }
    t := TsToken(true, true, stamp.value.0, stamp.value.1);
  }
}
