/** What candump prints for a classic data frame, and that both shapes parse back to the same frame. */
module CandumpPrint {
  import opened Slices
  import opened Wrappers
  import opened RawBytes
  import opened Decimal
  import opened Int64
  import opened CandumpTokens
  import opened CandumpLines

  /** A classic data frame with its capture stamp, a 64-bit time: `digits` is 6 (default) or 9 (-tN). */
  datatype Frame = Frame(
    seconds: nat, fraction: nat, digits: nat, iface: string, id: nat, extended: bool, data: seq<byte>,
    direction: Option<bool>)

  predicate IsWord(s: string) {
    s != "" && ' ' !in s
  }

  predicate ValidFrame(f: Frame) {
    && f.seconds <= INT64_MAX && (f.digits == 6 || f.digits == 9) && f.fraction < Pow10(f.digits)
    && IsWord(f.iface)
    && f.id < (if f.extended then ERR_FLAG else 0x800)
    && |f.data| <= MAX_CLASSIC_BYTES
  }

  /** The line both shapes must parse to. */
  function Expected(f: Frame, g: Grammar): ParsedLine
    requires f.digits <= 9
  {
    FRESH_LINE.(
      kind := Data, grammar := g, hasTimestamp := true, tsSeconds := f.seconds,
      tsFractionNs := f.fraction * Pow10(9 - f.digits), iface := f.iface, canId := f.id, extended := f.extended,
      data := f.data, directionKnown := f.direction.Some?, isTx := f.direction == Some(true))
  }

  // ----- printing -----

  function Blanks(n: nat): (s: string)
    ensures |s| == n && forall i :: 0 <= i < n ==> s[i] == ' '
  {
    if n == 0 then "" else " " + Blanks(n - 1)
  }

  function HexChar(d: nat): (c: char)
    requires d < 16
    ensures HexDigit(c) == d && c != ' ' && c != '#' && c != 'R' && c != 'r' && c != ':' && c != '_'
  {
    if d < 10 then ('0' as int + d) as char else ('A' as int + d - 10) as char
  }

  /** "%0<width>X" for a number that fits. */
  function HexText(v: nat, width: nat): (s: string)
    ensures |s| == width && AllHex(s)
    ensures forall c :: c in s ==> c != ' ' && c != '#' && c != 'R' && c != 'r' && c != ':' && c != '_'
  {
    if width == 0 then "" else HexText(v / 16, width - 1) + [HexChar(v % 16)]
  }

  function ByteText(b: byte): string {
    HexText(b, 2)
  }

  function HexRun(data: seq<byte>): (s: string)
    ensures |s| == 2 * |data|
    ensures forall c :: c in s ==> c != ' ' && c != '#' && c != 'R' && c != 'r' && c != ':' && c != '_'
  {
    if data == [] then "" else HexRun(data[..|data| - 1]) + ByteText(data[|data| - 1])
  }

  function StampText(f: Frame): string {
    Padded(f.seconds, 10) + "." + Padded(f.fraction, f.digits)
  }

  function IdText(f: Frame): string {
    HexText(f.id, if f.extended then 8 else 3)
  }

  function DirectionWord(d: Option<bool>): string {
    match d case None => "" case Some(tx) => if tx then "T" else "R"
  }

  /** Log shape: "(s.f) iface ID#DATA", then " R" or " T" with -x. */
  function LogText(f: Frame): string {
    "(" + (StampText(f) + (")" + (" " + (f.iface + (" " + (IdText(f) + ("#" + (HexRun(f.data)
    + if f.direction.None? then "" else " " + DirectionWord(f.direction)))))))))
  }

  /** Widths of the blank runs of the screen shape; every one that separates two words is at least one. */
  datatype Gaps = Gaps(lead: nat, stamp: nat, dir: nat, flags: nat, id: nat, dlc: nat, bytes: nat)

  predicate ValidGaps(g: Gaps) {
    g.dir >= 1 && g.flags >= 1 && g.id >= 1 && g.dlc >= 1 && g.bytes >= 1
  }

  function BytesText(data: seq<byte>, gap: nat): string {
    if data == [] then "" else Blanks(gap) + (ByteText(data[0]) + BytesText(data[1..], gap))
  }

  /** The one-digit length column "[N]". */
  function Marker1(n: nat): string
    requires n < 10
  {
    "[" + [DigitChar(n)] + "]"
  }

  /** The columns from the id on: "ID   [N]  b0 b1 ...". */
  function ScreenColumns(f: Frame, g: Gaps): string
    requires |f.data| < 10
  {
    IdText(f) + (Blanks(g.id) + (Marker1(|f.data|) + BytesText(f.data, g.bytes)))
  }

  /** Screen shape: " (s.f)  iface  [RX|TX f1 f2]  ID   [N]  b0 b1 ...". */
  function ScreenText(f: Frame, g: Gaps, flag1: string, flag2: string): string
    requires |f.data| < 10
  {
    var columns := Blanks(g.dlc) + ScreenColumns(f, g);
    Blanks(g.lead) + ("(" + (StampText(f) + (")" + (Blanks(g.stamp) + (f.iface
    + match f.direction
      case None => columns
      case Some(tx) =>
        Blanks(g.dir) + ((if tx then "TX" else "RX") + (Blanks(g.flags) + (flag1 + (Blanks(g.flags) + (flag2
        + columns))))))))))
  }

  // ----- reading words back -----

  lemma {:induction false} SkipBlanks(n: nat, s: string)
    requires s == "" || s[0] != ' '
    ensures SkipSpaces(Blanks(n) + s) == s
  {
    if n == 0 {
      assert Blanks(0) + s == s;
    } else {
      SkipBlanks(n - 1, s);
      assert (Blanks(n) + s)[1..] == Blanks(n - 1) + s;
    }
  }

  lemma {:induction false} WordLengthOf(w: string, s: string)
    requires ' ' !in w && (s == "" || s[0] == ' ')
    ensures WordLength(w + s) == |w|
  {
    if w == "" {
      assert w + s == s;
    } else {
      WordLengthOf(w[1..], s);
      assert (w + s)[1..] == w[1..] + s;
    }
  }

  /** Reading a word that is followed by blanks and then by text, or by nothing. */
  lemma ReadWord(w: string, gap: nat, s: string)
    requires IsWord(w)
    requires s == "" || (s[0] != ' ' && gap >= 1)
    ensures NextToken(w + (Blanks(gap) + s)) == (w, s)
  {
    var t := w + (Blanks(gap) + s);
    assert t[0] == w[0];
    assert SkipSpaces(t) == t;
    WordLengthOf(w, Blanks(gap) + s);
    assert t[..|w|] == w && t[|w|..] == Blanks(gap) + s;
    SkipBlanks(gap, s);
  }

  /** Reading the last word of a line. */
  lemma ReadLastWord(w: string)
    requires IsWord(w)
    ensures NextToken(w) == (w, "")
  {
    ReadWord(w, 0, "");
    assert w + (Blanks(0) + "") == w;
  }

  // ----- numbers -----

  lemma {:induction false} HexValueOf(v: nat, width: nat)
    requires v < Pow16(width)
    ensures HexValue(HexText(v, width)) == v
  {
    if width > 0 {
      HexValueOf(v / 16, width - 1);
      assert HexText(v, width)[..width - 1] == HexText(v / 16, width - 1);
    }
  }

  function Pow16(k: nat): nat {
    if k == 0 then 1 else 16 * Pow16(k - 1)
  }

  lemma Pow16Values()
    ensures Pow16(2) == 0x100 && Pow16(3) == 0x1000 && Pow16(8) == 0x1_0000_0000
  {
    assert Pow16(1) == 16 * Pow16(0);
    assert Pow16(4) == 16 * Pow16(3) && Pow16(5) == 16 * Pow16(4);
    assert Pow16(6) == 16 * Pow16(5) && Pow16(7) == 16 * Pow16(6);
  }

  lemma ReadId(f: Frame)
    requires ValidFrame(f)
    ensures ClassifyId(IdText(f)) == Some(IdClass(false, f.extended, f.id))
  {
    Pow16Values();
    HexValueOf(f.id, if f.extended then 8 else 3);
    assert ERR_FLAG < Pow16(8);
    if f.extended {
      assert f.id / ERR_FLAG == 0;
    }
  }

  lemma ReadByte(b: byte)
    ensures ByteToken(ByteText(b)) == Some(b)
  {
    var t := ByteText(b);
    assert HexText(b / 16, 1) == HexText(b / 16 / 16, 0) + [HexChar(b / 16 % 16)];
    assert t == [HexChar(b / 16), HexChar(b % 16)];
  }

  lemma HexBytesAppend(s: string, data: seq<byte>, w: string, b: byte)
    requires HexBytes(s) == Some(data) && ByteToken(w) == Some(b)
    ensures HexBytes(s + w) == Some(data + [b])
  {
    var t := s + w;
    assert AllHex(t);
    assert |t| / 2 == |data| + 1;
    forall i | 0 <= i < |data| + 1 ensures HexBytes(t).value[i] == (data + [b])[i] {
      if i < |data| {
        assert t[2 * i] == s[2 * i] && t[2 * i + 1] == s[2 * i + 1];
        assert HexBytes(s).value[i] == data[i];
      }
    }
    assert HexBytes(t).value == data + [b];
  }

  lemma {:induction false} ReadHexRun(data: seq<byte>)
    ensures HexBytes(HexRun(data)) == Some(data)
  {
    if data == [] {
      assert HexBytes("").value == [];
    } else {
      var front, last := data[..|data| - 1], data[|data| - 1];
      ReadHexRun(front);
      ReadByte(last);
      HexBytesAppend(HexRun(front), front, ByteText(last), last);
      assert data == front + [last];
    }
  }

  // ----- the prefix -----

  lemma SplitAtDot(a: string, b: string)
    ensures var inner := a + ("." + b); inner[..|a|] == a && inner[|a|] == '.' && inner[|a| + 1..] == b
  {
  }

  lemma StampOf(a: string, b: string)
    requires AllDigits(a) && a != "" && AllDigits(b)
    ensures FiguresOf(a + ("." + b)) == Some(Figures(false, a, b))
  {
    assert IsDigit(a[0]);
    SplitAtDot(a, b);
    DigitRunOf(a, "." + b);
    DigitRunOf(b, "");
    NothingAfter(b, "");
  }

  lemma SmallFraction(digits: string, n: nat)
    requires AllDigits(digits) && |digits| == n <= 9
    ensures FractionNs(digits) == Value(digits) * Pow10(9 - n)
  {
    ValueBound(digits);
    Pow10Around();
    Pow10Monotone(n, 18);
  }

  lemma StampOfParts(a: string, b: string, n: nat)
    requires AllDigits(a) && a != "" && Value(a) <= INT64_MAX && AllDigits(b) && |b| == n <= 9
    ensures Stamp(a + ("." + b)) == Some((Value(a), Value(b) * Pow10(9 - n)))
  {
    StampOf(a, b);
    SmallFraction(b, n);
  }

  lemma StampTextParts(f: Frame)
    ensures Same(StampText(f), Padded(f.seconds, 10) + ("." + Padded(f.fraction, f.digits)))
  {
    SameIf(StampText(f), Padded(f.seconds, 10) + ("." + Padded(f.fraction, f.digits)));
  }

  lemma ReadStamp(f: Frame)
    requires ValidFrame(f)
    ensures Stamp(StampText(f)) == Some((f.seconds, f.fraction * Pow10(9 - f.digits)))
  {
    var a, b := Padded(f.seconds, 10), Padded(f.fraction, f.digits);
    StampTextParts(f);
    ToStringLength(f.fraction, f.digits);
    ValueOfPadded(f.seconds, 10);
    ValueOfPadded(f.fraction, f.digits);
    StampOfParts(a, b, f.digits);
  }

  lemma NoParenInDigits(s: string)
    requires AllDigits(s)
    ensures ')' !in s
  {
  }

  lemma NoParenInStamp(f: Frame)
    ensures ')' !in StampText(f)
  {
    NoParenInDigits(Padded(f.seconds, 10));
    NoParenInDigits(Padded(f.fraction, f.digits));
  }

  lemma ParenShape(inner: string, rest: string)
    ensures var s := "(" + (inner + (")" + rest));
            && s[0] == '(' && s[1..] == inner + [')'] + rest
            && s[1..|inner| + 1] == inner && s[|inner| + 2..] == rest
  {
  }

  lemma TimestampOf(inner: string, sec: int, ns: int, gap: nat, after: string)
    requires ')' !in inner && Stamp(inner) == Some((sec, ns))
    requires after != "" && after[0] != ' '
    ensures Timestamp("(" + (inner + (")" + (Blanks(gap) + after)))) == (TsToken(true, true, sec, ns), after)
  {
    ParenShape(inner, Blanks(gap) + after);
    IndexOfFirst(inner, ')', Blanks(gap) + after);
    SkipBlanks(gap, after);
  }

  function PrefixOut(f: Frame): ParsedLine
    requires f.digits <= 9
  {
    FRESH_LINE.(hasTimestamp := true, tsSeconds := f.seconds, tsFractionNs := f.fraction * Pow10(9 - f.digits),
                iface := f.iface)
  }

  /** Both shapes start with the same prefix, up to blanks; `tail` is what follows the interface. */
  lemma ReadPrefix(f: Frame, lead: nat, gap: nat, tailGap: nat, tail: string)
    requires ValidFrame(f)
    requires tail != "" && tail[0] != ' ' && tailGap >= 1
    ensures CommonPrefix(
              Blanks(lead) + ("(" + (StampText(f) + (")" + (Blanks(gap) + (f.iface + (Blanks(tailGap) + tail)))))))
            == Prefixed(true, PrefixOut(f), tail)
  {
    var after := f.iface + (Blanks(tailGap) + tail);
    assert after[0] == f.iface[0] && f.iface[0] in f.iface;
    ReadStamp(f);
    NoParenInStamp(f);
    TimestampOf(StampText(f), f.seconds, f.fraction * Pow10(9 - f.digits), gap, after);
    SkipBlanks(lead, "(" + (StampText(f) + (")" + (Blanks(gap) + after))));
    ReadWord(f.iface, tailGap, tail);
  }

  // ----- log shape -----

  lemma LogBodyWord(out: ParsedLine, f: Frame, id: string, hex: string, rest: string, s: string)
    requires ClassifyId(id) == Some(IdClass(false, f.extended, f.id)) && id != "" && '#' !in id
    requires NextToken(s) == (id + ("#" + hex), rest)
    requires var o := out.(canId := f.id, extended := f.extended);
             LogKind(o, false, hex) == o.(kind := Data, data := f.data)
    ensures LogBody(out, s)
            == Direction(out.(kind := Data, canId := f.id, extended := f.extended, data := f.data), NextToken(rest).0)
  {
    var body := id + ("#" + hex);
    assert body == id + ['#'] + hex;
    IndexOfFirst(id, '#', hex);
    assert body[..|id|] == id && body[|id| + 1..] == hex;
  }

  lemma LogBodyOf(out: ParsedLine, f: Frame)
    requires ValidFrame(f)
    requires !out.directionKnown && !out.isTx
    ensures var gap := if f.direction.None? then 0 else 1;
            LogBody(out, (IdText(f) + ("#" + HexRun(f.data))) + (Blanks(gap) + DirectionWord(f.direction)))
            == out.(kind := Data, canId := f.id, extended := f.extended, data := f.data,
                    directionKnown := f.direction.Some?, isTx := f.direction == Some(true))
  {
    var id, hex := IdText(f), HexRun(f.data);
    var dirWord := DirectionWord(f.direction);
    var gap := if f.direction.None? then 0 else 1;
    var body := id + ("#" + hex);
    assert ' ' !in body && body != "";
    ReadWord(body, gap, dirWord);
    ReadId(f);
    LogKindOf(out.(canId := f.id, extended := f.extended), f.data);
    LogBodyWord(out, f, id, hex, dirWord, body + (Blanks(gap) + dirWord));
    if f.direction.Some? {
      ReadLastWord(dirWord);
    } else {
      assert NextToken("") == ("", "");
    }
  }

  lemma LogKindOf(out: ParsedLine, data: seq<byte>)
    requires |data| <= MAX_CLASSIC_BYTES
    ensures LogKind(out, false, HexRun(data)) == out.(kind := Data, data := data)
  {
    var rest := HexRun(data);
    ReadHexRun(data);
    PlainHexKind(out, rest, data);
  }

  lemma PlainHexKind(out: ParsedLine, rest: string, data: seq<byte>)
    requires forall c :: c in rest ==> c != '#' && c != 'R' && c != 'r' && c != ':' && c != '_'
    requires HexBytes(rest) == Some(data) && |data| <= MAX_CLASSIC_BYTES
    ensures LogKind(out, false, rest) == out.(kind := Data, data := data)
  {
    assert rest != "" ==> rest[0] in rest;
    assert '_' !in rest;
  }

  /** Printing a frame in log shape and parsing the line is the identity. */
  lemma LogRoundTrip(f: Frame)
    requires ValidFrame(f)
    ensures Line(LogText(f)) == Expected(f, LogGrammar)
  {
    var line := LogText(f);
    var gap := if f.direction.None? then 0 else 1;
    var body := IdText(f) + ("#" + HexRun(f.data));
    var tail := body + (Blanks(gap) + DirectionWord(f.direction));
    assert IdText(f)[0] in IdText(f);
    assert tail[0] == IdText(f)[0];
    LogTextShape(f);
    ReadPrefix(f, 0, 1, 1, tail);
    LogBodyOf(PrefixOut(f), f);
    assert line[0] == '(';
    LineFromBodies(line, PrefixOut(f), tail);
  }

  lemma LogTextShape(f: Frame)
    ensures var gap := if f.direction.None? then 0 else 1;
            var tail := (IdText(f) + ("#" + HexRun(f.data))) + (Blanks(gap) + DirectionWord(f.direction));
            LogText(f) == Blanks(0) + ("(" + (StampText(f) + (")" + (Blanks(1) + (f.iface + (Blanks(1) + tail))))))
  {
    assert Blanks(1) == " " + Blanks(0) && Blanks(0) == "";
    var dir := if f.direction.None? then "" else " " + DirectionWord(f.direction);
    var gap := if f.direction.None? then 0 else 1;
    assert dir == Blanks(gap) + DirectionWord(f.direction);
    Regroup(IdText(f), HexRun(f.data), dir);
  }

  lemma Regroup(id: string, hex: string, dir: string)
    ensures id + ("#" + (hex + dir)) == (id + ("#" + hex)) + dir
  {
  }

  // ----- screen shape -----

  lemma {:induction false} ReadBytes(data: seq<byte>, gap: nat)
    requires gap >= 1
    ensures TakeBytes(|data|, SkipSpaces(BytesText(data, gap))) == Some(data)
  {
    if data != [] {
      var rest := BytesText(data[1..], gap);
      var word := ByteText(data[0]);
      var s := word + rest;
      assert s[0] == word[0] && word[0] in word;
      SkipBlanks(gap, s);
      ReadBytes(data[1..], gap);
      ReadByte(data[0]);
      assert ' ' !in word;
      if data[1..] == [] {
        assert s == word;
        ReadLastWord(word);
        assert SkipSpaces("") == "";
      } else {
        var word' := ByteText(data[1]);
        var rest' := word' + BytesText(data[1..][1..], gap);
        assert rest == Blanks(gap) + rest';
        assert rest'[0] == word'[0] && word'[0] in word';
        ReadWord(word, gap, rest');
        SkipBlanks(gap, rest');
      }
      assert data == [data[0]] + data[1..];
    }
  }

  lemma NotRemote(data: seq<byte>, gap: nat)
    requires gap >= 1
    ensures !SaysRemoteRequest(SkipSpaces(BytesText(data, gap)))
  {
    var s := SkipSpaces(BytesText(data, gap));
    if data == [] {
      assert NextToken("") == ("", "");
    } else {
      ReadBytes(data, gap);
      var (tok, rest) := NextToken(s);
      assert ByteToken(tok).Some?;
      assert |tok| == 2;
    }
  }

  lemma ScreenPayloadOf(out: ParsedLine, n: nat, data: seq<byte>, s: string, rest: string)
    requires |data| == n <= MAX_CLASSIC_BYTES
    requires NextToken(s) == (Marker1(n), rest)
    requires !SaysRemoteRequest(rest) && TakeBytes(n, rest) == Some(data)
    ensures ScreenPayload(out, s) == out.(kind := Data, data := data)
  {
    var marker := Marker1(n);
    assert marker[1..|marker| - 1] == [DigitChar(n)];
    assert MarkerShape(marker) == BracketDlc(n);
  }

  lemma ScreenColumnsOf(out: ParsedLine, f: Frame, g: Gaps)
    requires ValidFrame(f) && ValidGaps(g)
    ensures ScreenFrame(out, ScreenColumns(f, g))
            == out.(kind := Data, canId := f.id, extended := f.extended, data := f.data)
  {
    var tail := Marker1(|f.data|) + BytesText(f.data, g.bytes);
    ReadMarker(f, g);
    assert tail[0] == '[';
    assert IsWord(IdText(f));
    ReadWord(IdText(f), g.id, tail);
    ReadId(f);
    NotRemote(f.data, g.bytes);
    ReadBytes(f.data, g.bytes);
    ScreenPayloadOf(out.(canId := f.id, extended := f.extended), |f.data|, f.data, tail,
                    SkipSpaces(BytesText(f.data, g.bytes)));
  }

  lemma ReadMarker(f: Frame, g: Gaps)
    requires ValidFrame(f) && ValidGaps(g)
    ensures var marker := Marker1(|f.data|);
            var tail := BytesText(f.data, g.bytes);
            NextToken(marker + tail) == (marker, SkipSpaces(tail))
  {
    var marker := Marker1(|f.data|);
    var tail := BytesText(f.data, g.bytes);
    assert ' ' !in marker;
    WordLengthOf(marker, tail);
    var t := marker + tail;
    assert t[0] == '[' && SkipSpaces(t) == t;
    assert t[..|marker|] == marker && t[|marker|..] == tail;
  }

  lemma ScreenBodyOf(out: ParsedLine, f: Frame, g: Gaps, flag1: string, flag2: string, s: string)
    requires ValidFrame(f) && ValidGaps(g) && IsWord(flag1) && IsWord(flag2)
    requires !out.directionKnown && !out.isTx
    requires s == match f.direction
                  case None => ScreenColumns(f, g)
                  case Some(tx) =>
                    (if tx then "TX" else "RX") + (Blanks(g.flags) + (flag1 + (Blanks(g.flags) + (flag2
                    + (Blanks(g.dlc) + ScreenColumns(f, g))))))
    ensures ScreenBody(out, s)
            == out.(kind := Data, canId := f.id, extended := f.extended, data := f.data,
                    directionKnown := f.direction.Some?, isTx := f.direction == Some(true))
  {
    var columns := ScreenColumns(f, g);
    var idText := IdText(f);
    assert columns[0] == idText[0] && idText[0] in idText;
    match f.direction
    case None =>
      var marker := Marker1(|f.data|);
      var tail := marker + BytesText(f.data, g.bytes);
      assert tail[0] == '[';
      ReadWord(idText, g.id, tail);
      assert |idText| != 2;
      ScreenColumnsOf(out, f, g);
    case Some(tx) =>
      var word := if tx then "TX" else "RX";
      var s2 := flag2 + (Blanks(g.dlc) + columns);
      var s1 := flag1 + (Blanks(g.flags) + s2);
      assert s1[0] == flag1[0] && s2[0] == flag2[0];
      ReadWord(word, g.flags, s1);
      ReadWord(flag1, g.flags, s2);
      ReadWord(flag2, g.dlc, columns);
      ScreenColumnsOf(out.(directionKnown := true, isTx := tx), f, g);
  }

  function ScreenTail(f: Frame, g: Gaps, flag1: string, flag2: string): string
    requires |f.data| < 10
  {
    match f.direction
    case None => ScreenColumns(f, g)
    case Some(tx) =>
      (if tx then "TX" else "RX") + (Blanks(g.flags) + (flag1 + (Blanks(g.flags) + (flag2
      + (Blanks(g.dlc) + ScreenColumns(f, g))))))
  }

  lemma ScreenTextShape(f: Frame, g: Gaps, flag1: string, flag2: string)
    requires |f.data| < 10
    ensures var gap := if f.direction.None? then g.dlc else g.dir;
            ScreenText(f, g, flag1, flag2)
            == Blanks(g.lead) + ("(" + (StampText(f) + (")" + (Blanks(g.stamp) + (f.iface
               + (Blanks(gap) + ScreenTail(f, g, flag1, flag2)))))))
  {
  }

  /** Printing a frame in screen shape, with any column padding and flag pair, and parsing it is the identity. */
  lemma ScreenRoundTrip(f: Frame, g: Gaps, flag1: string, flag2: string)
    requires ValidFrame(f) && ValidGaps(g) && IsWord(flag1) && IsWord(flag2)
    ensures Line(ScreenText(f, g, flag1, flag2)) == Expected(f, ScreenGrammar)
  {
    var line, tail := ScreenText(f, g, flag1, flag2), ScreenTail(f, g, flag1, flag2);
    var gap := if f.direction.None? then g.dlc else g.dir;
    assert IdText(f)[0] in IdText(f);
    assert ScreenColumns(f, g)[0] == IdText(f)[0];
    assert tail[0] != ' ';
    ScreenTextShape(f, g, flag1, flag2);
    ReadPrefix(f, g.lead, g.stamp, gap, tail);
    ScreenBodyOf(PrefixOut(f), f, g, flag1, flag2, tail);
    BodiesExclusive(PrefixOut(f), tail);
    assert line[0] == '(' || line[0] == ' ';
    LineFromBodies(line, PrefixOut(f), tail);
  }
}
