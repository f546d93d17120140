/** What makes a line which kind: identifiers, the other frame kinds in both shapes, and lines that are no frames. */
module CandumpKinds {
  import opened Slices
  import opened Wrappers
  import opened RawBytes
  import opened Decimal
  import opened Int64
  import opened CandumpTokens
  import opened CandumpLines
  import opened CandumpPrint

  // ----- identifiers -----

  /** An identifier printed with `width` hex digits: with eight, bit 29 makes it an error frame; otherwise the low 29
      bits are the id, extended when it has more than three digits or is above 0x7FF. */
  lemma IdExactly(v: nat, width: nat)
    requires 1 <= width <= 8 && v < Pow16(width)
    ensures ClassifyId(HexText(v, width))
            == Some(if width == 8 && (v / 0x2000_0000) % 2 == 1 then IdClass(true, false, v)
                    else IdClass(false, width > 3 || v > 0x7FF, v % 0x2000_0000))
  {
    HexValueOf(v, width);
  }

  // ----- frames of any kind -----

  /** What a line with this prefix, identifier and direction parses to, if it is a frame of that kind without data. */
  function Head(f: Frame, g: Grammar, kind: LineKind, c: IdClass): ParsedLine
    requires f.digits <= 9
  {
    FRESH_LINE.(
      kind := kind, grammar := g, hasTimestamp := true, tsSeconds := f.seconds,
      tsFractionNs := f.fraction * Pow10(9 - f.digits), iface := f.iface, canId := c.id, extended := c.extended,
      directionKnown := f.direction.Some?, isTx := f.direction == Some(true))
  }

  /** Log shape with any identifier and any text after the '#'. */
  function LogTextWith(f: Frame, id: string, rest: string): string {
    Blanks(0) + ("(" + (StampText(f) + (")" + (Blanks(1) + (f.iface + (Blanks(1) + LogTail(f, id, rest)))))))
  }

  function LogTail(f: Frame, id: string, rest: string): string {
    (id + ("#" + rest)) + (Blanks(if f.direction.None? then 0 else 1) + DirectionWord(f.direction))
  }

  /** The kind that the text after the '#' makes of a log line, where it is not classic data. */
  ghost predicate LogKindIs(c: IdClass, rest: string, kind: LineKind) {
    if c.isError then kind == ErrorFrame
    else if rest == "" then false
    else if rest[0] == '#' then kind == Fd
    else if rest[0] == 'R' || rest[0] == 'r' then kind == Rtr
    else ':' in rest && kind == Xl
  }

  lemma KindBehindHash(out: ParsedLine, c: IdClass, rest: string, kind: LineKind)
    requires LogKindIs(c, rest, kind)
    ensures LogKind(out, c.isError, rest) == out.(kind := kind) && kind != Malformed
  {
  }

  lemma LogBodyWith(out: ParsedLine, f: Frame, id: string, c: IdClass, rest: string, kind: LineKind)
    requires ClassifyId(id) == Some(c) && IsWord(id) && '#' !in id && ' ' !in rest && LogKindIs(c, rest, kind)
    requires !out.directionKnown && !out.isTx
    ensures LogBody(out, LogTail(f, id, rest))
            == out.(kind := kind, canId := c.id, extended := c.extended, directionKnown := f.direction.Some?,
                    isTx := f.direction == Some(true))
  {
    var body, dirWord := id + ("#" + rest), DirectionWord(f.direction);
    assert ' ' !in body && body != "";
    ReadWord(body, if f.direction.None? then 0 else 1, dirWord);
    LogBodyParts(id, rest);
    KindBehindHash(out.(canId := c.id, extended := c.extended), c, rest, kind);
    if f.direction.Some? {
      ReadLastWord(dirWord);
    } else {
      assert NextToken("") == ("", "");
    }
  }

  lemma LogBodyParts(id: string, rest: string)
    requires '#' !in id
    ensures var body := id + ("#" + rest);
            IndexOf(body, '#') == Some(|id|) && Same(body[..|id|], id) && Same(body[|id| + 1..], rest)
  {
    var body := id + ("#" + rest);
    assert body == id + ['#'] + rest;
    IndexOfFirst(id, '#', rest);
    SameIf(body[..|id|], id);
    SameIf(body[|id| + 1..], rest);
  }

  /** In log shape: an error identifier makes an error frame; else "##" an FD frame, "#R" or "#r" a remote request, and
      a ':' behind the '#' an XL frame. */
  lemma LogLineKinds(f: Frame, id: string, c: IdClass, rest: string, kind: LineKind)
    requires ValidFrame(f) && IsWord(id) && '#' !in id && ClassifyId(id) == Some(c)
    requires ' ' !in rest && LogKindIs(c, rest, kind)
    ensures Line(LogTextWith(f, id, rest)) == Head(f, LogGrammar, kind, c)
  {
    var line, tail := LogTextWith(f, id, rest), LogTail(f, id, rest);
    assert id[0] in id && tail[0] == id[0];
    ReadPrefix(f, 0, 1, 1, tail);
    LogBodyWith(PrefixOut(f), f, id, c, rest, kind);
    assert line[0] == '(';
    LineFromBodies(line, PrefixOut(f), tail);
  }

  // ----- screen shape -----

  /** Screen shape with any columns from the identifier on. */
  function ScreenTextWith(f: Frame, g: Gaps, flag1: string, flag2: string, columns: string): string {
    var gap := if f.direction.None? then g.dlc else g.dir;
    Blanks(g.lead) + ("(" + (StampText(f) + (")" + (Blanks(g.stamp) + (f.iface + (Blanks(gap)
    + ScreenTailWith(f, g, flag1, flag2, columns)))))))
  }

  function ScreenTailWith(f: Frame, g: Gaps, flag1: string, flag2: string, columns: string): string {
    match f.direction
    case None => columns
    case Some(tx) =>
      (if tx then "TX" else "RX")
      + (Blanks(g.flags) + (flag1 + (Blanks(g.flags) + (flag2 + (Blanks(g.dlc) + columns)))))
  }

  /** The columns behind an identifier that make a screen line a frame of a kind other than classic data. */
  ghost predicate ScreenKindIs(c: IdClass, columns: string, kind: LineKind) {
    var (marker, rest) := NextToken(columns);
    if c.isError then kind == ErrorFrame
    else if IsLengthMarker(marker, 2) then kind == Fd
    else if IsLengthMarker(marker, 4) then
      var group := NextToken(rest).0;
      |group| >= 2 && group[0] == '(' && group[|group| - 1] == ')' && kind == Xl
    else
      && (IsLengthMarker(marker, 1) || IsCodeMarker(marker))
      && NextToken(rest).0 == "remote" && NextToken(NextToken(rest).1).0 == "request" && kind == Rtr
  }

  /** "[N...]" with n decimal digits. */
  predicate IsLengthMarker(m: string, n: nat) {
    |m| == n + 2 && m[0] == '[' && m[n + 1] == ']' && AllDigits(m[1..n + 1])
  }

  /** "{H}" with one hex digit. */
  predicate IsCodeMarker(m: string) {
    |m| == 3 && m[0] == '{' && m[2] == '}' && IsHex(m[1])
  }

  lemma MarkerExactly(m: string)
    ensures IsLengthMarker(m, 4) ==> MarkerShape(m) == XlMarker
    ensures IsLengthMarker(m, 2) ==> MarkerShape(m) == FdMarker
    ensures IsLengthMarker(m, 1) ==> MarkerShape(m).BracketDlc?
    ensures IsCodeMarker(m) ==> MarkerShape(m) == BraceCode
  {
  }

  lemma KindOfColumns(out: ParsedLine, c: IdClass, columns: string, kind: LineKind)
    requires !c.isError && ScreenKindIs(c, columns, kind)
    ensures ScreenPayload(out, columns) == out.(kind := kind)
  {
    MarkerExactly(NextToken(columns).0);
  }

  lemma ScreenFrameWith(out: ParsedLine, id: string, gap: nat, c: IdClass, columns: string, kind: LineKind)
    requires ClassifyId(id) == Some(c) && IsWord(id) && gap >= 1 && columns != "" && columns[0] != ' '
    requires ScreenKindIs(c, columns, kind)
    ensures ScreenFrame(out, id + (Blanks(gap) + columns))
            == out.(kind := kind, canId := c.id, extended := c.extended)
  {
    ReadWord(id, gap, columns);
    if !c.isError {
      KindOfColumns(out.(canId := c.id, extended := c.extended), c, columns, kind);
    }
  }

  lemma ScreenBodyWith(out: ParsedLine, f: Frame, g: Gaps, flag1: string, flag2: string, id: string, rest: string)
    requires ValidGaps(g) && IsWord(flag1) && IsWord(flag2) && IsWord(id) && |id| != 2
    requires !out.directionKnown && !out.isTx && rest != "" && rest[0] != ' '
    ensures var columns := id + (Blanks(g.id) + rest);
            ScreenBody(out, ScreenTailWith(f, g, flag1, flag2, columns))
            == ScreenFrame(out.(directionKnown := f.direction.Some?, isTx := f.direction == Some(true)), columns)
  {
    var columns := id + (Blanks(g.id) + rest);
    assert id[0] in id && columns[0] == id[0];
    match f.direction
    case None => ReadWord(id, g.id, rest);
    case Some(tx) =>
      var word := if tx then "TX" else "RX";
      var s2 := flag2 + (Blanks(g.dlc) + columns);
      var s1 := flag1 + (Blanks(g.flags) + s2);
      assert flag1[0] in flag1 && flag2[0] in flag2 && s1[0] == flag1[0] && s2[0] == flag2[0];
      ReadWord(word, g.flags, s1);
      ReadWord(flag1, g.flags, s2);
      ReadWord(flag2, g.dlc, columns);
  }

  lemma ScreenBodyKinds(
      out: ParsedLine, f: Frame, g: Gaps, flag1: string, flag2: string, id: string, c: IdClass, columns: string,
      kind: LineKind)
    requires ValidGaps(g) && IsWord(flag1) && IsWord(flag2)
    requires IsWord(id) && |id| != 2 && ClassifyId(id) == Some(c) && !out.directionKnown && !out.isTx
    requires columns != "" && columns[0] != ' ' && ScreenKindIs(c, columns, kind)
    ensures ScreenBody(out, ScreenTailWith(f, g, flag1, flag2, id + (Blanks(g.id) + columns)))
            == out.(kind := kind, canId := c.id, extended := c.extended, directionKnown := f.direction.Some?,
                    isTx := f.direction == Some(true))
  {
    ScreenBodyWith(out, f, g, flag1, flag2, id, columns);
    ScreenFrameWith(out.(directionKnown := f.direction.Some?, isTx := f.direction == Some(true)), id, g.id, c, columns,
                    kind);
  }

  /** In screen shape: an error identifier makes an error frame; else "[NN]" an FD frame, "[NNNN]" before a
      parenthesised group an XL frame, and "[N]" or "{H}" before "remote request" a remote request. */
  lemma ScreenLineKinds(
      f: Frame, g: Gaps, flag1: string, flag2: string, id: string, c: IdClass, columns: string, kind: LineKind)
    requires ValidFrame(f) && ValidGaps(g) && IsWord(flag1) && IsWord(flag2)
    requires IsWord(id) && |id| != 2 && ClassifyId(id) == Some(c)
    requires columns != "" && columns[0] != ' ' && ScreenKindIs(c, columns, kind)
    ensures Line(ScreenTextWith(f, g, flag1, flag2, id + (Blanks(g.id) + columns))) == Head(f, ScreenGrammar, kind, c)
  {
    var all := id + (Blanks(g.id) + columns);
    assert id[0] in id && all[0] == id[0];
    ScreenPrefix(f, g, flag1, flag2, all);
    ScreenBodyKinds(PrefixOut(f), f, g, flag1, flag2, id, c, columns, kind);
    LineOfScreen(ScreenTextWith(f, g, flag1, flag2, all), PrefixOut(f), ScreenTailWith(f, g, flag1, flag2, all),
                 Head(f, Unknown, kind, c));
  }

  lemma ScreenPrefix(f: Frame, g: Gaps, flag1: string, flag2: string, columns: string)
    requires ValidFrame(f) && ValidGaps(g) && columns != "" && columns[0] != ' '
    ensures var line := ScreenTextWith(f, g, flag1, flag2, columns);
            && IsFrameLine(line)
            && CommonPrefix(line) == Prefixed(true, PrefixOut(f), ScreenTailWith(f, g, flag1, flag2, columns))
  {
    var tail := ScreenTailWith(f, g, flag1, flag2, columns);
    assert tail != "" && tail[0] != ' ';
    ReadPrefix(f, g.lead, g.stamp, if f.direction.None? then g.dlc else g.dir, tail);
    var line := ScreenTextWith(f, g, flag1, flag2, columns);
    assert line[0] == '(' || line[0] == ' ';
  }

  lemma LineOfScreen(line: string, out: ParsedLine, tail: string, r: ParsedLine)
    requires IsFrameLine(line) && CommonPrefix(line) == Prefixed(true, out, tail)
    requires ScreenBody(out, tail) == r && r.kind != Malformed
    ensures Line(line) == r.(grammar := ScreenGrammar)
  {
    BodiesExclusive(out, tail);
    LineFromBodies(line, out, tail);
  }

  // ----- lines that are no frames -----

  /** A line that starts with a tab continues an error frame. */
  lemma DetailLine(text: string)
    ensures Line("\t" + text) == FRESH_LINE.(kind := ErrorDetail)
  {
  }

  /** A parenthesised text that is no plain number is a wall-clock stamp. */
  lemma WallClockLine(inner: string, rest: string)
    requires ')' !in inner && Stamp(inner).None?
    ensures Line("(" + (inner + (")" + rest))) == FRESH_LINE.(kind := WallClock, hasTimestamp := true)
  {
    ParenShape(inner, rest);
    IndexOfFirst(inner, ')', rest);
    var line := "(" + (inner + (")" + rest));
    assert line[0] == '(' && SkipSpaces(line) == line;
  }

  lemma BehindQuote(a: string, b: string)
    requires '\'' !in a
    ensures var s := a + ("'" + b);
            IndexOf(s, '\'') == Some(|a|) && Same(s[..|a|], a) && Same(s[|a| + 1..], b)
  {
    var s := a + ("'" + b);
    assert s == a + ['\''] + b;
    IndexOfFirst(a, '\'', b);
    SameIf(s[..|a|], a);
    SameIf(s[|a| + 1..], b);
  }

  lemma QuotedOf(middle: string, iface: string, rest: string)
    requires '\'' !in middle && '\'' !in iface
    ensures Same(Quoted(middle + ("'" + (iface + ("'" + rest)))), iface)
  {
    var tail := iface + ("'" + rest);
    var s := middle + ("'" + tail);
    BehindQuote(middle, tail);
    BehindQuote(iface, rest);
    SliceOfSuffix(s, |middle| + 1, 0, |iface|);
  }

  lemma DropPrefix(t: string)
    requires t != "" && t[0] != ' '
    ensures var line := "DROPCOUNT: " + t;
            DROP_PREFIX <= line && Same(SkipSpaces(line[|DROP_PREFIX|..]), t)
  {
    var line := "DROPCOUNT: " + t;
    assert line[..10] == "DROPCOUNT:";
    var behind := line[10..];
    assert behind[0] == ' ';
    SameIf(behind[1..], t);
  }

  lemma DroppedBehind(t: string)
    ensures var s := "dropped " + t; "dropped " <= s && Same(s[8..], t)
  {
    SameIf(("dropped " + t)[8..], t);
  }

  lemma DigitsBehind(n: nat, quoted: string)
    requires quoted != "" && !IsDigit(quoted[0])
    ensures var t := ToString(n) + quoted;
            DigitRun(t) == |ToString(n)| && Same(t[..|ToString(n)|], ToString(n)) && Same(t[|ToString(n)|..], quoted)
  {
    DigitRunOf(ToString(n), quoted);
    CutConcat(ToString(n), quoted);
  }

  lemma DropLineOf(line: string, s: string, t: string, digits: string, quoted: string, n: nat, iface: string)
    requires DROP_PREFIX <= line && Same(SkipSpaces(line[|DROP_PREFIX|..]), s)
    requires "dropped " <= s && Same(s[8..], t)
    requires DigitRun(t) == |digits| && Same(t[..|digits|], digits) && Same(t[|digits|..], quoted)
    requires AllDigits(digits) && Value(digits) == n < 0x1_0000_0000_0000_0000 && Same(Quoted(quoted), iface)
    ensures Line(line) == FRESH_LINE.(kind := DropNotice, droppedCount := n, iface := iface)
  {
    assert line[0] == 'D';
  }

  /** A drop notice carries its count and the interface between the first two quotes. */
  lemma DropLine(n: nat, middle: string, iface: string, rest: string)
    requires n < 0x1_0000_0000_0000_0000 && middle != "" && !IsDigit(middle[0])
    requires '\'' !in middle && '\'' !in iface
    ensures Line("DROPCOUNT: " + ("dropped " + (ToString(n) + (middle + ("'" + (iface + ("'" + rest)))))))
            == FRESH_LINE.(kind := DropNotice, droppedCount := n, iface := iface)
  {
    var quoted := middle + ("'" + (iface + ("'" + rest)));
    assert quoted[0] == middle[0];
    var t := ToString(n) + quoted;
    var s := "dropped " + t;
    assert s[0] == 'd';
    DropPrefix(s);
    DroppedBehind(t);
    DigitsBehind(n, quoted);
    ValueOfToString(n);
    QuotedOf(middle, iface, rest);
    DropLineOf("DROPCOUNT: " + s, s, t, ToString(n), quoted, n, iface);
  }

  // ----- classic data with a length code -----

  lemma Suffixed(hex: string, h: char)
    requires '_' !in hex
    ensures var s := hex + ("_" + [h]);
            IndexOf(s, '_') == Some(|hex|) && |s| == |hex| + 2 && s[|hex| + 1] == h && Same(s[..|hex|], hex)
  {
    assert hex + ("_" + [h]) == hex + ['_'] + [h];
    IndexOfFirst(hex, '_', [h]);
    SameIf((hex + ("_" + [h]))[..|hex|], hex);
  }

  lemma PlainData(hex: string, data: seq<byte>)
    requires '_' !in hex && HexBytes(hex) == Some(data) && |data| <= MAX_CLASSIC_BYTES
    ensures ClassicData(hex) == Some(data)
  {
  }

  lemma CodedData(hex: string, h: char, data: seq<byte>)
    requires '_' !in hex && HexBytes(hex) == Some(data) && |data| <= MAX_CLASSIC_BYTES && IsHex(h)
    ensures ClassicData(hex + ("_" + [h])) == Some(data)
  {
    Suffixed(hex, h);
  }

  /** The "_H" suffix behind the data of a log line changes nothing. */
  lemma CodeSuffixDropped(data: seq<byte>, h: char)
    requires IsHex(h) && |data| <= MAX_CLASSIC_BYTES
    ensures ClassicData(HexRun(data)) == Some(data) == ClassicData(HexRun(data) + ("_" + [h]))
  {
    ReadHexRun(data);
    assert '_' !in HexRun(data);
    PlainData(HexRun(data), data);
    CodedData(HexRun(data), h, data);
  }

  /** Behind "{H}" the bytes that are there are the data, whatever the code says. */
  lemma {:induction false} CodedBytes(data: seq<byte>, gap: nat, n: nat)
    requires gap >= 1 && |data| <= n
    ensures TakeUpTo(n, SkipSpaces(BytesText(data, gap))) == data
  {
    var s := SkipSpaces(BytesText(data, gap));
    if data == [] {
      assert NextToken("") == ("", "");
    } else {
      FirstByte(data, gap);
      CodedBytes(data[1..], gap, n - 1);
      assert data == [data[0]] + data[1..];
    }
  }

  /** Behind "[N]" with fewer than N bytes there is no classic data. */
  lemma {:induction false} ShortDataRefused(data: seq<byte>, gap: nat, n: nat)
    requires gap >= 1 && |data| < n
    ensures TakeBytes(n, SkipSpaces(BytesText(data, gap))).None?
  {
    if |data| == 0 {
      assert NextToken("") == ("", "");
    } else {
      FirstByte(data, gap);
      ShortDataRefused(data[1..], gap, n - 1);
    }
  }

  lemma FirstByte(data: seq<byte>, gap: nat)
    requires gap >= 1 && data != []
    ensures NextToken(SkipSpaces(BytesText(data, gap)))
            == (ByteText(data[0]), SkipSpaces(BytesText(data[1..], gap)))
    ensures ByteToken(ByteText(data[0])) == Some(data[0])
  {
    var word, rest := ByteText(data[0]), BytesText(data[1..], gap);
    var s := word + rest;
    assert s[0] == word[0] && word[0] in word;
    SkipBlanks(gap, s);
    ReadByte(data[0]);
    WordLengthOf(word, rest);
    CutConcat(word, rest);
  }

  /** More than eight bytes are no classic frame. */
  lemma NineBytesRefused(data: seq<byte>)
    requires |data| > 8
    ensures ClassicData(HexRun(data)).None?
  {
    ReadHexRun(data);
    assert '_' !in HexRun(data);
    LongData(HexRun(data), data);
  }

  lemma LongData(hex: string, data: seq<byte>)
    requires '_' !in hex && HexBytes(hex) == Some(data) && |data| > 8
    ensures ClassicData(hex).None?
  {
  }
}
