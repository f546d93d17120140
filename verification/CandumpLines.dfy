/** One candump line: two frame grammars tried off one shared prefix. */
module CandumpLines {
  import opened Slices
  import opened Wrappers
  import opened RawBytes
  import opened Decimal
  import opened Int64
  import opened CandumpTokens

  datatype LineKind =
    | Data | Rtr | Fd | Xl | ErrorFrame | ErrorDetail | DropNotice | WallClock | Malformed

  datatype Grammar = Unknown | LogGrammar | ScreenGrammar

  datatype ParsedLine = ParsedLine(
    kind: LineKind, grammar: Grammar, hasTimestamp: bool, tsSeconds: int, tsFractionNs: int, iface: string,
    canId: nat, extended: bool, data: seq<byte>, directionKnown: bool, isTx: bool, droppedCount: nat)

  /** A default-constructed ParsedLine. */
  const FRESH_LINE := ParsedLine(Malformed, Unknown, false, 0, 0, "", 0, false, [], false, false, 0)

  const ERR_FLAG := 0x2000_0000
  const MAX_CLASSIC_BYTES := 8
  const DROP_PREFIX := "DROPCOUNT:"

  // ----- identifiers -----

  datatype IdClass = IdClass(isError: bool, extended: bool, id: nat)

  /** classifyId: bit 29 of an eight-digit id marks an error frame; the low 29 bits are the id. */
  function ClassifyId(hex: string): Option<IdClass> {
    match HexU32(hex)
    case None => None
    case Some(raw) =>
      if |hex| >= 8 && (raw / ERR_FLAG) % 2 == 1 then Some(IdClass(true, false, raw))
      else Some(IdClass(false, |hex| > 3 || raw > 0x7FF, raw % ERR_FLAG))
  }

  // ----- the shared prefix -----

  datatype Prefixed = Prefixed(ok: bool, out: ParsedLine, rest: string)

  /** Timestamp and interface; `ok` is false when the line is already decided. */
  function CommonPrefix(line: string): Prefixed {
    var (ts, r) := Timestamp(SkipSpaces(line));
    var out := FRESH_LINE.(hasTimestamp := ts.present);
    if !ts.present then Prefixed(false, out, r)
    else if !ts.numeric then Prefixed(false, out.(kind := WallClock), r)
    else
      var out1 := out.(tsSeconds := ts.seconds, tsFractionNs := ts.fractionNs);
      var (iface, rest) := NextToken(r);
      if iface == "" then Prefixed(false, out1, rest) else Prefixed(true, out1.(iface := iface), rest)
  }

  method ParseCommonPrefix(line: string) returns (ok: bool, out: ParsedLine, pos: nat)
    ensures pos <= |line| && CommonPrefix(line) == Prefixed(ok, out, line[pos..])
  {
    ok, out := false, FRESH_LINE;
    pos := SkipSpacesAt(line, 0);
    assert line[0..] == line;
    var ts;
    ts, pos := ParseTsToken(line, pos);
    out := out.(hasTimestamp := ts.present);
    if !ts.present {
      out := out.(kind := Malformed);
      return;
    }
    if !ts.numeric {
      out := out.(kind := WallClock);
      return;
    }
    out := out.(tsSeconds := ts.seconds, tsFractionNs := ts.fractionNs);
    var iface;
    iface, pos := NextTokenAt(line, pos);
    if iface == "" {
      out := out.(kind := Malformed);
      return;
    }
    out := out.(iface := iface);
    ok := true;
  }

  /** A body parser keeps the prefix fields and decides a frame kind, never a dispatch-level one. */
  predicate Finishes(prefix: ParsedLine, out: ParsedLine) {
    && out.hasTimestamp == prefix.hasTimestamp && out.tsSeconds == prefix.tsSeconds
    && out.tsFractionNs == prefix.tsFractionNs && out.iface == prefix.iface
    && out.grammar == prefix.grammar && out.droppedCount == prefix.droppedCount
    && (out.kind == Malformed || IsFrameKind(out.kind))
  }

  predicate IsFrameKind(k: LineKind) {
    k == Data || k == Rtr || k == Fd || k == Xl || k == ErrorFrame
  }

  // ----- the log grammar -----

  function Direction(out: ParsedLine, tok: string): ParsedLine {
    if tok == "R" then out.(directionKnown := true, isTx := false)
    else if tok == "T" then out.(directionKnown := true, isTx := true)
    else out
  }

  /** The bytes of a classic frame, with an optional "_<hex digit>" suffix. */
  function ClassicData(rest: string): Option<seq<byte>> {
    var hex :=
      match IndexOf(rest, '_')
      case None => Some(rest)
      case Some(u) => if u + 2 != |rest| || !IsHex(rest[u + 1]) then None else Some(rest[..u]);
    match hex
    case None => None
    case Some(h) =>
      match HexBytes(h)
      case None => None
      case Some(data) => if |data| > MAX_CLASSIC_BYTES then None else Some(data)
  }

  /** What follows the '#' of a log body decides the kind of frame. */
  function LogKind(out: ParsedLine, isError: bool, rest: string): (r: ParsedLine)
    ensures Finishes(out, r)
  {
    if isError then out.(kind := ErrorFrame)
    else if rest != "" && rest[0] == '#' then out.(kind := Fd)
    else if rest != "" && (rest[0] == 'R' || rest[0] == 'r') then out.(kind := Rtr)
    else if ':' in rest then out.(kind := Xl)
    else match ClassicData(rest)
      case None => out.(kind := Malformed)
      case Some(data) => out.(kind := Data, data := data)
  }

  function LogBody(out: ParsedLine, s: string): (r: ParsedLine)
    ensures Finishes(out, r)
  {
    var (body, rest) := NextToken(s);
    match IndexOf(body, '#')
    case None => out.(kind := Malformed)
    case Some(hash) =>
      if hash == 0 then out.(kind := Malformed)
      else match ClassifyId(body[..hash])
        case None => out.(kind := Malformed)
        case Some(c) =>
          var out1 := LogKind(out.(canId := c.id, extended := c.extended), c.isError, body[hash + 1..]);
          if out1.kind == Malformed then out1 else Direction(out1, NextToken(rest).0)
  }

  method ParseClassicData(rest: string) returns (r: Option<seq<byte>>)
    ensures r == ClassicData(rest)
  {
    var dataHex := rest;
    var underscore := IndexOf(rest, '_');
    if underscore.Some? {
      if underscore.value + 2 != |rest| || !IsHex(rest[underscore.value + 1]) {
        return None;
      }
      dataHex := rest[..underscore.value];
    }
    r := ParseHexBytes(dataHex);
    if r.Some? && |r.value| > MAX_CLASSIC_BYTES {
      r := None;
    }
  }

  method ParseLogKind(prefix: ParsedLine, isError: bool, rest: string) returns (out: ParsedLine)
    ensures out == LogKind(prefix, isError, rest)
  {
    out := prefix;
    if isError {
      out := out.(kind := ErrorFrame);
    } else if rest != "" && rest[0] == '#' {
      out := out.(kind := Fd);
    } else if rest != "" && (rest[0] == 'R' || rest[0] == 'r') {
      out := out.(kind := Rtr);
    } else if IndexOf(rest, ':').Some? {
      out := out.(kind := Xl);
    } else {
      var data := ParseClassicData(rest);
      if data.None? {
        return out.(kind := Malformed);
      }
      out := out.(kind := Data, data := data.value);
    }
  }

  method ParseLogBody(line: string, prefix: ParsedLine, start: nat) returns (out: ParsedLine)
    requires start <= |line|
    ensures out == LogBody(prefix, line[start..])
  {
    out := prefix;
    var body, pos := NextTokenAt(line, start);
    var hash := IndexOf(body, '#');
    if hash.None? || hash.value == 0 {
      return out.(kind := Malformed);
    }
    var idClass := ClassifyId(body[..hash.value]);
    if idClass.None? {
      return out.(kind := Malformed);
    }
    out := out.(canId := idClass.value.id, extended := idClass.value.extended);
    out := ParseLogKind(out, idClass.value.isError, body[hash.value + 1..]);
    if out.kind == Malformed {
      return;
    }
    var dir;
    dir, pos := NextTokenAt(line, pos);
    if dir == "R" {
      out := out.(directionKnown := true, isTx := false);
    } else if dir == "T" {
      out := out.(directionKnown := true, isTx := true);
    }
  }

  // ----- the screen grammar -----

  datatype Marker = BadMarker | XlMarker | FdMarker | BracketDlc(n: nat) | BraceCode

  /** "[N]", "{H}", "[NN]" or "[NNNN]": the shape of the length column, not its value, tells the kinds apart. */
  function MarkerShape(m: string): (r: Marker)
    ensures r.BracketDlc? ==> r.n < 10
  {
    if |m| < 3 then BadMarker
    else
      var digits := m[1..|m| - 1];
      var brace, bracket := m[0] == '{' && m[|m| - 1] == '}', m[0] == '[' && m[|m| - 1] == ']';
      if brace then if AllHex(digits) && |digits| == 1 then BraceCode else BadMarker
      else if !bracket || !AllDigits(digits) then BadMarker
      else if |digits| == 4 then XlMarker
      else if |digits| == 2 then FdMarker
      else if |digits| == 1 then BracketDlc(DigitValue(digits[0]))
      else BadMarker
  }

  /** Exactly n byte tokens. */
  function TakeBytes(n: nat, s: string): Option<seq<byte>> {
    if n == 0 then Some([])
    else
      var (tok, rest) := NextToken(s);
      match ByteToken(tok)
      case None => None
      case Some(b) =>
        match TakeBytes(n - 1, rest)
        case None => None
        case Some(bs) => Some([b] + bs)
  }

  /** Byte tokens until the first other token, at most n. */
  function TakeUpTo(n: nat, s: string): seq<byte> {
    if n == 0 then []
    else
      var (tok, rest) := NextToken(s);
      match ByteToken(tok)
      case None => []
      case Some(b) => [b] + TakeUpTo(n - 1, rest)
  }

  predicate SaysRemoteRequest(s: string) {
    var (first, rest) := NextToken(s);
    first == "remote" && NextToken(rest).0 == "request"
  }

  /** The columns after a classic length marker. */
  function ScreenClassic(out: ParsedLine, marker: Marker, s: string): (r: ParsedLine)
    requires marker.BracketDlc? || marker.BraceCode?
    ensures Finishes(out, r)
  {
    if SaysRemoteRequest(s) then out.(kind := Rtr)
    else match marker
      case BracketDlc(n) =>
        if n > MAX_CLASSIC_BYTES then out.(kind := Malformed)
        else (match TakeBytes(n, s)
          case None => out.(kind := Malformed)
          case Some(data) => out.(kind := Data, data := data))
      case BraceCode => out.(kind := Data, data := TakeUpTo(MAX_CLASSIC_BYTES, s))
  }

  function ScreenPayload(out: ParsedLine, s: string): (r: ParsedLine)
    ensures Finishes(out, r)
  {
    var (m, rest) := NextToken(s);
    var marker := MarkerShape(m);
    match marker
    case BadMarker => out.(kind := Malformed)
    case XlMarker =>
      var group := NextToken(rest).0;
      if |group| < 2 || group[0] != '(' || group[|group| - 1] != ')' then out.(kind := Malformed)
      else out.(kind := Xl)
    case FdMarker => out.(kind := Fd)
    case _ => ScreenClassic(out, marker, rest)
  }

  function ScreenFrame(out: ParsedLine, s: string): (r: ParsedLine)
    ensures Finishes(out, r)
  {
    var (idHex, rest) := NextToken(s);
    if idHex == "" then out.(kind := Malformed)
    else match ClassifyId(idHex)
      case None => out.(kind := Malformed)
      case Some(c) =>
        var out1 := out.(canId := c.id, extended := c.extended);
        if c.isError then out1.(kind := ErrorFrame) else ScreenPayload(out1, rest)
  }

  function ScreenBody(out: ParsedLine, s: string): (r: ParsedLine)
    ensures Finishes(out, r)
  {
    var (tok, rest) := NextToken(s);
    if tok == "RX" || tok == "TX" then
      ScreenFrame(out.(directionKnown := true, isTx := tok == "TX"), NextToken(NextToken(rest).1).1)
    else ScreenFrame(out, s)
  }

  method ParseMarker(m: string) returns (r: Marker)
    ensures r == MarkerShape(m)
  {
    if |m| < 3 {
      return BadMarker;
    }
    var isBrace, isBracket := m[0] == '{' && m[|m| - 1] == '}', m[0] == '[' && m[|m| - 1] == ']';
    if !isBrace && !isBracket {
      return BadMarker;
    }
    var digits := m[1..|m| - 1];
    for i := 0 to |digits|
      invariant isBrace ==> AllHex(digits[..i])
      invariant isBracket ==> AllDigits(digits[..i])
    {
      if (isBrace && !IsHex(digits[i])) || (isBracket && !IsDigit(digits[i])) {
        return BadMarker;
      }
    }
    Whole(digits);
    if isBrace {
      return if |digits| == 1 then BraceCode else BadMarker;
    }
    if |digits| == 4 {
      return XlMarker;
    }
    if |digits| == 2 {
      return FdMarker;
    }
    return if |digits| == 1 then BracketDlc(DigitValue(digits[0])) else BadMarker;
  }

  function Prepended(front: seq<byte>, r: Option<seq<byte>>): Option<seq<byte>> {
    match r
    case None => None
    case Some(bs) => Some(front + bs)
  }

  lemma TakeBytesStep(n: nat, s: string, front: seq<byte>)
    requires n > 0
    ensures var (tok, rest) := NextToken(s);
            Prepended(front, TakeBytes(n, s))
            == match ByteToken(tok)
               case None => None
               case Some(b) => Prepended(front + [b], TakeBytes(n - 1, rest))
  {
    var (tok, rest) := NextToken(s);
    var tail := TakeBytes(n - 1, rest);
    if ByteToken(tok).Some? && tail.Some? {
      var b := ByteToken(tok).value;
      assert front + ([b] + tail.value) == (front + [b]) + tail.value;
    }
  }

  method CountedBytes(line: string, start: nat, n: nat) returns (r: Option<seq<byte>>)
    requires start <= |line|
    ensures r == TakeBytes(n, line[start..])
  {
    var data: seq<byte> := [];
    var pos: nat := start;
    ghost var want := TakeBytes(n, line[start..]);
    if want.Some? {
      NothingBefore([], want.value);
    }
    for i := 0 to n
      invariant pos <= |line|
      invariant want == Prepended(data, TakeBytes(n - i, line[pos..]))
    {
      TakeBytesStep(n - i, line[pos..], data);
      var tok;
      tok, pos := NextTokenAt(line, pos);
      var b := ByteToken(tok);
      if b.None? {
        return None;
      }
      data := data + [b.value];
    }
    NothingAfter(data, []);
    return Some(data);
  }

  method PresentBytes(line: string, start: nat) returns (data: seq<byte>)
    requires start <= |line|
    ensures data == TakeUpTo(MAX_CLASSIC_BYTES, line[start..])
  {
    data := [];
    var pos: nat := start;
    NothingBefore([], TakeUpTo(MAX_CLASSIC_BYTES, line[start..]));
    while |data| < MAX_CLASSIC_BYTES
      invariant pos <= |line| && |data| <= MAX_CLASSIC_BYTES
      invariant Same(TakeUpTo(MAX_CLASSIC_BYTES, line[start..]),
                     data + TakeUpTo(MAX_CLASSIC_BYTES - |data|, line[pos..]))
    {
      var tok, peekPos := NextTokenAt(line, pos);
      var b := ByteToken(tok);
      if b.None? {
        break;
      }
      ghost var tail := TakeUpTo(MAX_CLASSIC_BYTES - |data| - 1, line[peekPos..]);
      Regroup(data, [b.value], tail);
      data := data + [b.value];
      pos := peekPos;
    }
    NothingAfter(data, []);
  }

  method ParseScreenClassic(line: string, prefix: ParsedLine, marker: Marker, pos: nat) returns (out: ParsedLine)
    requires pos <= |line| && (marker.BracketDlc? || marker.BraceCode?)
    ensures out == ScreenClassic(prefix, marker, line[pos..])
  {
    out := prefix;
    var first, peekPos := NextTokenAt(line, pos);
    if first == "remote" {
      var request, _ := NextTokenAt(line, peekPos);
      if request == "request" {
        return out.(kind := Rtr);
      }
    }
    match marker {
      case BracketDlc(n) =>
        if n > MAX_CLASSIC_BYTES {
          return out.(kind := Malformed);
        }
        var data := CountedBytes(line, pos, n);
        if data.None? {
          return out.(kind := Malformed);
        }
        out := out.(kind := Data, data := data.value);
      case BraceCode =>
        var data := PresentBytes(line, pos);
        out := out.(kind := Data, data := data);
    }
  }

  method ParseScreenBody(line: string, prefix: ParsedLine, start: nat) returns (out: ParsedLine)
    requires start <= |line|
    ensures out == ScreenBody(prefix, line[start..])
  {
    out := prefix;
    var pos := start;
    var tok, peekPos := NextTokenAt(line, pos);
    if tok == "RX" || tok == "TX" {
      out := out.(directionKnown := true, isTx := tok == "TX");
      var flag;
      flag, pos := NextTokenAt(line, peekPos);
      flag, pos := NextTokenAt(line, pos);
    }
    var idHex;
    idHex, pos := NextTokenAt(line, pos);
    if idHex == "" {
      return out.(kind := Malformed);
    }
    var idClass := ClassifyId(idHex);
    if idClass.None? {
      return out.(kind := Malformed);
    }
    out := out.(canId := idClass.value.id, extended := idClass.value.extended);
    if idClass.value.isError {
      return out.(kind := ErrorFrame);
    }
    var markerTok;
    markerTok, pos := NextTokenAt(line, pos);
    var marker := ParseMarker(markerTok);
    match marker {
      case BadMarker => out := out.(kind := Malformed);
      case XlMarker =>
        var group, _ := NextTokenAt(line, pos);
        if |group| < 2 || group[0] != '(' || group[|group| - 1] != ')' {
          return out.(kind := Malformed);
        }
        out := out.(kind := Xl);
      case FdMarker => out := out.(kind := Fd);
      case _ => out := ParseScreenClassic(line, out, marker, pos);
    }
  }

  // ----- DROPCOUNT notices -----

  /** The text between the first two single quotes, or "". */
  function Quoted(s: string): string {
    match IndexOf(s, '\'')
    case None => ""
    case Some(open) =>
      match IndexOf(s[open + 1..], '\'')
      case None => ""
      case Some(k) => s[open + 1..open + 1 + k]
  }

  function DropCount(line: string): ParsedLine
    requires DROP_PREFIX <= line
  {
    var s := SkipSpaces(line[|DROP_PREFIX|..]);
    var out := FRESH_LINE.(kind := DropNotice);
    if "dropped " <= s then
      var t := s[8..];
      var n := DigitRun(t);
      out.(droppedCount := WrappedValue(t[..n]), iface := Quoted(t[n..]))
    else out.(iface := Quoted(s))
  }

  lemma WrappedDigit(value: nat, d: nat)
    ensures ((value % UINT64_RANGE) * 10 + d) % UINT64_RANGE == (value * 10 + d) % UINT64_RANGE
  {
    ModShift((value % UINT64_RANGE) * 10 + d, value / UINT64_RANGE * 10);
  }

  /** What the unsigned accumulator holds after a digit run. */
  function WrappedValue(digits: string): nat
    requires AllDigits(digits)
  {
    Value(digits) % UINT64_RANGE
  }

  lemma WrappedValueStep(s: string, start: nat, k: nat)
    requires start <= k < |s| && AllDigits(s[start..k]) && IsDigit(s[k])
    ensures AllDigits(s[start..k + 1])
    ensures WrappedValue(s[start..k + 1]) == (WrappedValue(s[start..k]) * 10 + DigitValue(s[k])) % UINT64_RANGE
  {
    RangeGrows(s, start, k);
    CutConcat(s[start..k], [s[k]]);
    WrappedDigit(Value(s[start..k]), DigitValue(s[k]));
  }

  /** The digits of s from `start` to `end` belong to its digit run, and the accumulator holds `count`. */
  ghost predicate CountedTo(s: string, start: nat, end: nat, count: nat) {
    && start <= end <= |s|
    && DigitRun(s[start..]) == (end - start) + DigitRun(s[end..])
    && AllDigits(s[start..end]) && count == WrappedValue(s[start..end])
  }

  lemma CountedStep(s: string, start: nat, end: nat, count: nat)
    requires CountedTo(s, start, end, count) && end < |s| && IsDigit(s[end])
    ensures CountedTo(s, start, end + 1, (count * 10 + DigitValue(s[end])) % UINT64_RANGE)
  {
    DigitRunAt(s, end);
    WrappedValueStep(s, start, end);
  }

  lemma CountedAll(s: string, start: nat, end: nat, count: nat)
    requires CountedTo(s, start, end, count) && (end < |s| ==> !IsDigit(s[end]))
    ensures var t := s[start..];
            count == WrappedValue(t[..DigitRun(t)]) && Same(t[DigitRun(t)..], s[end..])
  {
    DigitRunAt(s, end);
    SliceOfSuffix(s, start, 0, end - start);
    SuffixOfSuffix(s, start, end - start);
  }

  /** The unsigned digit loop of parseDropCount. */
  method WrappedDigitsAt(s: string, start: nat) returns (end: nat, count: nat)
    requires start <= |s|
    ensures CountedTo(s, start, end, count) && (end < |s| ==> !IsDigit(s[end]))
  {
    end, count := start, 0;
    while end < |s| && IsDigit(s[end])
      invariant CountedTo(s, start, end, count)
    {
      CountedStep(s, start, end, count);
      count := (count * 10 + DigitValue(s[end])) % UINT64_RANGE;
      end := end + 1;
    }
  }

  method QuotedAt(line: string, pos: nat) returns (name: string)
    requires pos <= |line|
    ensures name == Quoted(line[pos..])
  {
    name := "";
    var openQuote := IndexOf(line[pos..], '\'');
    if openQuote.Some? {
      var rest := line[pos..][openQuote.value + 1..];
      var closeQuote := IndexOf(rest, '\'');
      if closeQuote.Some? {
        name := rest[..closeQuote.value];
        assert name == line[pos..][openQuote.value + 1..openQuote.value + 1 + closeQuote.value];
      }
    }
  }

  method ParseDropCount(line: string) returns (out: ParsedLine)
    requires DROP_PREFIX <= line
    ensures out == DropCount(line)
  {
    out := FRESH_LINE.(kind := DropNotice);
    var pos := SkipSpacesAt(line, |DROP_PREFIX|);
    if "dropped " <= line[pos..] {
      SuffixOfSuffix(line, pos, 8);
      var end, count := WrappedDigitsAt(line, pos + 8);
      CountedAll(line, pos + 8, end, count);
      pos := end;
      out := out.(droppedCount := count);
    }
    var name := QuotedAt(line, pos);
    out := out.(iface := name);
  }

  // ----- whole lines -----

  function Tagged(out: ParsedLine, g: Grammar): ParsedLine {
    if out.kind != Malformed then out.(grammar := g) else out
  }

  function LogLine(line: string): ParsedLine {
    var p := CommonPrefix(line);
    if !p.ok then p.out else Tagged(LogBody(p.out, p.rest), LogGrammar)
  }

  function ScreenLine(line: string): ParsedLine {
    var p := CommonPrefix(line);
    if !p.ok then p.out else Tagged(ScreenBody(p.out, p.rest), ScreenGrammar)
  }

  predicate IsDetail(line: string) {
    line != "" && line[0] == '\t'
  }

  /** A line handled by the two grammars: neither a detail continuation nor a drop notice. */
  predicate IsFrameLine(line: string) {
    !IsDetail(line) && !(DROP_PREFIX <= line)
  }

  /** What the dispatch promises: the log reading unless malformed, else the screen reading unless malformed. */
  function Line(line: string): ParsedLine {
    if IsDetail(line) then FRESH_LINE.(kind := ErrorDetail)
    else if DROP_PREFIX <= line then DropCount(line)
    else if LogLine(line).kind != Malformed then LogLine(line)
    else if ScreenLine(line).kind != Malformed then ScreenLine(line)
    else LogLine(line)
  }

  method ParseLogLine(line: string) returns (out: ParsedLine)
    ensures out == LogLine(line)
  {
    var ok, pos;
    ok, out, pos := ParseCommonPrefix(line);
    if !ok {
      return;
    }
    out := ParseLogBody(line, out, pos);
    if out.kind != Malformed {
      out := out.(grammar := LogGrammar);
    }
  }

  method ParseScreenLine(line: string) returns (out: ParsedLine)
    ensures out == ScreenLine(line)
  {
    var ok, pos;
    ok, out, pos := ParseCommonPrefix(line);
    if !ok {
      return;
    }
    out := ParseScreenBody(line, out, pos);
    if out.kind != Malformed {
      out := out.(grammar := ScreenGrammar);
    }
  }

  /** The fast dispatch: the prefix is parsed once and its four fields are carried over to the second attempt. */
  method ParseLine(line: string) returns (out: ParsedLine)
    ensures out == Line(line)
  {
    if line != "" && line[0] == '\t' {
      return FRESH_LINE.(kind := ErrorDetail);
    }
    if DROP_PREFIX <= line {
      out := ParseDropCount(line);
      return;
    }
    var ok, pos;
    ok, out, pos := ParseCommonPrefix(line);
    if !ok {
      return;
    }
    out := ParseLogBody(line, out, pos);
    if out.kind != Malformed {
      return out.(grammar := LogGrammar);
    }
    var screenOut := FRESH_LINE.(
      hasTimestamp := out.hasTimestamp, tsSeconds := out.tsSeconds, tsFractionNs := out.tsFractionNs,
      iface := out.iface);
    screenOut := ParseScreenBody(line, screenOut, pos);
    if screenOut.kind != Malformed {
      return screenOut.(grammar := ScreenGrammar);
    }
  }

  // ----- unambiguity -----

  /** A log body's first word holds a '#', which no word of the screen grammar at that place may. */
  lemma BodiesExclusive(out: ParsedLine, s: string)
    ensures LogBody(out, s).kind == Malformed || ScreenBody(out, s).kind == Malformed
  {
    var (tok, rest) := NextToken(s);
    var hash := IndexOf(tok, '#');
    if hash.Some? {
      assert tok[hash.value] == '#';
      assert tok != "RX" && tok != "TX" by {
        assert '#' !in "RX" && '#' !in "TX";
      }
      assert !AllHex(tok);
    }
  }

  /** No line is accepted by both grammars (a wall-clock line reaches neither body). */
  lemma NeverBoth(line: string)
    ensures CommonPrefix(line).ok ==> LogLine(line).kind == Malformed || ScreenLine(line).kind == Malformed
    ensures !CommonPrefix(line).ok ==> LogLine(line) == ScreenLine(line)
  {
    var p := CommonPrefix(line);
    BodiesExclusive(p.out, p.rest);
  }

  /** Hence trying the screen grammar first would accept the same frame lines with the same results. */
  lemma TrialOrderIrrelevant(line: string)
    requires IsFrameLine(line) && Line(line).kind != Malformed
    ensures Line(line) == if ScreenLine(line).kind != Malformed then ScreenLine(line) else LogLine(line)
  {
    NeverBoth(line);
  }

  /** What the dispatch answers, given the prefix and the two bodies. */
  lemma LineFromBodies(line: string, out: ParsedLine, rest: string)
    requires IsFrameLine(line) && CommonPrefix(line) == Prefixed(true, out, rest)
    ensures Line(line)
            == if LogBody(out, rest).kind != Malformed then LogBody(out, rest).(grammar := LogGrammar)
               else if ScreenBody(out, rest).kind != Malformed then ScreenBody(out, rest).(grammar := ScreenGrammar)
               else LogBody(out, rest)
  {
  }

  /** A frame kind comes from a body parser, so the prefix was accepted and its fields are kept. */
  lemma AcceptedPrefix(line: string)
    requires IsFrameKind(Line(line).kind)
    ensures IsFrameLine(line) && CommonPrefix(line).ok
    ensures var out := CommonPrefix(line).out;
            && Line(line).hasTimestamp == out.hasTimestamp && Line(line).tsSeconds == out.tsSeconds
            && Line(line).tsFractionNs == out.tsFractionNs && Line(line).iface == out.iface
    ensures Line(line).grammar == LogGrammar || Line(line).grammar == ScreenGrammar
  {
    var p := CommonPrefix(line);
    if p.ok && IsFrameLine(line) {
      LineFromBodies(line, p.out, p.rest);
    }
  }

  /** An accepted frame line has a numeric timestamp and an interface, and says which grammar accepted it. */
  lemma AcceptedFrame(line: string)
    requires IsFrameKind(Line(line).kind)
    ensures Line(line).iface != "" && Line(line).hasTimestamp
    ensures Line(line).grammar == LogGrammar || Line(line).grammar == ScreenGrammar
  {
    AcceptedPrefix(line);
  }
}
