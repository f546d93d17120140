/** What a PCD header means: any table printed as header lines is read back, with the cloud's shape and fields. */
module PcdHeader {
  import opened Slices
  import opened Wrappers
  import opened Decimal
  import opened RawBytes
  import opened Blocks
  import opened PointLayout
  import opened PointCloud
  import opened PcdReader
  import opened TextLines

  // ----- printing -----

  /** The TYPE letter and the SIZE of a field, as a writer puts them. */
  function TypeWord(d: Datatype): string {
    match d
    case Int8 => "I"
    case Int16 => "I"
    case Int32 => "I"
    case Uint8 => "U"
    case Uint16 => "U"
    case Uint32 => "U"
    case Float32 => "F"
    case Float64 => "F"
    case Unknown => "?"
  }

  function SizeOf(d: Datatype): uint32 {
    match d
    case Int8 => 1
    case Uint8 => 1
    case Int16 => 2
    case Uint16 => 2
    case Int32 => 4
    case Uint32 => 4
    case Float32 => 4
    case Float64 => 8
    case Unknown => 0
  }

  function LineOf(words: seq<string>): string {
    if words == [] then "" else if |words| == 1 then words[0] else words[0] + (" " + LineOf(words[1..]))
  }

  /** A line with its ending, "\n" or "\r\n". */
  function LineBytes(words: seq<string>, crlf: bool): seq<byte> {
    Bytes(if crlf then LineOf(words) + "\r" else LineOf(words)) + [NEWLINE]
  }

  function LinesBytes(lines: seq<seq<string>>, crlf: bool): seq<byte> {
    if lines == [] then [] else LineBytes(lines[0], crlf) + LinesBytes(lines[1..], crlf)
  }

  function NameWords(fields: seq<ParsedField>): (r: seq<string>)
    ensures |r| == |fields|
  {
    seq(|fields|, i requires 0 <= i < |fields| => fields[i].name)
  }

  function SizeWords(fields: seq<ParsedField>): (r: seq<string>)
    ensures |r| == |fields|
  {
    seq(|fields|, i requires 0 <= i < |fields| => ToString(SizeOf(fields[i].kind)))
  }

  function TypeWords(fields: seq<ParsedField>): (r: seq<string>)
    ensures |r| == |fields|
  {
    seq(|fields|, i requires 0 <= i < |fields| => TypeWord(fields[i].kind))
  }

  function CountWords(fields: seq<ParsedField>): (r: seq<string>)
    ensures |r| == |fields|
  {
    seq(|fields|, i requires 0 <= i < |fields| => ToString(fields[i].count))
  }

  /** The header lines in their usual order; COUNT may be left out. */
  function HeaderLines(fields: seq<ParsedField>, counts: bool, width: uint32, height: uint32): seq<seq<string>> {
    [["VERSION", "0.7"], ["FIELDS"] + NameWords(fields), ["SIZE"] + SizeWords(fields), ["TYPE"] + TypeWords(fields)]
    + (if counts then [["COUNT"] + CountWords(fields)] else [])
    + [["WIDTH", ToString(width)], ["HEIGHT", ToString(height)], ["VIEWPOINT", "0", "0", "0", "1", "0", "0", "0"],
       ["POINTS", ToString(width * height)]]
  }

  /** A word of a header line: printable as bytes, without white space. */
  ghost predicate IsHeaderWord(w: string) {
    IsWord(w) && forall i :: 0 <= i < |w| ==> w[i] < 256 as char
  }

  ghost predicate AreWords(words: seq<string>) {
    words != [] && forall i :: 0 <= i < |words| ==> IsHeaderWord(words[i])
  }

  /** Fields a header can declare: names are words, types are known, and a count other than 1 needs a COUNT line. */
  ghost predicate Declarable(fields: seq<ParsedField>, counts: bool) {
    && fields != []
    && forall i :: 0 <= i < |fields| ==>
         IsHeaderWord(fields[i].name) && fields[i].kind != Unknown && (counts || fields[i].count == 1)
  }

  // ----- reading a line back -----

  lemma LineIsText(words: seq<string>)
    requires AreWords(words)
    ensures LineOf(words) != "" && LineOf(words)[0] == words[0][0]
    ensures forall i :: 0 <= i < |LineOf(words)| ==> LineOf(words)[i] < 256 as char && LineOf(words)[i] != '\n'
    ensures LineOf(words)[|LineOf(words)| - 1] != '\r'
  {
    assert IsHeaderWord(words[0]);
    if |words| > 1 {
      assert AreWords(words[1..]);
      LineIsText(words[1..]);
    }
  }

  lemma SkipOneBlank(s: string)
    requires s != "" && !IsSpace(s[0])
    ensures Tokenize(" " + s) == Tokenize(s)
  {
    assert (" " + s)[1..] == s;
    assert SkipBlanks(" " + s) == SkipBlanks(s) == s;
  }

  lemma LineTokens(words: seq<string>)
    requires AreWords(words)
    ensures Same(Tokenize(LineOf(words)), words)
  {
    assert IsHeaderWord(words[0]);
    if |words| == 1 {
      NothingAfter(words[0], "");
      TokenizeWord(words[0], "");
      assert Tokenize("") == [];
      SameIf([words[0]] + [], words);
    } else {
      assert AreWords(words[1..]);
      assert IsHeaderWord(words[1]);
      LineTokens(words[1..]);
      LineIsText(words[1..]);
      SkipOneBlank(LineOf(words[1..]));
      TokenizeWord(words[0], " " + LineOf(words[1..]));
      SameIf([words[0]] + words[1..], words);
    }
  }

  lemma ReturnDropped(line: string, crlf: bool)
    requires line != "" && line[|line| - 1] != '\r'
    ensures Same(WithoutReturn(if crlf then line + "\r" else line), line)
  {
    CutConcat(line, "\r");
  }

  lemma LineRead(words: seq<string>, crlf: bool, rest: seq<byte>)
    requires AreWords(words)
    ensures Same(LineText(LineBytes(words, crlf) + rest), LineOf(words))
    ensures Same(AfterLine(LineBytes(words, crlf) + rest), rest)
  {
    var line := LineOf(words);
    LineIsText(words);
    ReturnDropped(line, crlf);
    var text := if crlf then line + "\r" else line;
    NoNewline(text);
    LineLengthExact(Bytes(text), rest);
    Regroup(Bytes(text), [NEWLINE], rest);
    CutConcat(Bytes(text), [NEWLINE] + rest);
  }

  /** What a line of words does to the header, keyword by keyword. */
  function Declared(h: Header, words: seq<string>): Header {
    if words == [] then h
    else if words[0] == "FIELDS" then h.(names := words[1..])
    else if words[0] == "SIZE" then h.(sizes := words[1..])
    else if words[0] == "TYPE" then h.(types := words[1..])
    else if words[0] == "COUNT" then h.(counts := words[1..])
    else if words[0] == "WIDTH" && |words| >= 2 then h.(width := ParseU32(words[1]))
    else if words[0] == "HEIGHT" && |words| >= 2 then h.(height := ParseU32(words[1]))
    else h
  }

  /** The words of a header line that is neither a comment nor refused nor the DATA line. */
  ghost predicate IsHeaderLine(words: seq<string>) {
    && AreWords(words) && words[0][0] != '#' && words[0] != "DATA"
    && ((words[0] == "WIDTH" || words[0] == "HEIGHT") && |words| >= 2 ==> ParseU32(words[1]).Some?)
  }

  lemma LineContinues(h: Header, words: seq<string>)
    requires IsHeaderLine(words)
    ensures ReadLine(h, LineOf(words)) == Continue(Declared(h, words))
  {
    LineIsText(words);
    LineTokens(words);
  }

  function DeclaredAll(h: Header, lines: seq<seq<string>>): Header
    decreases |lines|
  {
    if lines == [] then h else DeclaredAll(Declared(h, lines[0]), lines[1..])
  }

  ghost predicate AreHeaderLines(lines: seq<seq<string>>) {
    forall i :: 0 <= i < |lines| ==> IsHeaderLine(lines[i])
  }

  lemma OneLineScanned(h: Header, words: seq<string>, crlf: bool, rest: seq<byte>)
    requires IsHeaderLine(words)
    ensures ScanHeader(h, LineBytes(words, crlf) + rest) == ScanHeader(Declared(h, words), rest)
  {
    LineRead(words, crlf, rest);
    LineContinues(h, words);
    ScanStep(h, LineBytes(words, crlf) + rest);
  }

  /** Any header lines, in any order and repeated: they are scanned to the header they declare one after the other. */
  lemma {:induction false} LinesScanned(h: Header, lines: seq<seq<string>>, crlf: bool)
    requires AreHeaderLines(lines)
    decreases |lines|
    ensures ScanHeader(h, LinesBytes(lines, crlf)) == Ok(NoData(DeclaredAll(h, lines)))
  {
    if lines != [] {
      OneLineScanned(h, lines[0], crlf, LinesBytes(lines[1..], crlf));
      LinesScanned(Declared(h, lines[0]), lines[1..], crlf);
    }
  }

  lemma {:induction false} LinesAreWhole(lines: seq<seq<string>>, crlf: bool)
    decreases |lines|
    ensures WholeLines(LinesBytes(lines, crlf))
  {
    if lines != [] {
      LinesAreWhole(lines[1..], crlf);
      WholeConcat(LineBytes(lines[0], crlf), LinesBytes(lines[1..], crlf));
    }
  }

  lemma WholeConcat(a: seq<byte>, b: seq<byte>)
    requires WholeLines(a) && WholeLines(b)
    ensures WholeLines(a + b)
  {
  }

  // ----- the lines of a table -----

  lemma NumberWord(n: nat)
    ensures IsHeaderWord(ToString(n)) && (n <= UINT32_MAX ==> ParseU32(ToString(n)) == Some(n))
  {
    ValueOfToString(n);
  }

  lemma KeywordLine(keyword: string, words: seq<string>)
    requires IsHeaderWord(keyword) && forall i :: 0 <= i < |words| ==> IsHeaderWord(words[i])
    requires keyword[0] != '#' && keyword != "DATA" && keyword != "WIDTH" && keyword != "HEIGHT"
    ensures IsHeaderLine([keyword] + words)
  {
    var line := [keyword] + words;
    assert line[0] == keyword;
    assert forall i :: 0 < i < |line| ==> line[i] == words[i - 1];
  }

  lemma DimensionLine(keyword: string, n: uint32)
    requires keyword == "WIDTH" || keyword == "HEIGHT"
    ensures IsHeaderLine([keyword, ToString(n)])
  {
    NumberWord(n);
  }

  /** The header such lines declare. */
  function HeaderOf(fields: seq<ParsedField>, counts: bool, width: uint32, height: uint32): Header {
    Header(NameWords(fields), SizeWords(fields), TypeWords(fields), if counts then CountWords(fields) else [],
           Some(width), Some(height))
  }

  lemma FieldWords(fields: seq<ParsedField>, counts: bool, i: nat)
    requires Declarable(fields, counts) && i < |fields|
    ensures IsHeaderWord(NameWords(fields)[i]) && IsHeaderWord(SizeWords(fields)[i])
    ensures IsHeaderWord(TypeWords(fields)[i]) && IsHeaderWord(CountWords(fields)[i])
  {
    NumberWord(SizeOf(fields[i].kind));
    NumberWord(fields[i].count);
  }

  lemma TableLines(fields: seq<ParsedField>, counts: bool)
    requires Declarable(fields, counts)
    ensures IsHeaderLine(["FIELDS"] + NameWords(fields)) && IsHeaderLine(["SIZE"] + SizeWords(fields))
    ensures IsHeaderLine(["TYPE"] + TypeWords(fields)) && IsHeaderLine(["COUNT"] + CountWords(fields))
  {
    forall i | 0 <= i < |fields|
      ensures IsHeaderWord(NameWords(fields)[i]) && IsHeaderWord(SizeWords(fields)[i])
      ensures IsHeaderWord(TypeWords(fields)[i]) && IsHeaderWord(CountWords(fields)[i])
    {
      FieldWords(fields, counts, i);
    }
    KeywordLine("FIELDS", NameWords(fields));
    KeywordLine("SIZE", SizeWords(fields));
    KeywordLine("TYPE", TypeWords(fields));
    KeywordLine("COUNT", CountWords(fields));
  }

  lemma DeclaredFields(h: Header, fields: seq<ParsedField>)
    ensures Declared(h, ["FIELDS"] + NameWords(fields)) == h.(names := NameWords(fields))
    ensures Declared(h, ["SIZE"] + SizeWords(fields)) == h.(sizes := SizeWords(fields))
    ensures Declared(h, ["TYPE"] + TypeWords(fields)) == h.(types := TypeWords(fields))
    ensures Declared(h, ["COUNT"] + CountWords(fields)) == h.(counts := CountWords(fields))
  {
    CutConcat(["FIELDS"], NameWords(fields));
    CutConcat(["SIZE"], SizeWords(fields));
    CutConcat(["TYPE"], TypeWords(fields));
    CutConcat(["COUNT"], CountWords(fields));
  }

  lemma {:induction false} DeclaredConcat(h: Header, a: seq<seq<string>>, b: seq<seq<string>>)
    decreases |a|
    ensures DeclaredAll(h, a + b) == DeclaredAll(DeclaredAll(h, a), b)
  {
    if a == [] {
      NothingBefore(a, b);
    } else {
      SuffixOfConcat(a, b, 1);
      DeclaredConcat(Declared(h, a[0]), a[1..], b);
    }
  }

  lemma FirstLine(h: Header, line: seq<string>, lines: seq<seq<string>>)
    ensures DeclaredAll(h, [line] + lines) == DeclaredAll(Declared(h, line), lines)
  {
    CutConcat([line], lines);
  }

  lemma FourLines(h: Header, a: seq<string>, b: seq<string>, c: seq<string>, d: seq<string>)
    ensures DeclaredAll(h, [a, b, c, d]) == Declared(Declared(Declared(Declared(h, a), b), c), d)
  {
    assert [a] + [b, c, d] == [a, b, c, d] && [b] + [c, d] == [b, c, d] && [c] + [d] == [c, d] && [d] + [] == [d];
    FirstLine(h, a, [b, c, d]);
    FirstLine(Declared(h, a), b, [c, d]);
    FirstLine(Declared(Declared(h, a), b), c, [d]);
    FirstLine(Declared(Declared(Declared(h, a), b), c), d, []);
  }

  lemma OptionalLine(h: Header, line: seq<string>, present: bool)
    ensures DeclaredAll(h, if present then [line] else []) == if present then Declared(h, line) else h
  {
    FirstLine(h, line, []);
    NothingAfter([line], []);
  }

  /** The lines of a table declare its header. */
  lemma TableDeclared(fields: seq<ParsedField>, counts: bool, width: uint32, height: uint32)
    ensures DeclaredAll(EMPTY_HEADER, HeaderLines(fields, counts, width, height))
            == HeaderOf(fields, counts, width, height)
  {
    var first := [["VERSION", "0.7"], ["FIELDS"] + NameWords(fields), ["SIZE"] + SizeWords(fields),
                  ["TYPE"] + TypeWords(fields)];
    var middle := if counts then [["COUNT"] + CountWords(fields)] else [];
    var last := [["WIDTH", ToString(width)], ["HEIGHT", ToString(height)],
                 ["VIEWPOINT", "0", "0", "0", "1", "0", "0", "0"], ["POINTS", ToString(width * height)]];
    DeclaredConcat(EMPTY_HEADER, first + middle, last);
    DeclaredConcat(EMPTY_HEADER, first, middle);
    FourLines(EMPTY_HEADER, first[0], first[1], first[2], first[3]);
    var h1 := DeclaredAll(EMPTY_HEADER, first);
    FirstDeclared(fields);
    OptionalLine(h1, ["COUNT"] + CountWords(fields), counts);
    DeclaredFields(h1, fields);
    var h2 := DeclaredAll(h1, middle);
    FourLines(h2, last[0], last[1], last[2], last[3]);
    DimensionsDeclared(h2, width, height);
  }

  lemma FirstDeclared(fields: seq<ParsedField>)
    ensures Declared(Declared(Declared(Declared(EMPTY_HEADER, ["VERSION", "0.7"]), ["FIELDS"] + NameWords(fields)),
                              ["SIZE"] + SizeWords(fields)), ["TYPE"] + TypeWords(fields))
            == Header(NameWords(fields), SizeWords(fields), TypeWords(fields), [], None, None)
  {
    var h0 := EMPTY_HEADER;
    assert Declared(h0, ["VERSION", "0.7"]) == h0;
    DeclaredFields(h0, fields);
    var h1 := h0.(names := NameWords(fields));
    DeclaredFields(h1, fields);
    DeclaredFields(h1.(sizes := SizeWords(fields)), fields);
  }

  lemma DimensionsDeclared(h: Header, width: uint32, height: uint32)
    ensures Declared(Declared(Declared(Declared(h, ["WIDTH", ToString(width)]), ["HEIGHT", ToString(height)]),
                              ["VIEWPOINT", "0", "0", "0", "1", "0", "0", "0"]), ["POINTS", ToString(width * height)])
            == h.(width := Some(width), height := Some(height))
  {
    NumberWord(width);
    NumberWord(height);
  }

  lemma FixedLines()
    ensures IsHeaderLine(["VERSION", "0.7"]) && IsHeaderLine(["VIEWPOINT", "0", "0", "0", "1", "0", "0", "0"])
  {
  }

  lemma PointsLine(n: nat)
    ensures IsHeaderLine(["POINTS", ToString(n)])
  {
    NumberWord(n);
  }

  lemma HeaderLinesConcat(a: seq<seq<string>>, b: seq<seq<string>>)
    requires AreHeaderLines(a) && AreHeaderLines(b)
    ensures AreHeaderLines(a + b)
  {
  }

  lemma TableIsHeader(fields: seq<ParsedField>, counts: bool, width: uint32, height: uint32)
    requires Declarable(fields, counts)
    ensures AreHeaderLines(HeaderLines(fields, counts, width, height))
  {
    FixedLines();
    TableLines(fields, counts);
    DimensionLine("WIDTH", width);
    DimensionLine("HEIGHT", height);
    PointsLine(width * height);
    var first := [["VERSION", "0.7"], ["FIELDS"] + NameWords(fields), ["SIZE"] + SizeWords(fields),
                  ["TYPE"] + TypeWords(fields)];
    var middle := if counts then [["COUNT"] + CountWords(fields)] else [];
    HeaderLinesConcat(first, middle);
    HeaderLinesConcat(first + middle, [["WIDTH", ToString(width)], ["HEIGHT", ToString(height)],
                                       ["VIEWPOINT", "0", "0", "0", "1", "0", "0", "0"],
                                       ["POINTS", ToString(width * height)]]);
  }

  // ----- the table the header means -----

  /** A pair of TYPE letter and SIZE names a type exactly when it is the pair a writer puts for it. */
  lemma KindExactly(letter: char, size: uint32, d: Datatype)
    requires d != Unknown
    ensures ToDatatype(letter, size) == d <==> [letter] == TypeWord(d) && size == SizeOf(d)
  {
    assert forall w: string :: |w| == 1 && w == [letter] ==> w[0] == letter;
  }

  lemma FieldRead(f: ParsedField, counts: bool)
    requires f.kind != Unknown && (counts || f.count == 1)
    ensures ReadField(f.name, TypeWord(f.kind), ToString(SizeOf(f.kind)),
                      if counts then Some(ToString(f.count)) else None)
            == Ok(f)
  {
    NumberWord(SizeOf(f.kind));
    NumberWord(f.count);
    KindExactly(TypeWord(f.kind)[0], SizeOf(f.kind), f.kind);
  }

  lemma HeaderFieldRead(fields: seq<ParsedField>, counts: bool, width: uint32, height: uint32, k: nat)
    requires Declarable(fields, counts) && k < |fields|
    ensures FieldAt(HeaderOf(fields, counts, width, height), k) == Ok(fields[k])
  {
    FieldRead(fields[k], counts);
  }

  function FieldAt(h: Header, k: nat): Result<ParsedField, PcdError>
    requires SameArity(h) && k < |h.names|
  {
    ReadField(h.names[k], h.types[k], h.sizes[k], if h.counts == [] then None else Some(h.counts[k]))
  }

  lemma OneFieldMore(h: Header, fields: seq<ParsedField>, k: nat)
    requires SameArity(h) && k < |h.names| == |fields|
    requires ReadFields(h, k) == Ok(fields[..k]) && FieldAt(h, k) == Ok(fields[k])
    ensures ReadFields(h, k + 1) == Ok(fields[..k + 1])
  {
    OneMore(fields, k);
  }

  lemma {:induction false} FieldsRead(fields: seq<ParsedField>, counts: bool, width: uint32, height: uint32, k: nat)
    requires Declarable(fields, counts) && k <= |fields|
    ensures ReadFields(HeaderOf(fields, counts, width, height), k) == Ok(fields[..k])
  {
    if k > 0 {
      FieldsRead(fields, counts, width, height, k - 1);
      HeaderFieldRead(fields, counts, width, height, k - 1);
      OneFieldMore(HeaderOf(fields, counts, width, height), fields, k - 1);
    }
  }

  lemma TableRead(fields: seq<ParsedField>, counts: bool, width: uint32, height: uint32, mode: string)
    requires Declarable(fields, counts) && mode in {"ascii", "binary", "binary_compressed"}
    ensures ReadTable(HeaderOf(fields, counts, width, height), mode) == Ok(Table(fields, width, height))
  {
    FieldsRead(fields, counts, width, height, |fields|);
    Whole(fields);
  }

  // ----- which tables are accepted -----

  /** Column i of the header declares this field; without counts its count is 1. */
  ghost predicate Declares(h: Header, i: nat, f: ParsedField)
    requires SameArity(h) && i < |h.names|
  {
    && f.kind != Unknown && f.name == h.names[i] && TypeWord(f.kind) == h.types[i]
    && ParseU32(h.sizes[i]) == Some(SizeOf(f.kind))
    && (if |h.counts| == 0 then f.count == 1 else ParseU32(h.counts[i]) == Some(f.count))
  }

  lemma FieldExactly(h: Header, i: nat, f: ParsedField)
    requires SameArity(h) && i < |h.names|
    ensures FieldAt(h, i) == Ok(f) <==> Declares(h, i, f)
  {
    if f.kind != Unknown && |h.types[i]| == 1 && ParseU32(h.sizes[i]).Some? {
      KindExactly(h.types[i][0], ParseU32(h.sizes[i]).value, f.kind);
    }
  }

  lemma {:induction false} FieldsExactly(h: Header, k: nat, fields: seq<ParsedField>)
    requires SameArity(h) && k <= |h.names|
    ensures ReadFields(h, k) == Ok(fields)
            <==> |fields| == k && forall i :: 0 <= i < k ==> Declares(h, i, fields[i])
  {
    if k > 0 && |fields| > 0 {
      var front := fields[..|fields| - 1];
      FieldsExactly(h, k - 1, front);
      FieldExactly(h, k - 1, fields[|fields| - 1]);
      LastOff(fields);
    }
  }

  /** A header gives this table exactly when it has the table's dimensions, a known mode, as many sizes and types (and
      counts, if any) as names, and each of its columns declares the table's field. */
  lemma TableExactly(h: Header, mode: string, t: Table)
    ensures ReadTable(h, mode) == Ok(t) <==>
            && |h.names| > 0 && SameArity(h) && mode in {"ascii", "binary", "binary_compressed"}
            && h.width == Some(t.width) && h.height == Some(t.height) && |t.fields| == |h.names|
            && forall i :: 0 <= i < |h.names| ==> Declares(h, i, t.fields[i])
  {
    if SameArity(h) {
      FieldsExactly(h, |h.names|, t.fields);
    }
  }

  /** Comments and lines of blanks change nothing. */
  lemma CommentsIgnored(h: Header, line: string)
    requires (line != "" && line[0] == '#') || forall i :: 0 <= i < |line| ==> line[i] in " \t\r"
    ensures ReadLine(h, line) == Continue(h)
  {
    if line != "" && line[0] != '#' {
      AllSkipped(line);
    }
  }

  lemma {:induction false} AllSkipped(line: string)
    requires forall i :: 0 <= i < |line| ==> line[i] in " \t\r"
    ensures SkipBlanks(line) == ""
  {
    if line != "" {
      AllSkipped(line[1..]);
    }
  }

  /** A WIDTH or HEIGHT that is no 32-bit number refuses the file. */
  lemma DimensionRefused(h: Header, words: seq<string>)
    requires AreWords(words) && |words| >= 2 && IsDimension(words[0]) && ParseU32(words[1]).None?
    ensures ReadLine(h, LineOf(words)) == Refused(if words[0] == "WIDTH" then WidthNotNumber else HeightNotNumber)
  {
    LineIsText(words);
    LineTokens(words);
    TokensRefused(h, words);
  }

  predicate IsDimension(word: string) {
    word == "WIDTH" || word == "HEIGHT"
  }

  lemma TokensRefused(h: Header, tok: seq<string>)
    requires |tok| >= 2 && IsDimension(tok[0]) && ParseU32(tok[1]).None?
    ensures ReadTokens(h, tok) == Refused(if tok[0] == "WIDTH" then WidthNotNumber else HeightNotNumber)
  {
  }

  // ----- whole files -----

  /** A cloud of this shape: the fields one after the other, each at the sum of the sizes before it. */
  ghost predicate IsCloudOf(cloud: PointCloud, fields: seq<ParsedField>, width: uint32, height: uint32) {
    && cloud.width == width && cloud.height == height && cloud.isDense
    && cloud.rowStep == (cloud.pointStep * width) % 0x1_0000_0000
    && cloud.pointStep == Stride(fields) && |cloud.fields| == |fields|
    && forall k {:trigger cloud.fields[k]} :: 0 <= k < |fields| ==>
         cloud.fields[k] == PointField(fields[k].name, Offset(fields, k), fields[k].kind, fields[k].count)
  }

  lemma BuiltCloud(fields: seq<ParsedField>, width: uint32, height: uint32, body: seq<byte>)
    requires Build(fields, width, height, true, BinaryLittleEndian, body).Ok?
    ensures var cloud := Build(fields, width, height, true, BinaryLittleEndian, body).value;
            IsCloudOf(cloud, fields, width, height) && cloud.data == body
  {
    LayoutIsLayout(fields);
  }

  /** Printing a table as header lines and reading the file: with a packed body of at most 2 GiB, the cloud has exactly
      the width, the height, the fields and the bytes written; any other body is refused. */
  lemma HeaderRoundTrip(
      lzf: Decompressor, ascii: AsciiReader, fields: seq<ParsedField>, counts: bool, width: uint32, height: uint32,
      crlf: bool, body: seq<byte>)
    requires Declarable(fields, counts)
    ensures var head := LinesBytes(HeaderLines(fields, counts, width, height), crlf);
            var r := PcdCloud(lzf, ascii, FileOf(head, "binary", body));
            && (r.Ok? <==> Stride(fields) <= 0xFFFF_FFFF && !(Stride(fields) == 0 && width * height > 0)
                           && |body| == Stride(fields) * (width * height) <= 0x8000_0000)
            && (r.Ok? ==> IsCloudOf(r.value, fields, width, height) && r.value.data == body)
  {
    var lines, h := HeaderLines(fields, counts, width, height), HeaderOf(fields, counts, width, height);
    TableIsHeader(fields, counts, width, height);
    LinesScanned(EMPTY_HEADER, lines, crlf);
    LinesAreWhole(lines, crlf);
    TableDeclared(fields, counts, width, height);
    Modes();
    FileReads(lzf, ascii, LinesBytes(lines, crlf), "binary", body, h);
    TableRead(fields, counts, width, height, "binary");
    BuildAcceptsExactly(fields, width, height, true, BinaryLittleEndian, body);
    if Build(fields, width, height, true, BinaryLittleEndian, body).Ok? {
      BuiltCloud(fields, width, height, body);
    }
  }
}
