/** Reading a PCD file: the header lines, the field table and the binary bodies. */
module PcdReader {
  import opened Slices
  import opened Wrappers
  import opened Decimal
  import opened RawBytes
  import opened LittleEndian
  import opened Blocks
  import opened PointLayout
  import opened PointCloud
  import opened PcdTranspose
  import opened TextLines

  datatype PcdError =
    | WidthNotNumber
    | HeightNotNumber
    | FieldTableMismatch
    | DimensionsMissing
    | UnknownMode(mode: string)
    | CountMismatch
    | SizeNotNumber(name: string)
    | CountNotNumber(name: string)
    | TypeNotOneLetter(name: string)
    | UnsupportedType(name: string)
    | Cloud(error: CloudError)

  datatype Header = Header(
    names: seq<string>, sizes: seq<string>, types: seq<string>, counts: seq<string>,
    width: Option<uint32>, height: Option<uint32>)

  const EMPTY_HEADER := Header([], [], [], [], None, None)

  /** What a file byte means as a character of a header line. */
  function Text(s: seq<byte>): (r: string)
    ensures |r| == |s|
    ensures forall i :: 0 <= i < |s| ==> r[i] == s[i] as char
  {
    seq(|s|, i requires 0 <= i < |s| => s[i] as char)
  }

  // ----- tokens -----

  predicate IsSpace(c: char) {
    c == ' ' || 9 as char <= c <= 13 as char
  }

  function SkipBlanks(s: string): (r: string)
    ensures |r| <= |s| && (r == [] || !IsSpace(r[0]))
  {
    if s != [] && IsSpace(s[0]) then SkipBlanks(s[1..]) else s
  }

  function WordLength(s: string): (n: nat)
    ensures n <= |s| && (s != [] && !IsSpace(s[0]) ==> n > 0)
  {
    if s == [] || IsSpace(s[0]) then 0 else 1 + WordLength(s[1..])
  }

  /** Whitespace-separated words, as repeated stream extraction yields them. */
  function Tokenize(s: string): seq<string>
    decreases |s|
  {
    var t := SkipBlanks(s);
    if t == [] then [] else [t[..WordLength(t)]] + Tokenize(t[WordLength(t)..])
  }

  ghost predicate IsWord(s: string) {
    s != [] && forall i :: 0 <= i < |s| ==> !IsSpace(s[i])
  }

  lemma {:induction false} WordLengthOfWord(w: string, rest: string)
    requires (forall i :: 0 <= i < |w| ==> !IsSpace(w[i])) && (rest == [] || IsSpace(rest[0]))
    ensures WordLength(w + rest) == |w|
  {
    if w == [] {
      assert w + rest == rest;
    } else {
      assert (w + rest)[1..] == w[1..] + rest;
      WordLengthOfWord(w[1..], rest);
    }
  }

  lemma TokenizeWord(w: string, rest: string)
    requires IsWord(w) && (rest == [] || IsSpace(rest[0]))
    ensures Tokenize(w + rest) == [w] + Tokenize(rest)
  {
    WordLengthOfWord(w, rest);
    assert (w + rest)[..|w|] == w && (w + rest)[|w|..] == rest;
  }

  lemma TokenizeTwo(a: string, b: string)
    requires IsWord(a) && IsWord(b)
    ensures Tokenize(a + " " + b) == [a, b]
  {
    assert a + " " + b == a + (" " + b);
    TokenizeWord(a, " " + b);
    assert SkipBlanks(" " + b) == SkipBlanks(b) == b by {
      assert (" " + b)[1..] == b;
    }
    TokenizeWord(b, "");
    assert b + "" == b;
    assert Tokenize("") == [];
  }

  /** std::from_chars over a whole token: digits only, in range. */
  function ParseU32(tok: string): Option<uint32> {
    if tok != [] && AllDigits(tok) && Value(tok) <= UINT32_MAX then Some(Value(tok)) else None
  }

  // ----- header lines -----

  const NEWLINE: byte := 10

  function LineLength(file: seq<byte>): (n: nat)
    ensures n <= |file|
    ensures NEWLINE !in file[..n] && (n < |file| ==> file[n] == NEWLINE)
  {
    if file == [] || file[0] == NEWLINE then 0 else 1 + LineLength(file[1..])
  }

  function AfterLine(file: seq<byte>): (rest: seq<byte>)
    ensures file != [] ==> |rest| < |file|
  {
    if LineLength(file) < |file| then file[LineLength(file) + 1..] else []
  }

  function LineText(file: seq<byte>): string {
    WithoutReturn(Text(file[..LineLength(file)]))
  }

  datatype LineResult = Continue(header: Header) | DataLine(mode: string) | Refused(error: PcdError)

  function ReadLine(h: Header, line: string): LineResult {
    if line == [] || line[0] == '#' then Continue(h) else ReadTokens(h, Tokenize(line))
  }

  function ReadTokens(h: Header, tok: seq<string>): LineResult {
    if tok == [] then Continue(h)
    else if tok[0] == "FIELDS" then Continue(h.(names := tok[1..]))
    else if tok[0] == "SIZE" then Continue(h.(sizes := tok[1..]))
    else if tok[0] == "TYPE" then Continue(h.(types := tok[1..]))
    else if tok[0] == "COUNT" then Continue(h.(counts := tok[1..]))
    else if tok[0] == "WIDTH" && |tok| >= 2 then
      if ParseU32(tok[1]).None? then Refused(WidthNotNumber) else Continue(h.(width := ParseU32(tok[1])))
    else if tok[0] == "HEIGHT" && |tok| >= 2 then
      if ParseU32(tok[1]).None? then Refused(HeightNotNumber) else Continue(h.(height := ParseU32(tok[1])))
    else if tok[0] == "DATA" && |tok| >= 2 then DataLine(tok[1])
    else Continue(h)
  }

  /** Without a DATA line the mode is empty and the body offset stays 0. */
  datatype Scan = NoData(header: Header) | Scan(header: Header, mode: string, body: seq<byte>)

  /** The header lines of a file up to its DATA line, and the body after it. */
  function ScanHeader(h: Header, file: seq<byte>): Result<Scan, PcdError>
    decreases |file|
  {
    if file == [] then Ok(NoData(h))
    else match ReadLine(h, LineText(file))
      case Refused(e) => Err(e)
      case DataLine(mode) => Ok(Scan(h, mode, AfterLine(file)))
      case Continue(h') => ScanHeader(h', AfterLine(file))
  }

  method FindNewline(file: seq<byte>, pos: nat) returns (nl: nat)
    requires pos <= |file|
    ensures pos <= nl <= |file| && nl - pos == LineLength(file[pos..])
  {
    nl := pos;
    while nl < |file| && file[nl] != NEWLINE
      invariant pos <= nl <= |file|
      invariant LineLength(file[pos..]) == (nl - pos) + LineLength(file[nl..])
    {
      assert file[nl..][1..] == file[nl + 1..];
      nl := nl + 1;
    }
  }

  /** The scan loop over the file's lines. */
  method Scanned(file: seq<byte>) returns (r: Result<Scan, PcdError>)
    ensures r == ScanHeader(EMPTY_HEADER, file)
  {
    var h := EMPTY_HEADER;
    var pos := 0;
    while pos < |file|
      invariant pos <= |file|
      invariant ScanHeader(EMPTY_HEADER, file) == ScanHeader(h, file[pos..])
    {
      ghost var at := file[pos..];
      var nl := FindNewline(file, pos);
      var line := WithoutReturn(Text(file[pos..nl]));
      assert file[pos..nl] == at[..LineLength(at)];
      var next := if nl < |file| then nl + 1 else |file|;
      assert file[next..] == AfterLine(at);
      match ReadLine(h, line) {
        case Refused(e) => return Err(e);
        case DataLine(mode) => return Ok(Scan(h, mode, file[next..]));
        case Continue(h') => h := h';
      }
      pos := next;
    }
    return Ok(NoData(h));
  }

  // ----- the field table -----

  function ToDatatype(letter: char, size: uint32): Datatype {
    match letter
    case 'I' => if size == 1 then Int8 else if size == 2 then Int16 else if size == 4 then Int32 else Unknown
    case 'U' => if size == 1 then Uint8 else if size == 2 then Uint16 else if size == 4 then Uint32 else Unknown
    case 'F' => if size == 4 then Float32 else if size == 8 then Float64 else Unknown
    case _ => Unknown
  }

  /** A supported (TYPE, SIZE) pair names a type of exactly SIZE bytes. */
  lemma DatatypeHasSize(letter: char, size: uint32)
    ensures ToDatatype(letter, size) != Unknown ==> BytesPerElement(ToDatatype(letter, size)) == size
  {
  }

  function ReadField(name: string, letter: string, size: string, count: Option<string>): Result<ParsedField, PcdError> {
    if ParseU32(size).None? then Err(SizeNotNumber(name))
    else if count.Some? && ParseU32(count.value).None? then Err(CountNotNumber(name))
    else if |letter| != 1 then Err(TypeNotOneLetter(name))
    else if ToDatatype(letter[0], ParseU32(size).value) == Unknown then Err(UnsupportedType(name))
    else Ok(ParsedField(name, ToDatatype(letter[0], ParseU32(size).value),
                        if count.Some? then ParseU32(count.value).value else 1))
  }

  predicate SameArity(h: Header) {
    && |h.sizes| == |h.names| == |h.types|
    && (h.counts != [] ==> |h.counts| == |h.names|)
  }

  /** The first k fields of the table, or the first error. */
  function ReadFields(h: Header, k: nat): Result<seq<ParsedField>, PcdError>
    requires SameArity(h) && k <= |h.names|
  {
    if k == 0 then Ok([])
    else match ReadFields(h, k - 1)
      case Err(e) => Err(e)
      case Ok(fields) =>
        match ReadField(h.names[k - 1], h.types[k - 1], h.sizes[k - 1],
                        if h.counts == [] then None else Some(h.counts[k - 1]))
        case Err(e) => Err(e)
        case Ok(f) => Ok(fields + [f])
  }

  lemma {:induction false} FieldErrorStays(h: Header, k: nat, m: nat)
    requires SameArity(h) && k <= m <= |h.names| && ReadFields(h, k).Err?
    ensures ReadFields(h, m) == ReadFields(h, k)
  {
    if k < m {
      FieldErrorStays(h, k, m - 1);
    }
  }

  datatype Table = Table(fields: seq<ParsedField>, width: uint32, height: uint32)

  /** The checks between the header and the body. */
  function ReadTable(h: Header, mode: string): Result<Table, PcdError> {
    if h.names == [] || |h.sizes| != |h.names| || |h.types| != |h.names| then Err(FieldTableMismatch)
    else if h.width.None? || h.height.None? then Err(DimensionsMissing)
    else if mode != "ascii" && mode != "binary" && mode != "binary_compressed" then Err(UnknownMode(mode))
    else if h.counts != [] && |h.counts| != |h.names| then Err(CountMismatch)
    else match ReadFields(h, |h.names|)
      case Err(e) => Err(e)
      case Ok(fields) => Ok(Table(fields, h.width.value, h.height.value))
  }

  method TableOf(h: Header, mode: string) returns (r: Result<Table, PcdError>)
    ensures r == ReadTable(h, mode)
  {
    if h.names == [] || |h.sizes| != |h.names| || |h.types| != |h.names| {
      return Err(FieldTableMismatch);
    }
    if h.width.None? || h.height.None? {
      return Err(DimensionsMissing);
    }
    if mode != "ascii" && mode != "binary" && mode != "binary_compressed" {
      return Err(UnknownMode(mode));
    }
    if h.counts != [] && |h.counts| != |h.names| {
      return Err(CountMismatch);
    }
    var fields := [];
    for i := 0 to |h.names|
      invariant ReadFields(h, i) == Ok(fields)
    {
      var f := ReadField(h.names[i], h.types[i], h.sizes[i], if h.counts == [] then None else Some(h.counts[i]));
      if f.Err? {
        FieldErrorStays(h, i + 1, |h.names|);
        return Err(f.error);
      }
      fields := fields + [f.value];
    }
    return Ok(Table(fields, h.width.value, h.height.value));
  }

  // ----- binary_compressed bodies -----

  /** lzf_decompress: the bytes it writes when given room for that many. */
  type Decompressor = (seq<byte>, nat) -> seq<byte>

  function Decompressed(
      lzf: Decompressor, fields: seq<ParsedField>, width: uint32, height: uint32, body: seq<byte>)
    : Result<PointCloud, CloudError>
  {
    var n := width * height;
    match Checked(fields, n)
    case Err(e) => Err(e)
    case Ok(layout) =>
      match Block(lzf, body, Times(Stride(fields), n))
      case Err(e) => Err(e)
      case Ok(soa) =>
        SoaLength(fields, n);
        Build(fields, width, height, true, BinaryLittleEndian, Interleaved(fields, n, soa, n))
  }

  /** The decompressed bytes behind the two size numbers. */
  function Block(lzf: Decompressor, body: seq<byte>, expected: nat): (r: Result<seq<byte>, CloudError>)
    ensures r.Ok? ==> |r.value| == expected
  {
    if |body| < 8 then Err(TruncatedSizeHeader)
    else
      var compressed, uncompressed := Decode(body[..4]), Decode(body[4..8]);
      if uncompressed != expected then Err(UncompressedSizeMismatch)
      else if |body| < compressed + 8 then Err(TruncatedBlob)
      else
        var soa := lzf(body[8..8 + compressed], uncompressed);
        if |soa| != uncompressed then Err(DecompressFailed) else Ok(soa)
  }

  lemma BytesOfPoints(step: nat, n: nat)
    ensures n * step == Times(step, n)
  {
    TimesIsProduct(step, n);
  }

  method DecompressBlock(lzf: Decompressor, body: seq<byte>, expected: nat)
    returns (r: Result<seq<byte>, CloudError>)
    ensures r == Block(lzf, body, expected)
  {
    if |body| < 8 {
      return Err(TruncatedSizeHeader);
    }
    var compressed, uncompressed := Decode(body[..4]), Decode(body[4..8]);
    if uncompressed != expected {
      return Err(UncompressedSizeMismatch);
    }
    if |body| < compressed + 8 {
      return Err(TruncatedBlob);
    }
    var soa := lzf(body[8..8 + compressed], uncompressed);
    r := if |soa| != uncompressed then Err(DecompressFailed) else Ok(soa);
  }

  method DecodeBinaryCompressed(
      lzf: Decompressor, fields: seq<ParsedField>, width: uint32, height: uint32, body: seq<byte>)
    returns (r: Result<PointCloud, CloudError>)
    ensures r == Decompressed(lzf, fields, width, height, body)
  {
    var layoutOr := ComputeLayout(fields);
    if layoutOr.Err? {
      return Err(layoutOr.error);
    }
    var pointStep := layoutOr.value.pointStep;
    LayoutIsLayout(fields);
    var n := width * height;
    if pointStep == 0 && n > 0 {
      return Err(PointsWithoutFields);
    }
    if pointStep != 0 && n > MAX_CLOUD_BYTES / pointStep {
      return Err(CloudTooLarge);
    }
    var expected := n * pointStep;
    BytesOfPoints(pointStep, n);
    var block := DecompressBlock(lzf, body, expected);
    if block.Err? {
      return Err(block.error);
    }
    var soa := block.value;
    SoaLength(fields, n);
    var aos, _ := Transpose(soa, fields, layoutOr.value, n);
    r := BuildPointCloud(fields, width, height, true, BinaryLittleEndian, aos);
  }

  /** A compressed body is accepted exactly when the table is, its second number is the size of all points, its first
      one that of a block that is there, and the block decompresses to just that size. */
  lemma CompressedAcceptsExactly(
      lzf: Decompressor, fields: seq<ParsedField>, width: uint32, height: uint32, body: seq<byte>)
    ensures Decompressed(lzf, fields, width, height, body).Ok? <==>
            && Checked(fields, width * height).Ok? && |body| >= 8
            && Word32(body, 4) == Stride(fields) * (width * height)
            && 8 + Word32(body, 0) <= |body|
            && |lzf(body[8..8 + Word32(body, 0)], Word32(body, 4))| == Word32(body, 4)
  {
    var n := width * height;
    if Checked(fields, n).Ok? {
      BlockExactly(lzf, body, Times(Stride(fields), n));
      TimesIsProduct(Stride(fields), n);
    }
  }

  lemma BlockExactly(lzf: Decompressor, body: seq<byte>, expected: nat)
    ensures Block(lzf, body, expected).Ok? <==>
            && |body| >= 8 && Word32(body, 4) == expected && 8 + Word32(body, 0) <= |body|
            && |lzf(body[8..8 + Word32(body, 0)], Word32(body, 4))| == Word32(body, 4)
  {
    if |body| >= 8 {
      FourBytes(body, 0);
      FourBytes(body, 4);
    }
  }

  /** What a writer stores after the DATA line: both sizes, then the compressed transpose. */
  function CompressedBody(size: nat, blob: seq<byte>, trailing: seq<byte>): seq<byte> {
    Encode(|blob|, 4) + Encode(size, 4) + blob + trailing
  }

  lemma CompressedBodyParts(size: nat, blob: seq<byte>, trailing: seq<byte>)
    requires size <= UINT32_MAX && |blob| <= UINT32_MAX
    ensures var body := CompressedBody(size, blob, trailing);
            && |body| >= 8 + |blob|
            && Decode(body[..4]) == |blob| && Decode(body[4..8]) == size && body[8..8 + |blob|] == blob
  {
    var body := CompressedBody(size, blob, trailing);
    Widths();
    DecodeEncode(|blob|, 4);
    DecodeEncode(size, 4);
    assert body[..4] == Encode(|blob|, 4) && body[4..8] == Encode(size, 4) && body[8..8 + |blob|] == blob;
  }

  ghost predicate Undoes(lzf: Decompressor, blob: seq<byte>, raw: seq<byte>) {
    lzf(blob, |raw|) == raw
  }

  /** Compressing the transpose of any packed body decodes to the same cloud as that body in binary mode. */
  lemma {:induction false} CompressedIsBinary(
      lzf: Decompressor, fields: seq<ParsedField>, width: uint32, height: uint32, aos: seq<byte>, blob: seq<byte>,
      trailing: seq<byte>)
    requires |aos| == Times(Stride(fields), width * height) && |blob| <= UINT32_MAX
    requires Undoes(lzf, blob, FieldMajor(fields, |fields|, width * height, aos))
    ensures Decompressed(lzf, fields, width, height, CompressedBody(|aos|, blob, trailing))
            == Build(fields, width, height, true, BinaryLittleEndian, aos)
  {
    var n := width * height;
    if Checked(fields, n).Ok? {
      CheckedExactly(fields, n);
      TimesIsProduct(Stride(fields), n);
      CompressedBodyParts(|aos|, blob, trailing);
      SoaLength(fields, n);
      InterleavedFieldMajor(fields, n, aos);
    }
  }

  // ----- whole files -----

  /** The text body's values are not part of this model: any outcome. */
  type AsciiReader = (seq<ParsedField>, uint32, uint32, seq<byte>) -> Result<PointCloud, CloudError>

  function Cloudy<T>(r: Result<T, CloudError>): Result<T, PcdError> {
    match r
    case Ok(v) => Ok(v)
    case Err(e) => Err(Cloud(e))
  }

  function ReadBody(lzf: Decompressor, ascii: AsciiReader, t: Table, mode: string, body: seq<byte>)
    : Result<PointCloud, PcdError>
  {
    if mode == "binary_compressed" then Cloudy(Decompressed(lzf, t.fields, t.width, t.height, body))
    else if mode == "ascii" then Cloudy(ascii(t.fields, t.width, t.height, body))
    else Cloudy(Build(t.fields, t.width, t.height, true, BinaryLittleEndian, body))
  }

  function ModeOf(scan: Scan): string {
    if scan.NoData? then "" else scan.mode
  }

  function PcdCloud(lzf: Decompressor, ascii: AsciiReader, file: seq<byte>): Result<PointCloud, PcdError> {
    match ScanHeader(EMPTY_HEADER, file)
    case Err(e) => Err(e)
    case Ok(scan) =>
      match ReadTable(scan.header, ModeOf(scan))
      case Err(e) => Err(e)
      case Ok(table) => ReadBody(lzf, ascii, table, ModeOf(scan), if scan.NoData? then file else scan.body)
  }

  method ReadPcd(lzf: Decompressor, ascii: AsciiReader, file: seq<byte>) returns (r: Result<PointCloud, PcdError>)
    ensures r == PcdCloud(lzf, ascii, file)
  {
    var scan := Scanned(file);
    if scan.Err? {
      return Err(scan.error);
    }
    var mode := ModeOf(scan.value);
    var table := TableOf(scan.value.header, mode);
    if table.Err? {
      return Err(table.error);
    }
    var Table(fields, width, height) := table.value;
    var body := if scan.value.NoData? then file else scan.value.body;
    if mode == "binary_compressed" {
      var cloud := DecodeBinaryCompressed(lzf, fields, width, height, body);
      return Cloudy(cloud);
    }
    if mode == "ascii" {
      return Cloudy(ascii(fields, width, height, body));
    }
    var cloud := BuildPointCloud(fields, width, height, true, BinaryLittleEndian, body);
    return Cloudy(cloud);
  }

  // ----- the same cloud from either binary mode -----

  ghost predicate WholeLines(head: seq<byte>) {
    head == [] || head[|head| - 1] == NEWLINE
  }

  lemma {:induction false} LineOfConcat(head: seq<byte>, rest: seq<byte>)
    requires NEWLINE in head
    ensures LineLength(head) < |head| && LineLength(head + rest) == LineLength(head)
  {
    if head[0] != NEWLINE {
      SuffixOfConcat(head, rest, 1);
      LineOfConcat(head[1..], rest);
    }
  }

  lemma FirstLineOfConcat(head: seq<byte>, rest: seq<byte>)
    requires WholeLines(head) && head != []
    ensures Same(LineText(head + rest), LineText(head))
    ensures WholeLines(AfterLine(head)) && Same(AfterLine(head + rest), AfterLine(head) + rest)
  {
    LineOfConcat(head, rest);
    SliceOfLeft(head, rest, 0, LineLength(head));
    SuffixOfConcat(head, rest, LineLength(head) + 1);
  }

  lemma ScanStep(h: Header, file: seq<byte>)
    requires file != [] && ReadLine(h, LineText(file)).Continue?
    ensures ScanHeader(h, file) == ScanHeader(ReadLine(h, LineText(file)).header, AfterLine(file))
  {
  }

  lemma OnlyContinuesToNoData(h: Header, file: seq<byte>)
    requires file != [] && ScanHeader(h, file).Ok? && ScanHeader(h, file).value.NoData?
    ensures ReadLine(h, LineText(file)).Continue?
  {
  }

  /** Scanning past whole header lines: what follows them is scanned with the header they built. */
  lemma {:induction false} ScanContinues(h: Header, head: seq<byte>, rest: seq<byte>, h': Header)
    requires WholeLines(head) && ScanHeader(h, head) == Ok(NoData(h'))
    ensures ScanHeader(h, head + rest) == ScanHeader(h', rest)
    decreases |head|
  {
    if head == [] {
      assert head + rest == rest;
    } else {
      FirstLineOfConcat(head, rest);
      OnlyContinuesToNoData(h, head);
      ScanStep(h, head);
      ScanStep(h, head + rest);
      ScanContinues(ReadLine(h, LineText(head)).header, AfterLine(head), rest, h');
    }
  }

  function Bytes(s: string): (r: seq<byte>)
    ensures (forall i :: 0 <= i < |s| ==> s[i] < 256 as char) ==> Text(r) == s
  {
    seq(|s|, i requires 0 <= i < |s| => s[i] as int % 256)
  }

  ghost predicate IsMode(mode: string) {
    IsWord(mode) && forall i :: 0 <= i < |mode| ==> mode[i] < 256 as char
  }

  /** The DATA line of a file. */
  function DataLineBytes(mode: string): seq<byte> {
    Bytes("DATA " + mode) + [NEWLINE]
  }

  lemma {:induction false} LineLengthExact(line: seq<byte>, body: seq<byte>)
    requires NEWLINE !in line
    ensures LineLength(line + [NEWLINE] + body) == |line|
    ensures AfterLine(line + [NEWLINE] + body) == body
  {
    var file := line + [NEWLINE] + body;
    if line == [] {
      assert file[1..] == body;
    } else {
      assert file[1..] == line[1..] + [NEWLINE] + body;
      LineLengthExact(line[1..], body);
    }
  }

  lemma NoNewline(line: string)
    requires forall i :: 0 <= i < |line| ==> line[i] < 256 as char && line[i] != '\n'
    ensures NEWLINE !in Bytes(line)
  {
    forall i | 0 <= i < |line| ensures Bytes(line)[i] != NEWLINE {
      assert Text(Bytes(line))[i] == line[i] == Bytes(line)[i] as char;
    }
  }

  lemma DataLineText(mode: string, body: seq<byte>)
    requires IsMode(mode)
    ensures Same(LineText(DataLineBytes(mode) + body), "DATA " + mode)
    ensures Same(AfterLine(DataLineBytes(mode) + body), body)
  {
    var line := "DATA " + mode;
    NoNewline(line);
    LineLengthExact(Bytes(line), body);
    Regroup(Bytes(line), [NEWLINE], body);
    CutConcat(Bytes(line), [NEWLINE] + body);
  }

  lemma DataLineRead(h: Header, mode: string)
    requires IsMode(mode)
    ensures ReadLine(h, "DATA " + mode) == DataLine(mode)
  {
    SameIf("DATA" + " " + mode, "DATA " + mode);
    TokenizeTwo("DATA", mode);
  }

  lemma DataLineScanned(h: Header, mode: string, body: seq<byte>)
    requires IsMode(mode)
    ensures ScanHeader(h, DataLineBytes(mode) + body) == Ok(Scan(h, mode, body))
  {
    DataLineText(mode, body);
    DataLineRead(h, mode);
  }

  function FileOf(head: seq<byte>, mode: string, body: seq<byte>): seq<byte> {
    head + (DataLineBytes(mode) + body)
  }

  lemma FileScanned(head: seq<byte>, mode: string, body: seq<byte>, h: Header)
    requires WholeLines(head) && ScanHeader(EMPTY_HEADER, head) == Ok(NoData(h)) && IsMode(mode)
    ensures ScanHeader(EMPTY_HEADER, FileOf(head, mode, body)) == Ok(Scan(h, mode, body))
  {
    ScanContinues(EMPTY_HEADER, head, DataLineBytes(mode) + body, h);
    DataLineScanned(h, mode, body);
  }

  /** What the file reads as, once its header lines are known. */
  function CloudOf(lzf: Decompressor, ascii: AsciiReader, h: Header, mode: string, body: seq<byte>)
    : Result<PointCloud, PcdError>
  {
    match ReadTable(h, mode)
    case Err(e) => Err(e)
    case Ok(table) => ReadBody(lzf, ascii, table, mode, body)
  }

  lemma FileReads(
      lzf: Decompressor, ascii: AsciiReader, head: seq<byte>, mode: string, body: seq<byte>, h: Header)
    requires WholeLines(head) && ScanHeader(EMPTY_HEADER, head) == Ok(NoData(h)) && IsMode(mode)
    ensures PcdCloud(lzf, ascii, FileOf(head, mode, body)) == CloudOf(lzf, ascii, h, mode, body)
  {
    FileScanned(head, mode, body, h);
  }

  /** The packed body and the compressed one hold the same points of the header's field table. */
  ghost predicate SamePoints(lzf: Decompressor, t: Table, aos: seq<byte>, blob: seq<byte>) {
    && |aos| == Times(Stride(t.fields), t.width * t.height)
    && Undoes(lzf, blob, FieldMajor(t.fields, |t.fields|, t.width * t.height, aos))
  }

  lemma BodiesAgree(
      lzf: Decompressor, ascii: AsciiReader, h: Header, aos: seq<byte>, blob: seq<byte>, trailing: seq<byte>)
    requires |blob| <= UINT32_MAX
    requires ReadTable(h, "binary").Ok? ==> SamePoints(lzf, ReadTable(h, "binary").value, aos, blob)
    ensures CloudOf(lzf, ascii, h, "binary_compressed", CompressedBody(|aos|, blob, trailing))
            == CloudOf(lzf, ascii, h, "binary", aos)
  {
    if ReadTable(h, "binary").Ok? {
      var t := ReadTable(h, "binary").value;
      CompressedIsBinary(lzf, t.fields, t.width, t.height, aos, blob, trailing);
    }
  }

  lemma Modes()
    ensures IsMode("binary") && IsMode("binary_compressed")
  {
  }

  lemma SameReading(
      lzf: Decompressor, ascii: AsciiReader, head: seq<byte>, h: Header, mode: string, body: seq<byte>, mode': string,
      body': seq<byte>)
    requires WholeLines(head) && ScanHeader(EMPTY_HEADER, head) == Ok(NoData(h)) && IsMode(mode) && IsMode(mode')
    requires CloudOf(lzf, ascii, h, mode, body) == CloudOf(lzf, ascii, h, mode', body')
    ensures PcdCloud(lzf, ascii, FileOf(head, mode, body)) == PcdCloud(lzf, ascii, FileOf(head, mode', body'))
  {
    FileReads(lzf, ascii, head, mode, body, h);
    FileReads(lzf, ascii, head, mode', body', h);
  }

  /** Two files with the same header lines, one with a packed body and one with its compressed transpose, read as
      the same cloud, or fail with the same error. */
  lemma BinaryModesAgree(
      lzf: Decompressor, ascii: AsciiReader, head: seq<byte>, h: Header, aos: seq<byte>, blob: seq<byte>,
      trailing: seq<byte>)
    requires WholeLines(head) && ScanHeader(EMPTY_HEADER, head) == Ok(NoData(h))
    requires |blob| <= UINT32_MAX
    requires ReadTable(h, "binary").Ok? ==> SamePoints(lzf, ReadTable(h, "binary").value, aos, blob)
    ensures PcdCloud(lzf, ascii, FileOf(head, "binary_compressed", CompressedBody(|aos|, blob, trailing)))
            == PcdCloud(lzf, ascii, FileOf(head, "binary", aos))
  {
    Modes();
    BodiesAgree(lzf, ascii, h, aos, blob, trailing);
    SameReading(lzf, ascii, head, h, "binary_compressed", CompressedBody(|aos|, blob, trailing), "binary", aos);
  }
}
