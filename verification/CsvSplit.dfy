/** Splitting a CSV line with quotes (section 2 of RFC 4180) and guessing its delimiter. */
module CsvSplit {

  // ----- trimming -----

  predicate IsBlank(c: char) {
    c == ' ' || c == '\t' || c == '\r' || c == '\n'
  }

  function WithoutLeading(s: string): (r: string)
    ensures r == [] || !IsBlank(r[0])
    ensures |r| <= |s|
  {
    if s != [] && IsBlank(s[0]) then WithoutLeading(s[1..]) else s
  }

  function WithoutTrailing(s: string): (r: string)
    ensures r == [] || !IsBlank(r[|r| - 1])
    ensures r <= s
  {
    if s != [] && IsBlank(s[|s| - 1]) then WithoutTrailing(s[..|s| - 1]) else s
  }

  /** The text between the first and the last character that is not blank. */
  function Trim(s: string): string {
    WithoutTrailing(WithoutLeading(s))
  }

  predicate IsTrimmed(s: string) {
    s == [] || (!IsBlank(s[0]) && !IsBlank(s[|s| - 1]))
  }

  /** Trimming changes exactly the texts with a blank at an end. */
  lemma TrimExactly(s: string)
    ensures IsTrimmed(Trim(s))
    ensures Trim(s) == s <==> IsTrimmed(s)
  {
    var t := WithoutLeading(s);
    if Trim(s) != [] {
      assert Trim(s)[0] == t[0];
    }
  }

  function TrimAll(fields: seq<string>): (r: seq<string>)
    ensures |r| == |fields|
    ensures forall i :: 0 <= i < |r| ==> r[i] == Trim(fields[i])
  {
    if fields == [] then [] else [Trim(fields[0])] + TrimAll(fields[1..])
  }

  // ----- the splitter -----

  const QUOTE := '\"'

  /** The fields of the rest of a line, with `field` collected so far and the quote state given. */
  function Split(s: string, separator: char, field: string, inside: bool): (parts: seq<string>)
    decreases |s|
    ensures parts != []
  {
    if s == [] then [Trim(field)]
    else if s[0] == QUOTE then
      if inside && |s| > 1 && s[1] == QUOTE then Split(s[2..], separator, field + [QUOTE], inside)
      else Split(s[1..], separator, field, !inside)
    else if s[0] == separator && !inside then [Trim(field)] + Split(s[1..], separator, [], inside)
    else Split(s[1..], separator, field + [s[0]], inside)
  }

  method SplitLine(line: string, separator: char) returns (parts: seq<string>)
    ensures parts == Split(line, separator, [], false)
  {
    parts := [];
    var field: string := [];
    var inside := false;
    var pos := 0;
    while pos < |line|
      invariant pos <= |line|
      invariant parts + Split(line[pos..], separator, field, inside) == Split(line, separator, [], false)
    {
      ghost var rest := line[pos..];
      var c := line[pos];
      if c == QUOTE {
        if inside && pos + 1 < |line| && line[pos + 1] == QUOTE {
          assert rest[2..] == line[pos + 2..];
          field := field + [QUOTE];
          pos := pos + 1;
        } else {
          inside := !inside;
        }
      } else if c == separator && !inside {
        parts := parts + [Trim(field)];
        field := [];
      } else {
        field := field + [c];
      }
      pos := pos + 1;
      assert line[pos..] == rest[1..] || line[pos..] == rest[2..];
    }
    parts := parts + [Trim(field)];
  }

  // ----- writing lines -----

  function Doubled(s: string): string {
    if s == [] then [] else (if s[0] == QUOTE then [QUOTE, QUOTE] else [s[0]]) + Doubled(s[1..])
  }

  /** A field as a writer may put it: quoted with doubled inner quotes, or bare. */
  datatype Cell = Quoted(text: string) | Bare(text: string)

  function CellText(c: Cell): string {
    match c
    case Quoted(text) => [QUOTE] + Doubled(text) + [QUOTE]
    case Bare(text) => text
  }

  function Line(cells: seq<Cell>, separator: char): string {
    if cells == [] then []
    else if |cells| == 1 then CellText(cells[0])
    else CellText(cells[0]) + [separator] + Line(cells[1..], separator)
  }

  /** A bare field may hold neither quotes nor separators. */
  predicate Writable(c: Cell, separator: char) {
    c.Bare? ==> QUOTE !in c.text && separator !in c.text
  }

  function Texts(cells: seq<Cell>): seq<string> {
    if cells == [] then [] else [cells[0].text] + Texts(cells[1..])
  }

  /** What may follow a field: the end of the line or a separator. */
  ghost predicate EndsField(rest: string, separator: char) {
    rest == [] || rest[0] == separator
  }

  lemma {:induction false} SplitDoubled(text: string, rest: string, separator: char, field: string)
    requires separator != QUOTE && EndsField(rest, separator)
    ensures Split(Doubled(text) + [QUOTE] + rest, separator, field, true) == Split(rest, separator, field + text, false)
  {
    var s := Doubled(text) + [QUOTE] + rest;
    if text == [] {
      assert s[1..] == rest;
      assert field + text == field;
    } else {
      var width := if text[0] == QUOTE then 2 else 1;
      assert s[width..] == Doubled(text[1..]) + [QUOTE] + rest;
      assert field + [text[0]] + text[1..] == field + text;
      SplitDoubled(text[1..], rest, separator, field + [text[0]]);
    }
  }

  lemma {:induction false} SplitBare(text: string, rest: string, separator: char, field: string)
    requires QUOTE !in text && separator !in text
    ensures Split(text + rest, separator, field, false) == Split(rest, separator, field + text, false)
  {
    if text == [] {
      assert text + rest == rest && field + text == field;
    } else {
      assert (text + rest)[1..] == text[1..] + rest;
      assert field + [text[0]] + text[1..] == field + text;
      SplitBare(text[1..], rest, separator, field + [text[0]]);
    }
  }

  lemma SplitCell(c: Cell, rest: string, separator: char)
    requires separator != QUOTE && EndsField(rest, separator) && Writable(c, separator)
    ensures Split(CellText(c) + rest, separator, [], false) == Split(rest, separator, c.text, false)
  {
    assert [] + c.text == c.text;
    match c
    case Quoted(text) =>
      var s := CellText(c) + rest;
      assert s[1..] == Doubled(text) + [QUOTE] + rest;
      SplitDoubled(text, rest, separator, []);
    case Bare(text) =>
      SplitBare(text, rest, separator, []);
  }

  /** A written line splits back into its fields, each trimmed. */
  lemma {:induction false} SplitUndoesQuoting(cells: seq<Cell>, separator: char)
    requires cells != [] && separator != QUOTE
    requires forall i :: 0 <= i < |cells| ==> Writable(cells[i], separator)
    ensures Split(Line(cells, separator), separator, [], false) == TrimAll(Texts(cells))
  {
    if |cells| == 1 {
      SplitCell(cells[0], [], separator);
      assert CellText(cells[0]) + [] == CellText(cells[0]);
      assert Texts(cells) == [cells[0].text];
    } else {
      var rest := [separator] + Line(cells[1..], separator);
      assert Line(cells, separator) == CellText(cells[0]) + rest;
      SplitCell(cells[0], rest, separator);
      assert rest[1..] == Line(cells[1..], separator);
      SplitUndoesQuoting(cells[1..], separator);
    }
  }

  lemma {:induction false} TextsAt(cells: seq<Cell>)
    ensures |Texts(cells)| == |cells|
    ensures forall i :: 0 <= i < |cells| ==> Texts(cells)[i] == cells[i].text
  {
    if cells != [] {
      TextsAt(cells[1..]);
    }
  }

  /** The fields come back unchanged exactly when none of them starts or ends with a blank. */
  lemma SplitIsIdentityExactly(cells: seq<Cell>, separator: char)
    requires cells != [] && separator != QUOTE
    requires forall i :: 0 <= i < |cells| ==> Writable(cells[i], separator)
    ensures Split(Line(cells, separator), separator, [], false) == Texts(cells)
            <==> forall i :: 0 <= i < |cells| ==> IsTrimmed(cells[i].text)
  {
    SplitUndoesQuoting(cells, separator);
    TextsAt(cells);
    forall i | 0 <= i < |cells|
      ensures TrimAll(Texts(cells))[i] == Texts(cells)[i] <==> IsTrimmed(cells[i].text)
    {
      TrimExactly(cells[i].text);
    }
  }

  // ----- counting separators -----

  /** Separators outside quotes, every quote character toggling. */
  function CountOutside(s: string, delimiter: char, inside: bool): nat {
    if s == [] then 0
    else if s[0] == QUOTE then CountOutside(s[1..], delimiter, !inside)
    else (if !inside && s[0] == delimiter then 1 else 0) + CountOutside(s[1..], delimiter, inside)
  }

  method CountOutsideQuotes(line: string, delimiter: char) returns (count: nat)
    ensures count == CountOutside(line, delimiter, false)
  {
    count := 0;
    var inside := false;
    for i := 0 to |line|
      invariant count + CountOutside(line[i..], delimiter, inside) == CountOutside(line, delimiter, false)
    {
      assert line[i..][1..] == line[i + 1..];
      if line[i] == QUOTE {
        inside := !inside;
      } else if !inside && line[i] == delimiter {
        count := count + 1;
      }
    }
  }

  /** The splitter and the detector treat doubled quotes differently and still agree on every line. */
  lemma {:induction false} PartsAreCountPlusOne(s: string, separator: char, field: string, inside: bool)
    requires separator != QUOTE
    decreases |s|
    ensures |Split(s, separator, field, inside)| == 1 + CountOutside(s, separator, inside)
  {
    if s != [] {
      if s[0] == QUOTE {
        if inside && |s| > 1 && s[1] == QUOTE {
          assert s[1..][1..] == s[2..];
          PartsAreCountPlusOne(s[2..], separator, field + [QUOTE], inside);
        } else {
          PartsAreCountPlusOne(s[1..], separator, field, !inside);
        }
      } else if s[0] == separator && !inside {
        PartsAreCountPlusOne(s[1..], separator, [], inside);
      } else {
        PartsAreCountPlusOne(s[1..], separator, field + [s[0]], inside);
      }
    }
  }

  /** Runs of spaces outside quotes. */
  function SpaceRuns(s: string, inside: bool, afterSpace: bool): nat {
    if s == [] then 0
    else if s[0] == QUOTE then SpaceRuns(s[1..], !inside, false)
    else if !inside && s[0] == ' ' then (if afterSpace then 0 else 1) + SpaceRuns(s[1..], inside, true)
    else SpaceRuns(s[1..], inside, false)
  }

  method CountSpaceRuns(line: string) returns (count: nat)
    ensures count == SpaceRuns(line, false, false)
  {
    count := 0;
    var inside, afterSpace := false, false;
    for i := 0 to |line|
      invariant count + SpaceRuns(line[i..], inside, afterSpace) == SpaceRuns(line, false, false)
    {
      assert line[i..][1..] == line[i + 1..];
      if line[i] == QUOTE {
        inside := !inside;
        afterSpace := false;
      } else if !inside && line[i] == ' ' {
        if !afterSpace {
          count := count + 1;
        }
        afterSpace := true;
      } else {
        afterSpace := false;
      }
    }
  }

  // ----- the delimiter -----

  datatype Candidate = Candidate(delimiter: char, count: nat, priority: nat)

  datatype Detection = Detection(delimiter: char, ambiguous: bool)

  function Hard(line: string, delimiter: char): nat {
    CountOutside(line, delimiter, false)
  }

  function Candidates(line: string): seq<Candidate> {
    [Candidate('\t', Hard(line, '\t'), 4), Candidate(';', Hard(line, ';'), 3),
     Candidate(',', Hard(line, ','), 2), Candidate(' ', SpaceRuns(line, false, false), 1)]
  }

  predicate Eligible(c: Candidate) {
    c.count >= if c.delimiter == ' ' then 2 else 1
  }

  predicate Beats(c: Candidate, d: Candidate) {
    c.count > d.count || (c.count == d.count && c.priority > d.priority)
  }

  /** `d` is the delimiter of the one eligible candidate no other eligible one beats, a comma when none is eligible. */
  ghost predicate IsDetected(candidates: seq<Candidate>, d: char) {
    if forall c :: c in candidates ==> !Eligible(c) then d == ','
    else exists c :: c in candidates && Eligible(c) && c.delimiter == d
                     && forall e :: e in candidates && Eligible(e) && e != c ==> Beats(c, e)
  }

  method DetectDelimiterEx(line: string) returns (r: Detection)
    ensures IsDetected(Candidates(line), r.delimiter)
    ensures r.ambiguous <==> exists d, e ::
      d in ",;\t" && e in ",;\t" && d != e && Hard(line, d) >= 1 && Hard(line, e) >= 1
  {
    var commas := CountOutsideQuotes(line, ',');
    var semicolons := CountOutsideQuotes(line, ';');
    var tabs := CountOutsideQuotes(line, '\t');
    var spaces := CountSpaceRuns(line);
    var candidates := [Candidate('\t', tabs, 4), Candidate(';', semicolons, 3), Candidate(',', commas, 2),
                       Candidate(' ', spaces, 1)];
    assert candidates == Candidates(line);
    var best := BestOf(candidates);
    var present := (if commas >= 1 then 1 else 0) + (if semicolons >= 1 then 1 else 0) + if tabs >= 1 then 1 else 0;
    r := Detection(if best < 0 then ',' else candidates[best].delimiter, present >= 2);
    assert ',' in ",;\t" && ';' in ",;\t" && '\t' in ",;\t";
  }

  method BestOf(candidates: seq<Candidate>) returns (best: int)
    requires forall i, j :: 0 <= i < j < |candidates| ==> candidates[i].priority != candidates[j].priority
    ensures -1 <= best < |candidates|
    ensures best < 0 ==> forall c :: c in candidates ==> !Eligible(c)
    ensures best >= 0 ==> Eligible(candidates[best])
    ensures best >= 0 ==>
              forall e :: e in candidates && Eligible(e) && e != candidates[best] ==> Beats(candidates[best], e)
  {
    best := -1;
    for i := 0 to |candidates|
      invariant -1 <= best < i
      invariant best < 0 ==> forall j :: 0 <= j < i ==> !Eligible(candidates[j])
      invariant best >= 0 ==> Eligible(candidates[best])
      invariant best >= 0 ==> forall j :: 0 <= j < i && Eligible(candidates[j]) && j != best
                                         ==> Beats(candidates[best], candidates[j])
    {
      if Eligible(candidates[i]) {
        if best < 0 || Beats(candidates[i], candidates[best]) {
          best := i;
        }
      }
    }
  }

  /** A detected hard delimiter splits the header into at least as many parts as any other hard one. */
  lemma DetectedSplitsMost(line: string, d: char, e: char)
    requires IsDetected(Candidates(line), d) && d in ",;\t" && e in ",;\t"
    ensures |Split(line, d, [], false)| >= |Split(line, e, [], false)|
  {
    PartsAreCountPlusOne(line, d, [], false);
    PartsAreCountPlusOne(line, e, [], false);
    var c := Candidate(e, Hard(line, e), if e == '\t' then 4 else if e == ';' then 3 else 2);
    assert c in Candidates(line);
  }

  /** A space is detected exactly when at least two runs of spaces outnumber every hard delimiter. */
  lemma SpaceDetectedExactly(line: string, d: char)
    requires IsDetected(Candidates(line), d)
    ensures var runs := SpaceRuns(line, false, false);
            d == ' ' <==> runs >= 2 && runs > Hard(line, ',') && runs > Hard(line, ';') && runs > Hard(line, '\t')
  {
    var cs := Candidates(line);
    assert cs[0] in cs && cs[1] in cs && cs[2] in cs && cs[3] in cs;
  }

  /** The delimiter written out: a space when its runs win; else the most frequent of tab, semicolon and comma, in this
      order where they tie; a comma when the line has none. */
  lemma DelimiterExactly(line: string, d: char)
    requires IsDetected(Candidates(line), d)
    ensures var tabs, semicolons, commas := Hard(line, '\t'), Hard(line, ';'), Hard(line, ',');
            var runs := SpaceRuns(line, false, false);
            d == if runs >= 2 && runs > tabs && runs > semicolons && runs > commas then ' '
                 else if tabs >= 1 && tabs >= semicolons && tabs >= commas then '\t'
                 else if semicolons >= 1 && semicolons >= commas then ';'
                 else ','
  {
    SpaceDetectedExactly(line, d);
    var cs := Candidates(line);
    assert cs[0] in cs && cs[1] in cs && cs[2] in cs && cs[3] in cs;
  }

  /** The first k characters hold an even number of quotes. */
  predicate IsOutside(s: string, k: nat)
    requires k <= |s|
  {
    k == 0 || if s[k - 1] == '"' then !IsOutside(s, k - 1) else IsOutside(s, k - 1)
  }

  /** A run of spaces outside quotes starts at k. */
  predicate StartsRun(s: string, k: nat)
    requires k < |s|
  {
    s[k] == ' ' && IsOutside(s, k) && (k == 0 || s[k - 1] != ' ')
  }

  function RunStarts(s: string, k: nat): nat
    requires k <= |s|
  {
    if k == 0 then 0 else RunStarts(s, k - 1) + if StartsRun(s, k - 1) then 1 else 0
  }

  function SeparatorsBefore(s: string, delimiter: char, k: nat): nat
    requires k <= |s|
  {
    if k == 0 then 0
    else SeparatorsBefore(s, delimiter, k - 1) + if s[k - 1] == delimiter && IsOutside(s, k - 1) then 1 else 0
  }

  /** What is counted: the separators, and the starts of runs of spaces, behind an even number of quotes. */
  lemma CountsExactly(line: string, delimiter: char)
    requires delimiter != '"'
    ensures Hard(line, delimiter) == SeparatorsBefore(line, delimiter, |line|)
    ensures SpaceRuns(line, false, false) == RunStarts(line, |line|)
  {
    Counted(line, delimiter, |line|);
  }

  lemma {:induction false} Counted(s: string, delimiter: char, k: nat)
    requires k <= |s| && delimiter != '"'
    ensures CountOutside(s[k..], delimiter, !IsOutside(s, k)) + SeparatorsBefore(s, delimiter, k) == Hard(s, delimiter)
    ensures SpaceRuns(s[k..], !IsOutside(s, k), k > 0 && s[k - 1] == ' ' && IsOutside(s, k)) + RunStarts(s, k)
            == SpaceRuns(s, false, false)
  {
    if k > 0 {
      Counted(s, delimiter, k - 1);
      assert s[k - 1..][1..] == s[k..];
    } else {
      assert s[0..] == s;
    }
  }

  /** So a space can win although a hard delimiter is present. */
  lemma SpaceBeatsComma()
    ensures Hard("a b c,d", ',') == 1 && IsDetected(Candidates("a b c,d"), ' ')
  {
  }

  // ----- the characters themselves -----

  /** Trimming leaves exactly the texts that neither start nor end with a blank, a tab or the end of a line. */
  lemma BlanksExactly(s: string)
    ensures Trim(s) == s <==> s == "" || (s[0] !in " \t\r\n" && s[|s| - 1] !in " \t\r\n")
  {
    TrimExactly(s);
  }

  /** Double quotes hide every separator between them. */
  lemma QuotesHide(text: string, separator: char)
    requires '"' !in text && separator != '"'
    ensures Split("\"" + text + "\"", separator, "", false) == [Trim(text)]
  {
    SplitQuoted(text, separator);
    NothingDoubled(text);
  }

  lemma SplitQuoted(text: string, separator: char)
    requires separator != QUOTE
    ensures Split(CellText(Quoted(text)), separator, [], false) == [Trim(text)]
  {
    var cells := [Quoted(text)];
    SplitUndoesQuoting(cells, separator);
    TextsAt(cells);
  }

  lemma {:induction false} NothingDoubled(text: string)
    requires QUOTE !in text
    ensures Doubled(text) == text
  {
    if text != [] {
      NothingDoubled(text[1..]);
    }
  }
}
