/** Where the prescan's time mode parts from the pre-pass's: blank lines under the cap, and bodies that do not parse. */
module CandumpScanGap {
  import opened Wrappers
  import opened Slices
  import opened CandumpTokens
  import opened CandumpLines
  import opened CandumpPrint
  import opened CandumpClock
  import opened CandumpPrescan

  /** A leading blank line uses up the pre-pass's cap of one, but not the prescan's. */
  lemma BlankLineGap(f: Frame)
    requires ValidFrame(f)
    ensures var lines := ["", LogText(f)];
            && TimeModeOf(PrefixStamps(lines[..Capped(|lines|, 1)])).sawNumericTimestamp == false
            && TimeModeOf(FrameStamps(Parsed(Window(lines, 1)))).sawNumericTimestamp == true
  {
    var line := LogText(f);
    assert line != "" by { assert line[0] == '('; }
    FirstBlank(line);
    BlankHasNoStamp();
    OneFrame(line, f);
  }

  lemma BlankHasNoStamp()
    ensures |PrefixStamps([""])| == 0 && |NonBlank([""])| == 0
  {
    SameIf([""][..0], []);
  }

  /** What the two scans read of a blank line and another one under a cap of one. */
  lemma FirstBlank(line: string)
    requires line != ""
    ensures Same(["", line][..1], [""]) && Same(Window(["", line], 1), [line])
  {
    var lines := ["", line];
    SameIf(lines[..1], [""]);
    BlankHasNoStamp();
    NothingBefore(NonBlank([""]), [line]);
    Whole([line]);
  }

  lemma OneFrame(line: string, f: Frame)
    requires ValidFrame(f) && line == LogText(f)
    ensures FrameStamps(Parsed([line])) != []
  {
    LogRoundTrip(f);
    LineProper(line);
    var p := Parsed([line]);
    assert p[..0] == [];
    assert FrameStamp(p[0]).Some?;
  }

  /** A valid stamp in front of a word that is no frame body. */
  function BrokenLine(f: Frame): string {
    Blanks(0) + ("(" + (StampText(f) + (")" + (Blanks(1) + (f.iface + (Blanks(1) + "zzz"))))))
  }

  /** The pre-pass takes the stamp of a line whose body does not parse; the prescan drops the line. */
  lemma BrokenBodyGap(f: Frame)
    requires ValidFrame(f)
    ensures HiddenStamp(BrokenLine(f))
    ensures var lines := [BrokenLine(f)];
            && TimeModeOf(PrefixStamps(lines[..Capped(|lines|, 1)])).sawNumericTimestamp == true
            && TimeModeOf(FrameStamps(Parsed(Window(lines, 1)))).sawNumericTimestamp == false
  {
    var line := BrokenLine(f);
    ReadPrefix(f, 0, 1, 1, "zzz");
    BrokenBody(PrefixOut(f));
    assert line[0] == '(';
    LineFromBodies(line, PrefixOut(f), "zzz");
    PrefixHasStamp(line);
    OneLineWindow(line);
    OneLineStamps(line);
  }

  lemma PrefixHasStamp(line: string)
    requires CommonPrefix(line).ok
    ensures PrefixStamp(line).Some?
  {
  }

  lemma OneLineWindow(line: string)
    requires line != ""
    ensures Window([line], 1) == [line] && [line][..Capped(|[line]|, 1)] == [line]
  {
    assert [line][..0] == [];
    assert NonBlank([line]) == [line];
  }

  lemma OneLineStamps(line: string)
    requires HiddenStamp(line) && line != ""
    ensures FrameStamps(Parsed([line])) == [] && PrefixStamps([line]) != []
  {
    assert [line][..0] == [];
    assert Parsed([line])[..0] == [];
  }

  lemma BrokenBody(out: ParsedLine)
    ensures LogBody(out, "zzz").kind == Malformed && ScreenBody(out, "zzz").kind == Malformed
  {
    ReadLastWord("zzz");
    assert '#' !in "zzz";
    var hash := IndexOf("zzz", '#');
    assert hash.None?;
    assert !IsHex("zzz"[0]);
  }
}
