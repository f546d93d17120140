/** Fresh-name search of the LSL source: topic names and channel labels. */
module LslNames {
  import opened Slices
  import opened Decimal

  datatype StreamKey = StreamKey(name: string, sourceId: string)

  // ----- the numbered candidates of one search -----

  /** The n-th candidate the search tries: the base, then base + sep + "1", "2", ... */
  function Numbered(base: string, sep: string, n: nat): string {
    if n == 0 then base else base + sep + ToString(n)
  }

  lemma NumberedInjective(base: string, sep: string, m: nat, n: nat)
    requires m != n
    ensures Numbered(base, sep, m) != Numbered(base, sep, n)
  {
    if m == 0 || n == 0 {
      assert |Numbered(base, sep, m)| != |Numbered(base, sep, n)|;
    } else {
      var head := base + sep;
      assert ToString(m) == Numbered(base, sep, m)[|head|..];
      assert ToString(n) == Numbered(base, sep, n)[|head|..];
      if ToString(m) == ToString(n) {
        ToStringInjective(m, n);
      }
    }
  }

  /** The used set is finite, so it cannot hold more candidates than it has elements. */
  lemma {:induction false} CandidatesFitUsed(base: string, sep: string, used: set<string>, k: nat)
    requires forall j: nat :: j < k ==> Numbered(base, sep, j) in used
    ensures k <= |used|
  {
    if k > 0 {
      var last := Numbered(base, sep, k - 1);
      forall j: nat | j < k - 1 ensures Numbered(base, sep, j) in used - {last} {
        NumberedInjective(base, sep, j, k - 1);
      }
      CandidatesFitUsed(base, sep, used - {last}, k - 1);
    }
  }

  /** n is the number of the first candidate not yet used. */
  ghost predicate FirstFree(base: string, sep: string, used: set<string>, n: nat) {
    && Numbered(base, sep, n) !in used
    && forall j: nat :: j < n ==> Numbered(base, sep, j) in used
  }

  ghost function FreeNumber(base: string, sep: string, used: set<string>, k: nat): (n: nat)
    requires forall j: nat :: j < k ==> Numbered(base, sep, j) in used
    ensures FirstFree(base, sep, used, n)
    decreases |used| + 1 - k
  {
    CandidatesFitUsed(base, sep, used, k);
    if Numbered(base, sep, k) in used then FreeNumber(base, sep, used, k + 1) else k
  }

  /** What the search returns: the first candidate outside `used`. */
  ghost function FreeName(base: string, sep: string, used: set<string>): (name: string)
    ensures name !in used
  {
    Numbered(base, sep, FreeNumber(base, sep, used, 0))
  }

  lemma FirstFreeIsFreeName(base: string, sep: string, used: set<string>, n: nat)
    requires FirstFree(base, sep, used, n)
    ensures FreeName(base, sep, used) == Numbered(base, sep, n)
  {
    var m := FreeNumber(base, sep, used, 0);
    assert !(m < n) && !(n < m);
  }

  /** The `for (n = 1; !used.insert(name).second; ++n)` loop; it terminates by CandidatesFitUsed. */
  method ClaimName(base: string, sep: string, used: set<string>) returns (name: string)
    ensures name == FreeName(base, sep, used)
  {
    name := base;
    var n := 1;
    while name in used
      invariant n >= 1 && name == Numbered(base, sep, n - 1)
      invariant forall j: nat :: j < n - 1 ==> Numbered(base, sep, j) in used
      decreases |used| + 1 - n
    {
      CandidatesFitUsed(base, sep, used, n);
      name := base + sep + ToString(n);
      n := n + 1;
    }
    FirstFreeIsFreeName(base, sep, used, n - 1);
  }

  // ----- claiming a whole list of names -----

  ghost function Elements(names: seq<string>): set<string> {
    set x | x in names
  }

  lemma NoElements(names: seq<string>)
    requires names == []
    ensures SameValue({}, Elements(names))
  {
    assert Elements(names) == {};
  }

  lemma ElementsGrow(names: seq<string>, name: string)
    ensures SameValue(Elements(names + [name]), Elements(names) + {name})
  {
    assert Elements(names + [name]) == Elements(names) + {name};
  }

  /** Claims one name per base, left to right, each fresh with respect to the ones before it. */
  ghost function ClaimAll(bases: seq<string>, sep: string): (out: seq<string>)
    ensures |out| == |bases|
  {
    if bases == [] then []
    else
      var before := ClaimAll(bases[..|bases| - 1], sep);
      before + [FreeName(bases[|bases| - 1], sep, Elements(before))]
  }

  lemma ClaimAllStep(bases: seq<string>, i: nat, sep: string)
    requires i < |bases|
    ensures var before := ClaimAll(bases[..i], sep);
            ClaimAll(bases[..i + 1], sep) == before + [FreeName(bases[i], sep, Elements(before))]
  {
    PrefixOfPrefix(bases, i + 1, i);
  }

  ghost predicate Distinct(names: seq<string>) {
    forall i, j :: 0 <= i < j < |names| ==> names[i] != names[j]
  }

  lemma {:induction false} ClaimAllDistinct(bases: seq<string>, sep: string)
    ensures Distinct(ClaimAll(bases, sep))
  {
    if bases != [] {
      var before := ClaimAll(bases[..|bases| - 1], sep);
      ClaimAllDistinct(bases[..|bases| - 1], sep);
      var out := ClaimAll(bases, sep);
      forall i, j | 0 <= i < j < |out| ensures out[i] != out[j] {
        if j == |out| - 1 {
          assert before[i] in Elements(before);
        } else {
          assert out[i] == before[i] && out[j] == before[j];
        }
      }
    }
  }

  /** Every claimed name is its own base, possibly numbered: order and origin are kept. */
  lemma {:induction false} ClaimAllKeepsOrder(bases: seq<string>, sep: string, i: nat)
    requires i < |bases|
    ensures exists n: nat :: ClaimAll(bases, sep)[i] == Numbered(bases[i], sep, n)
  {
    var last := |bases| - 1;
    var before := ClaimAll(bases[..last], sep);
    if i == last {
      var n := FreeNumber(bases[last], sep, Elements(before), 0);
      assert ClaimAll(bases, sep)[i] == Numbered(bases[i], sep, n);
    } else {
      ClaimAllKeepsOrder(bases[..last], sep, i);
    }
  }

  lemma {:induction false} ClaimAllPrefix(bases: seq<string>, sep: string, i: nat)
    requires i <= |bases|
    ensures ClaimAll(bases, sep)[..i] == ClaimAll(bases[..i], sep)
  {
    if i == |bases| {
      Whole(bases);
    } else {
      var front := bases[..|bases| - 1];
      ClaimAllPrefix(front, sep, i);
      PrefixOfPrefix(bases, |bases| - 1, i);
    }
  }

  /** A base is claimed unchanged exactly when no earlier claim took it. */
  lemma ClaimedAsIsExactly(bases: seq<string>, sep: string, i: nat)
    requires i < |bases|
    ensures ClaimAll(bases, sep)[i] == bases[i] <==> bases[i] !in ClaimAll(bases, sep)[..i]
  {
    var before := ClaimAll(bases[..i], sep);
    ClaimAllPrefix(bases, sep, i);
    ClaimAllPrefix(bases, sep, i + 1);
    ClaimAllStep(bases, i, sep);
    assert ClaimAll(bases, sep)[..i + 1][i] == FreeName(bases[i], sep, Elements(before));
    if bases[i] !in before {
      assert FirstFree(bases[i], sep, Elements(before), 0);
      FirstFreeIsFreeName(bases[i], sep, Elements(before), 0);
    }
  }

  /** Bases that are already pairwise distinct pass through unchanged. */
  lemma {:induction false} ClaimAllPassesDistinct(bases: seq<string>, sep: string)
    requires Distinct(bases)
    ensures ClaimAll(bases, sep) == bases
  {
    if bases != [] {
      var last := |bases| - 1;
      ClaimAllPassesDistinct(bases[..last], sep);
      assert FirstFree(bases[last], sep, Elements(bases[..last]), 0);
      FirstFreeIsFreeName(bases[last], sep, Elements(bases[..last]), 0);
      assert bases == bases[..last] + [bases[last]];
    }
  }

  // ----- uniqueTopicNames -----

  function NameCount(streams: seq<StreamKey>, name: string): nat {
    if streams == [] then 0
    else NameCount(streams[..|streams| - 1], name) + if streams[|streams| - 1].name == name then 1 else 0
  }

  /** How many of the streams carry this name and no source id. */
  function AnonymousCount(streams: seq<StreamKey>, name: string): nat {
    if streams == [] then 0
    else
      AnonymousCount(streams[..|streams| - 1], name)
      + if streams[|streams| - 1] == StreamKey(name, "") then 1 else 0
  }

  /** The name stream i asks for before the final uniqueness pass. */
  function Candidate(streams: seq<StreamKey>, i: nat): string
    requires i < |streams|
  {
    var s := streams[i];
    if NameCount(streams, s.name) <= 1 then s.name
    else if s.sourceId != "" then s.name + " (" + s.sourceId + ")"
    else s.name + " #" + ToString(AnonymousCount(streams[..i], s.name))
  }

  function Candidates(streams: seq<StreamKey>): seq<string> {
    seq(|streams|, i requires 0 <= i < |streams| => Candidate(streams, i))
  }

  ghost function UniqueNames(streams: seq<StreamKey>): seq<string> {
    ClaimAll(Candidates(streams), " #")
  }

  /** A std::map counter read with operator[]: absent keys read as 0. */
  function Lookup(counts: map<string, nat>, name: string): nat {
    if name in counts then counts[name] else 0
  }

  method CountNames(streams: seq<StreamKey>) returns (counts: map<string, nat>)
    ensures forall x :: Lookup(counts, x) == NameCount(streams, x)
  {
    counts := map[];
    for i := 0 to |streams|
      invariant forall x :: Lookup(counts, x) == NameCount(streams[..i], x)
    {
      var name := streams[i].name;
      ghost var before := counts;
      counts := counts[name := Lookup(counts, name) + 1];
      PrefixOfPrefix(streams, i + 1, i);
      forall x ensures Lookup(counts, x) == NameCount(streams[..i + 1], x) {
        assert Lookup(before, x) == NameCount(streams[..i], x);
      }
    }
    Whole(streams);
  }

  /** The per-name "#<n>" counters after the first i streams: only repeated names use theirs. */
  ghost predicate Counters(dupIndex: map<string, nat>, streams: seq<StreamKey>, i: nat)
    requires i <= |streams|
  {
    forall x :: NameCount(streams, x) > 1 ==> Lookup(dupIndex, x) == AnonymousCount(streams[..i], x)
  }

  lemma CountersStep(dupIndex: map<string, nat>, streams: seq<StreamKey>, i: nat)
    requires i < |streams| && Counters(dupIndex, streams, i)
    ensures var s := streams[i];
            Counters(if NameCount(streams, s.name) > 1 && s.sourceId == ""
                     then dupIndex[s.name := Lookup(dupIndex, s.name) + 1] else dupIndex, streams, i + 1)
  {
    PrefixOfPrefix(streams, i + 1, i);
  }

  /** The if/else chain of one loop round, with the counter it advances. */
  method ChooseCandidate(streams: seq<StreamKey>, i: nat, nameCounts: map<string, nat>, dupIndex: map<string, nat>)
    returns (candidate: string, dupIndex': map<string, nat>)
    requires i < |streams|
    requires forall x :: Lookup(nameCounts, x) == NameCount(streams, x)
    requires Counters(dupIndex, streams, i)
    ensures candidate == Candidate(streams, i)
    ensures Counters(dupIndex', streams, i + 1)
  {
    var s := streams[i];
    CountersStep(dupIndex, streams, i);
    dupIndex' := dupIndex;
    if Lookup(nameCounts, s.name) <= 1 {
      candidate := s.name;
    } else if s.sourceId != "" {
      candidate := s.name + " (" + s.sourceId + ")";
    } else {
      candidate := s.name + " #" + ToString(Lookup(dupIndex, s.name));
      dupIndex' := dupIndex[s.name := Lookup(dupIndex, s.name) + 1];
    }
  }

  method UniqueTopicNames(streams: seq<StreamKey>) returns (out: seq<string>)
    ensures out == UniqueNames(streams)
    ensures |out| == |streams| && Distinct(out)
  {
    var nameCounts := CountNames(streams);
    var dupIndex: map<string, nat> := map[];
    var used: set<string> := {};
    ghost var bases := Candidates(streams);
    out := [];
    NoElements(out);
    for i := 0 to |streams|
      invariant Counters(dupIndex, streams, i)
      invariant Same(out, ClaimAll(bases[..i], " #"))
      invariant SameValue(used, Elements(out))
    {
      var candidate;
      candidate, dupIndex := ChooseCandidate(streams, i, nameCounts, dupIndex);
      ClaimAllStep(bases, i, " #");
      var unique := ClaimName(candidate, " #", used);
      ElementsGrow(out, unique);
      used := used + {unique};
      out := out + [unique];
    }
    Whole(bases);
    ClaimAllDistinct(bases, " #");
  }

  /** Another stream has the same name. */
  ghost predicate IsShared(streams: seq<StreamKey>, i: nat)
    requires i < |streams|
  {
    exists j :: 0 <= j < |streams| && j != i && streams[j].name == streams[i].name
  }

  /** The earlier streams of that name without a source id. */
  function AnonymousBefore(streams: seq<StreamKey>, i: nat, name: string): set<nat> {
    set j: nat | j < i && j < |streams| && streams[j] == StreamKey(name, "")
  }

  lemma {:induction false} AnonymousCountIs(streams: seq<StreamKey>, name: string)
    ensures AnonymousCount(streams, name) == |AnonymousBefore(streams, |streams|, name)|
  {
    if streams == [] {
      assert AnonymousBefore(streams, 0, name) == {};
    } else {
      var front, last := streams[..|streams| - 1], |streams| - 1;
      AnonymousCountIs(front, name);
      assert AnonymousBefore(streams, |streams|, name)
             == AnonymousBefore(front, last, name) + if streams[last] == StreamKey(name, "") then {last} else {};
    }
  }

  lemma {:induction false} NameCountPositive(streams: seq<StreamKey>, name: string)
    ensures NameCount(streams, name) > 0 <==> exists j :: 0 <= j < |streams| && streams[j].name == name
  {
    if streams != [] {
      var front := streams[..|streams| - 1];
      NameCountPositive(front, name);
      if j :| 0 <= j < |front| && front[j].name == name {
        assert streams[j].name == name;
      }
    }
  }

  lemma {:induction false} SharedExactly(streams: seq<StreamKey>, i: nat)
    requires i < |streams|
    ensures NameCount(streams, streams[i].name) > 1 <==> IsShared(streams, i)
  {
    var last := |streams| - 1;
    var front := streams[..last];
    NameCountPositive(front, streams[i].name);
    if i < last {
      NameCountPositive(front, streams[i].name);
      assert front[i].name == streams[i].name;
      SharedExactly(front, i);
      if j :| 0 <= j < |front| && j != i && front[j].name == front[i].name {
        assert streams[j].name == streams[i].name;
      }
      if streams[last].name == streams[i].name {
        assert IsShared(streams, i);
      }
    } else if j :| 0 <= j < |front| && front[j].name == streams[i].name {
      assert streams[j].name == streams[i].name;
    }
  }

  /** The name a stream asks for: its own when no other has it; else with its source id in parentheses; else with the
      number of earlier streams of that name that have no source id either. */
  lemma CandidateExactly(streams: seq<StreamKey>, i: nat)
    requires i < |streams|
    ensures var s := streams[i];
            && (!IsShared(streams, i) ==> Candidate(streams, i) == s.name)
            && (IsShared(streams, i) && s.sourceId != "" ==> Candidate(streams, i) == s.name + " (" + s.sourceId + ")")
            && (IsShared(streams, i) && s.sourceId == "" ==>
                  Candidate(streams, i) == s.name + " #" + ToString(|AnonymousBefore(streams, i, s.name)|))
  {
    SharedExactly(streams, i);
    AnonymousCountIs(streams[..i], streams[i].name);
    assert AnonymousBefore(streams[..i], i, streams[i].name) == AnonymousBefore(streams, i, streams[i].name);
  }

  /** Stream i gets the name it asks for exactly when no earlier stream got that name. */
  lemma PassesThroughExactly(streams: seq<StreamKey>, i: nat)
    requires i < |streams|
    ensures UniqueNames(streams)[i] == Candidate(streams, i)
            <==> Candidate(streams, i) !in UniqueNames(streams)[..i]
    ensures NameCount(streams, streams[i].name) == 1 ==> Candidate(streams, i) == streams[i].name
  {
    ClaimedAsIsExactly(Candidates(streams), " #", i);
  }

  const SUFFIX_LIKE := [StreamKey("a", "x"), StreamKey("a", "y"), StreamKey("a (x)", "")]

  lemma NameCountOfThree(streams: seq<StreamKey>, name: string)
    requires |streams| == 3
    ensures NameCount(streams, name)
            == (if streams[0].name == name then 1 else 0) + (if streams[1].name == name then 1 else 0)
               + if streams[2].name == name then 1 else 0
  {
    assert streams[..2][..1] == streams[..1] && streams[..1][..0] == [];
    assert NameCount(streams[..1], name) == if streams[0].name == name then 1 else 0;
    assert NameCount(streams[..2], name) == NameCount(streams[..1], name) + if streams[1].name == name then 1 else 0;
  }

  lemma SuffixLikeCandidates()
    ensures NameCount(SUFFIX_LIKE, "a (x)") == 1
    ensures Candidates(SUFFIX_LIKE) == ["a (x)", "a (y)", "a (x)"]
  {
    var s := SUFFIX_LIKE;
    assert |"a"| != |"a (x)"|;
    NameCountOfThree(s, "a");
    NameCountOfThree(s, "a (x)");
    assert "a" + " (" + "x" + ")" == "a (x)";
    assert "a" + " (" + "y" + ")" == "a (y)";
  }

  /** A name that occurs once can still be changed: another stream's generated name took it first. */
  lemma SingleNameChanged()
    ensures NameCount(SUFFIX_LIKE, "a (x)") == 1 && UniqueNames(SUFFIX_LIKE)[2] == "a (x) #1"
  {
    var bases := ["a (x)", "a (y)", "a (x)"];
    SuffixLikeCandidates();
    ClaimedAsIsExactly(bases, " #", 0);
    ClaimedAsIsExactly(bases, " #", 1);
    var before := ClaimAll(bases, " #")[..2];
    assert before == ["a (x)", "a (y)"];
    ClaimAllStep(bases, 2, " #");
    ClaimAllPrefix(bases, " #", 2);
    assert bases[..3] == bases;
    NumberedOne("a (x)", " #");
    assert "a (x) #1" !in before && "a (x)" in before;
    assert FirstFree("a (x)", " #", Elements(before), 1);
    FirstFreeIsFreeName("a (x)", " #", Elements(before), 1);
  }

  lemma NumberedOne(base: string, sep: string)
    ensures Numbered(base, sep, 0) == base && Numbered(base, sep, 1) == base + sep + "1"
  {
    assert ToString(1) == "1";
  }

  /** Every stream gets the name it asks for exactly when no two ask for the same. */
  lemma AllPassThroughExactly(streams: seq<StreamKey>)
    ensures UniqueNames(streams) == Candidates(streams) <==> Distinct(Candidates(streams))
  {
    ClaimAllDistinct(Candidates(streams), " #");
    if Distinct(Candidates(streams)) {
      ClaimAllPassesDistinct(Candidates(streams), " #");
    }
  }

  // ----- channelLabels -----

  /** The labels before de-duplication: the i-th channel's text, or "channel_<i>" when it has none. */
  function RawLabels(labels: seq<string>, n: nat): (raw: seq<string>)
    ensures |raw| == n
  {
    seq(n, i requires 0 <= i < n =>
      if i < |labels| && labels[i] != "" then labels[i] else "channel_" + ToString(i))
  }

  /** The labels before i are claimed, in order, and the others are still raw. */
  ghost predicate LabelsDone(out: seq<string>, raw: seq<string>, i: nat, seen: set<string>) {
    && i <= |raw| == |out|
    && (forall j :: i <= j < |raw| ==> out[j] == raw[j])
    && Same(out[..i], ClaimAll(raw[..i], "_"))
    && SameValue(seen, Elements(out[..i]))
  }

  lemma LabelsStep(out: seq<string>, raw: seq<string>, i: nat, seen: set<string>, text: string)
    requires LabelsDone(out, raw, i, seen) && i < |raw| && text == FreeName(out[i], "_", seen)
    ensures LabelsDone(out[i := text], raw, i + 1, seen + {text})
  {
    ClaimAllStep(raw, i, "_");
    BeforeUpdate(out, i, text);
    OneMore(out[i := text], i);
    ElementsGrow(out[..i], text);
  }

  /** `labels` is the label text of each <channel> element in order, "" where it is missing. */
  method ChannelLabels(labels: seq<string>, channelCount: int) returns (out: seq<string>)
    ensures out == ClaimAll(RawLabels(labels, if channelCount < 0 then 0 else channelCount), "_")
    ensures |out| == (if channelCount < 0 then 0 else channelCount) && Distinct(out)
  {
    var n := if channelCount < 0 then 0 else channelCount;
    ghost var raw := RawLabels(labels, n);
    out := [];
    for i := 0 to n
      invariant |out| == i && forall j :: 0 <= j < i ==> out[j] == raw[j]
    {
      var text := "";
      if i < |labels| {
        text := labels[i];
      }
      if text == "" {
        text := "channel_" + ToString(i);
      }
      out := out + [text];
    }
    var seen: set<string> := {};
    NoElements(out[..0]);
    for i := 0 to n
      invariant |out| == n && LabelsDone(out, raw, i, seen)
    {
      var text := ClaimName(out[i], "_", seen);
      LabelsStep(out, raw, i, seen, text);
      out := out[i := text];
      seen := seen + {text};
    }
    Whole(out);
    Whole(raw);
    ClaimAllDistinct(raw, "_");
  }

  /** A channel keeps its label, or "channel_<i>" where it has none, exactly when no earlier channel has taken it;
      otherwise it gets that with "_<n>" behind it. */
  lemma LabelExactly(labels: seq<string>, n: nat, i: nat)
    requires i < n
    ensures var out := ClaimAll(RawLabels(labels, n), "_");
            var text := if i < |labels| && labels[i] != "" then labels[i] else "channel_" + ToString(i);
            && (out[i] == text <==> text !in out[..i])
            && (out[i] != text ==> exists k: nat :: k > 0 && out[i] == text + "_" + ToString(k))
  {
    var raw := RawLabels(labels, n);
    ClaimedAsIsExactly(raw, "_", i);
    ClaimAllKeepsOrder(raw, "_", i);
    var k: nat :| ClaimAll(raw, "_")[i] == Numbered(raw[i], "_", k);
  }
}
