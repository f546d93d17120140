/** Reading the messages of a split recording into the host: push accounting, file-order retry and the outcome. */
module McapImport {
  import opened Slices
  import opened Wrappers
  import opened McapBinding

  const MAX_CONSECUTIVE_PUSH_FAILURES := 100
  const PROGRESS_UPDATE_INTERVAL := 1000

  /** A record of one file; `file` and `offset` identify it. */
  datatype Message = Message(file: nat, offset: nat, channel: nat, hasPayload: bool)

  datatype StatusCode = InvalidChannelId | InvalidSchemaId | OtherProblem

  /** Readers and host outside this model: any answers, as functions of how far the import has come. */
  datatype World = World(
    accepts: nat -> bool, progress: nat -> bool, stopRequested: nat -> bool)

  /** One file: what either reader yields, and how each scan ends after that many pushes in all. */
  datatype Source = Source(
    messageIndexLengths: seq<nat>, indexed: seq<Message>, indexedOk: nat -> bool, ordered: seq<Message>,
    problems: nat -> seq<StatusCode>)

  datatype Offer = Offer(message: Message, handle: Handle, accepted: bool)

  /** The import's counters, with the log of everything offered to the host. `halted`: the last push said stop. */
  datatype Run = Run(
    log: seq<Offer>, pushed: nat, accepted: nat, failures: nat, aborted: bool, halted: bool, stopped: bool,
    viewOk: bool)

  const START_RUN := Run([], 0, 0, 0, false, false, false, true)

  // ----- the helpers -----

  predicate LacksMessageIndexes(lengths: seq<nat>) {
    lengths == [] || forall i :: 0 <= i < |lengths| ==> lengths[i] == 0
  }

  predicate ProblemIsTerminal(code: StatusCode) {
    code != InvalidChannelId && code != InvalidSchemaId
  }

  /** The status of a file-order scan: bad when some reported problem ends the scan. */
  predicate ProblemsOk(problems: seq<StatusCode>) {
    forall i :: 0 <= i < |problems| ==> !ProblemIsTerminal(problems[i])
  }

  predicate ShouldRetryInFileOrder(viewOk: bool, pushed: nat, accepted: nat, stopRequested: bool) {
    !viewOk && !stopRequested && pushed == 0 && accepted == 0
  }

  datatype Outcome = Success | Partial | Failure

  function ClassifyImportOutcome(viewOk: bool, pushed: nat, accepted: nat, stopRequested: bool): Outcome {
    if stopRequested then Success
    else if accepted > 0 then if viewOk then Success else Partial
    else if !viewOk || pushed > 0 then Failure else Success
  }

  // ----- one push, one scan, one file -----

  predicate Pushable(bindings: map<nat, Handle>, m: Message) {
    m.hasPayload && m.channel in bindings
  }

  /** The host's answer is logged and counted … */
  function Offered(w: World, s: Run, m: Message, h: Handle): Run {
    var ok := w.accepts(|s.log|);
    s.(log := s.log + [Offer(m, h, ok)],
       failures := if ok then 0 else s.failures + 1,
       accepted := s.accepted + if ok then 1 else 0)
  }

  /** … and so is the message, which may bring a progress update. */
  function Counted(w: World, s: Run): Run {
    var n := s.pushed + 1;
    s.(pushed := n,
       halted := s.halted || (n % PROGRESS_UPDATE_INTERVAL == 0 && (!w.progress(n) || w.stopRequested(|s.log|))))
  }

  function Push(w: World, bindings: map<nat, Handle>, s: Run, m: Message): Run {
    if !Pushable(bindings, m) then s
    else
      var t := Offered(w, s, m, bindings[m.channel]);
      if t.failures >= MAX_CONSECUTIVE_PUSH_FAILURES then t.(aborted := true, halted := true) else Counted(w, t)
  }

  /** After the first k messages of a scan, unless a push said stop. */
  function Scan(w: World, bindings: map<nat, Handle>, s: Run, messages: seq<Message>, k: nat): Run {
    if k == 0 || k > |messages| then s.(halted := false)
    else
      var before := Scan(w, bindings, s, messages, k - 1);
      if before.halted then before else Push(w, bindings, before, messages[k - 1])
  }

  /** A whole scan; a push that said stop stops the recording. */
  function ScanAll(w: World, bindings: map<nat, Handle>, s: Run, messages: seq<Message>): Run {
    var t := Scan(w, bindings, s, messages, |messages|);
    t.(stopped := t.stopped || t.halted)
  }

  function Indexed(w: World, bindings: map<nat, Handle>, s: Run, f: Source): Run {
    ScanAll(w, bindings, s, f.indexed)
  }

  function Ordered(w: World, bindings: map<nat, Handle>, s: Run, f: Source): Run {
    var t := ScanAll(w, bindings, s, f.ordered);
    t.(viewOk := t.viewOk && ProblemsOk(f.problems(|t.log|)))
  }

  /** The indexed read failed with nothing counted for this file, and nobody asked to stop. */
  predicate Retries(w: World, bindings: map<nat, Handle>, s: Run, f: Source) {
    var t := Indexed(w, bindings, s, f);
    t.pushed >= s.pushed && t.accepted >= s.accepted
    && ShouldRetryInFileOrder(f.indexedOk(|t.log|), t.pushed - s.pushed, t.accepted - s.accepted,
                              w.stopRequested(|t.log|))
  }

  function ReadFile(w: World, bindings: map<nat, Handle>, s: Run, f: Source): Run {
    if LacksMessageIndexes(f.messageIndexLengths) then Ordered(w, bindings, s, f)
    else
      var t := Indexed(w, bindings, s, f);
      if Retries(w, bindings, s, f) then Ordered(w, bindings, t, f)
      else t.(viewOk := t.viewOk && f.indexedOk(|t.log|))
  }

  /** After the first n files, unless a push stopped the recording. */
  function ReadFiles(w: World, perFile: seq<map<nat, Handle>>, files: seq<Source>, n: nat): Run {
    if n == 0 || n > |files| || n > |perFile| then START_RUN
    else
      var before := ReadFiles(w, perFile, files, n - 1);
      if before.stopped || perFile[n - 1] == map[] then before
      else ReadFile(w, perFile[n - 1], before, files[n - 1])
  }

  // ----- the import object -----

  datatype Result = NothingBound | PushFailures | Finished(outcome: Outcome)

  /** The variables the push callback shares with the read loop. */
  class Importer {
    const world: World
    var pushed: nat
    var accepted: nat
    var failures: nat
    var aborted: bool
    var stopped: bool
    var viewOk: bool
    ghost var halted: bool
    ghost var log: seq<Offer>
    var offers: nat

    ghost predicate Valid()
      reads this
    {
      offers == |log|
    }

    ghost function State(): Run
      reads this
    {
      Run(log, pushed, accepted, failures, aborted, halted, stopped, viewOk)
    }

    constructor (w: World)
      ensures Valid() && State() == START_RUN && world == w
    {
      world := w;
      pushed, accepted, failures, aborted, stopped, viewOk, halted, log, offers :=
        0, 0, 0, false, false, true, false, [], 0;
    }

    /** push_message: true to go on. */
    method PushMessage(bindings: map<nat, Handle>, m: Message) returns (goOn: bool)
      requires Valid() && !halted
      modifies this
      ensures Valid() && State() == Push(world, bindings, old(State()), m)
      ensures goOn <==> !halted
    {
      if !m.hasPayload || m.channel !in bindings {
        return true;
      }
      var ok := world.accepts(offers);
      log := log + [Offer(m, bindings[m.channel], ok)];
      offers := offers + 1;
      if !ok {
        failures := failures + 1;
        if failures >= MAX_CONSECUTIVE_PUSH_FAILURES {
          aborted := true;
          halted := true;
          return false;
        }
      } else {
        failures := 0;
        accepted := accepted + 1;
      }
      pushed := pushed + 1;
      if pushed % PROGRESS_UPDATE_INTERVAL == 0 {
        if !world.progress(pushed) || world.stopRequested(offers) {
          halted := true;
          return false;
        }
      }
      return true;
    }

    method ReadMessages(bindings: map<nat, Handle>, messages: seq<Message>)
      requires Valid()
      modifies this
      ensures Valid() && State() == ScanAll(world, bindings, old(State()), messages)
    {
      halted := false;
      ghost var s := old(State());
      for k := 0 to |messages|
        invariant Valid() && !halted && State() == Scan(world, bindings, s, messages, k)
      {
        var goOn := PushMessage(bindings, messages[k]);
        if !goOn {
          HaltEnds(world, bindings, s, messages, k + 1, |messages|);
          stopped := true;
          break;
        }
      }
    }

    /** One file, with the retry. */
    method ReadOneFile(bindings: map<nat, Handle>, f: Source)
      requires Valid()
      modifies this
      ensures Valid() && State() == ReadFile(world, bindings, old(State()), f)
    {
      ghost var s := old(State());
      var pushedBefore, acceptedBefore := pushed, accepted;
      var ok;
      if LacksMessageIndexes(f.messageIndexLengths) {
        ReadMessages(bindings, f.ordered);
        ok := ProblemsOk(f.problems(offers));
      } else {
        ReadMessages(bindings, f.indexed);
        ok := f.indexedOk(offers);
        ScanCounts(world, bindings, s, f.indexed, |f.indexed|);
        if ShouldRetryInFileOrder(ok, pushed - pushedBefore, accepted - acceptedBefore, world.stopRequested(offers)) {
          ReadMessages(bindings, f.ordered);
          ok := ProblemsOk(f.problems(offers));
        }
      }
      if !ok && viewOk {
        viewOk := false;
      }
    }

    /** The file loop and the verdict. */
    method ImportData(perFile: seq<map<nat, Handle>>, anyBinding: bool, files: seq<Source>) returns (r: Result)
      requires Valid() && State() == START_RUN && |perFile| == |files|
      modifies this
      ensures Valid()
      ensures !anyBinding ==> r == NothingBound && State() == START_RUN
      ensures anyBinding ==> State() == ReadFiles(world, perFile, files, |files|)
      ensures anyBinding ==> r == Verdict(world, State())
    {
      if !anyBinding {
        return NothingBound;
      }
      for n := 0 to |files|
        invariant Valid() && State() == ReadFiles(world, perFile, files, n)
      {
        if stopped {
          StopEnds(world, perFile, files, n, |files|);
          break;
        }
        if perFile[n] != map[] {
          ReadOneFile(perFile[n], files[n]);
        }
      }
      if aborted {
        return PushFailures;
      }
      return Finished(ClassifyImportOutcome(viewOk, pushed, accepted, world.stopRequested(offers)));
    }
  }

  function Verdict(w: World, s: Run): Result {
    if s.aborted then PushFailures
    else Finished(ClassifyImportOutcome(s.viewOk, s.pushed, s.accepted, w.stopRequested(|s.log|)))
  }

  lemma {:induction false} HaltEnds(
      w: World, bindings: map<nat, Handle>, s: Run, messages: seq<Message>, j: nat, k: nat)
    requires j <= k <= |messages| && Scan(w, bindings, s, messages, j).halted
    ensures Scan(w, bindings, s, messages, k) == Scan(w, bindings, s, messages, j)
  {
    if j < k {
      HaltEnds(w, bindings, s, messages, j, k - 1);
    }
  }

  lemma {:induction false} StopEnds(w: World, perFile: seq<map<nat, Handle>>, files: seq<Source>, m: nat, n: nat)
    requires m <= n <= |files| == |perFile| && ReadFiles(w, perFile, files, m).stopped
    ensures ReadFiles(w, perFile, files, n) == ReadFiles(w, perFile, files, m)
  {
    if m < n {
      StopEnds(w, perFile, files, m, n - 1);
    }
  }

  // ----- the log explains the counters -----

  function Accepted(log: seq<Offer>): seq<Message> {
    if log == [] then []
    else Accepted(log[..|log| - 1]) + if log[|log| - 1].accepted then [log[|log| - 1].message] else []
  }

  /** Length of the run of rejected offers at the end of the log. */
  function Rejections(log: seq<Offer>): nat {
    if log == [] || log[|log| - 1].accepted then 0 else Rejections(log[..|log| - 1]) + 1
  }

  /** How many offers were a hundredth or later rejection in a row. */
  function Overruns(log: seq<Offer>): nat {
    if log == [] then 0
    else Overruns(log[..|log| - 1]) + if Rejections(log) >= MAX_CONSECUTIVE_PUSH_FAILURES then 1 else 0
  }

  /** Every counter is a function of the log: accepted offers, offers short of an abort, rejections in a row; and the
      import is aborted exactly when a hundred offers in a row were rejected. */
  ghost predicate Accounted(s: Run) {
    && s.accepted == |Accepted(s.log)|
    && s.failures == Rejections(s.log)
    && s.pushed + Overruns(s.log) == |s.log|
    && (s.aborted <==> Overruns(s.log) > 0)
  }

  lemma LogGrows(log: seq<Offer>, o: Offer)
    ensures var all := log + [o];
            && Accepted(all) == Accepted(log) + (if o.accepted then [o.message] else [])
            && Rejections(all) == (if o.accepted then 0 else Rejections(log) + 1)
            && Overruns(all) == Overruns(log) + (if Rejections(all) >= MAX_CONSECUTIVE_PUSH_FAILURES then 1 else 0)
  {
    CutConcat(log, [o]);
  }

  lemma OfferedAccounted(w: World, s: Run, m: Message, h: Handle)
    requires Accounted(s)
    ensures var t := Offered(w, s, m, h);
            && t.accepted == |Accepted(t.log)| && t.failures == Rejections(t.log)
            && t.pushed == s.pushed && t.aborted == s.aborted
            && (if t.failures >= MAX_CONSECUTIVE_PUSH_FAILURES
                then t.pushed + Overruns(t.log) == |t.log| && Overruns(t.log) > 0
                else t.pushed + 1 + Overruns(t.log) == |t.log| && Overruns(t.log) == Overruns(s.log))
  {
    LogGrows(s.log, Offer(m, h, w.accepts(|s.log|)));
  }

  lemma PushAccounted(w: World, bindings: map<nat, Handle>, s: Run, m: Message)
    requires Accounted(s)
    ensures Accounted(Push(w, bindings, s, m))
  {
    if Pushable(bindings, m) {
      OfferedAccounted(w, s, m, bindings[m.channel]);
    }
  }

  /** A rejected offer is the only kind an abort leaves uncounted. */
  lemma {:induction false} AcceptedAtMostAll(log: seq<Offer>)
    ensures |Accepted(log)| + Overruns(log) <= |log|
  {
    if log != [] {
      AcceptedAtMostAll(log[..|log| - 1]);
    }
  }

  lemma {:induction false} ScanAccounted(w: World, bindings: map<nat, Handle>, s: Run, messages: seq<Message>, k: nat)
    requires Accounted(s) && k <= |messages|
    ensures Accounted(Scan(w, bindings, s, messages, k))
  {
    if k > 0 {
      ScanAccounted(w, bindings, s, messages, k - 1);
      PushAccounted(w, bindings, Scan(w, bindings, s, messages, k - 1), messages[k - 1]);
    }
  }

  lemma ScanAllAccounted(w: World, bindings: map<nat, Handle>, s: Run, messages: seq<Message>)
    requires Accounted(s)
    ensures Accounted(ScanAll(w, bindings, s, messages))
  {
    ScanAccounted(w, bindings, s, messages, |messages|);
  }

  lemma FileAccounted(w: World, bindings: map<nat, Handle>, s: Run, f: Source)
    requires Accounted(s)
    ensures Accounted(ReadFile(w, bindings, s, f))
  {
    if LacksMessageIndexes(f.messageIndexLengths) {
      ScanAllAccounted(w, bindings, s, f.ordered);
    } else {
      ScanAllAccounted(w, bindings, s, f.indexed);
      if Retries(w, bindings, s, f) {
        ScanAllAccounted(w, bindings, Indexed(w, bindings, s, f), f.ordered);
      }
    }
  }

  /** Throughout the import the counters are those of the log, so accepted never exceeds pushed. */
  lemma {:induction false} ImportAccounted(w: World, perFile: seq<map<nat, Handle>>, files: seq<Source>, n: nat)
    requires n <= |files| == |perFile|
    ensures var s := ReadFiles(w, perFile, files, n);
            Accounted(s) && s.accepted <= s.pushed
  {
    AcceptedAtMostAll(ReadFiles(w, perFile, files, n).log);
    if n > 0 {
      ImportAccounted(w, perFile, files, n - 1);
      FileAccounted(w, perFile[n - 1], ReadFiles(w, perFile, files, n - 1), files[n - 1]);
    }
  }

  // ----- how the reads ended -----

  /** The status a file is left with: that of its last scan. */
  predicate EndedOk(w: World, bindings: map<nat, Handle>, s: Run, f: Source) {
    if LacksMessageIndexes(f.messageIndexLengths) then
      ProblemsOk(f.problems(|ScanAll(w, bindings, s, f.ordered).log|))
    else
      var t := Indexed(w, bindings, s, f);
      if Retries(w, bindings, s, f) then ProblemsOk(f.problems(|ScanAll(w, bindings, t, f.ordered).log|))
      else f.indexedOk(|t.log|)
  }

  lemma {:induction false} ScanKeepsView(w: World, bindings: map<nat, Handle>, s: Run, messages: seq<Message>, k: nat)
    requires k <= |messages|
    ensures Scan(w, bindings, s, messages, k).viewOk == s.viewOk
  {
    if k > 0 {
      ScanKeepsView(w, bindings, s, messages, k - 1);
    }
  }

  lemma FileView(w: World, bindings: map<nat, Handle>, s: Run, f: Source)
    ensures ReadFile(w, bindings, s, f).viewOk <==> s.viewOk && EndedOk(w, bindings, s, f)
  {
    if LacksMessageIndexes(f.messageIndexLengths) {
      ScanKeepsView(w, bindings, s, f.ordered, |f.ordered|);
    } else {
      ScanKeepsView(w, bindings, s, f.indexed, |f.indexed|);
      ScanKeepsView(w, bindings, Indexed(w, bindings, s, f), f.ordered, |f.ordered|);
    }
  }

  /** File k is read: it has bound channels, and no push stopped the recording before it. */
  predicate IsRead(w: World, perFile: seq<map<nat, Handle>>, files: seq<Source>, k: nat)
    requires k < |files| == |perFile|
  {
    !ReadFiles(w, perFile, files, k).stopped && perFile[k] != map[]
  }

  /** Among the first n files, every one that is read ends with an ok status, after its retry if it has one. */
  ghost predicate AllEndedOk(w: World, perFile: seq<map<nat, Handle>>, files: seq<Source>, n: nat)
    requires n <= |files| == |perFile|
  {
    n > 0 ==>
      && AllEndedOk(w, perFile, files, n - 1)
      && (IsRead(w, perFile, files, n - 1) ==>
            EndedOk(w, perFile[n - 1], ReadFiles(w, perFile, files, n - 1), files[n - 1]))
  }

  lemma {:induction false} EachEndedOk(w: World, perFile: seq<map<nat, Handle>>, files: seq<Source>, k: nat, n: nat)
    requires k < n <= |files| == |perFile| && AllEndedOk(w, perFile, files, n) && IsRead(w, perFile, files, k)
    ensures EndedOk(w, perFile[k], ReadFiles(w, perFile, files, k), files[k])
  {
    if k < n - 1 {
      EachEndedOk(w, perFile, files, k, n - 1);
    }
  }

  /** The status of the recording is ok exactly when that of every file read is. */
  lemma {:induction false} ViewExactly(w: World, perFile: seq<map<nat, Handle>>, files: seq<Source>, n: nat)
    requires n <= |files| == |perFile|
    ensures ReadFiles(w, perFile, files, n).viewOk <==> AllEndedOk(w, perFile, files, n)
  {
    if n > 0 {
      var k := n - 1;
      ViewExactly(w, perFile, files, k);
      FileView(w, perFile[k], ReadFiles(w, perFile, files, k), files[k]);
    }
  }

  /** A hundred rejections in a row, up to some point of the log. */
  ghost predicate HundredRejected(log: seq<Offer>, n: nat) {
    100 <= n <= |log| && forall i :: n - 100 <= i < n ==> !log[i].accepted
  }

  lemma {:induction false} RejectionsAre(log: seq<Offer>)
    ensures Rejections(log) <= |log| && forall i :: |log| - Rejections(log) <= i < |log| ==> !log[i].accepted
    ensures Rejections(log) < |log| ==> log[|log| - Rejections(log) - 1].accepted
  {
    if log != [] && !log[|log| - 1].accepted {
      RejectionsAre(log[..|log| - 1]);
    }
  }

  /** The import is aborted exactly when a hundred offers in a row were rejected. */
  lemma {:induction false} AbortedExactly(log: seq<Offer>)
    ensures Overruns(log) > 0 <==> exists n: nat :: HundredRejected(log, n)
  {
    if log != [] {
      var front := log[..|log| - 1];
      AbortedExactly(front);
      RejectionsAre(log);
      if n: nat :| HundredRejected(front, n) {
        assert HundredRejected(log, n);
      }
      if n: nat :| HundredRejected(log, n) {
        if n < |log| {
          assert HundredRejected(front, n);
        } else if Rejections(log) < 100 {
          assert log[|log| - Rejections(log) - 1].accepted;
        }
      }
      if Rejections(log) >= 100 {
        assert HundredRejected(log, |log|);
      }
    }
  }

  /** A push stops the scan exactly at the hundredth rejection in a row, or when it is a multiple of a thousand and
      the progress callback or the host says so. */
  lemma PushStopsExactly(w: World, bindings: map<nat, Handle>, s: Run, m: Message)
    requires !s.halted
    ensures Push(w, bindings, s, m).halted <==>
            && m.hasPayload && m.channel in bindings
            && if !w.accepts(|s.log|) && s.failures + 1 >= 100 then true
               else (s.pushed + 1) % 1000 == 0 && (!w.progress(s.pushed + 1) || w.stopRequested(|s.log| + 1))
  {
  }

  /** Problems with single channels or schemas only, which do not end a scan. */
  ghost predicate AreHarmless(problems: seq<StatusCode>) {
    forall i :: 0 <= i < |problems| ==> problems[i] == InvalidChannelId || problems[i] == InvalidSchemaId
  }

  /** What a file leaves: the log, and the status of its last scan joined to that of the files before. */
  ghost predicate Leaves(before: Run, after: Run, log: seq<Offer>, endedOk: bool) {
    after.log == log && (after.viewOk <==> before.viewOk && endedOk)
  }

  /** A file without message indexes is read in file order; any other by its index, and again in file order exactly
      when that read failed with nothing pushed of the file, nothing accepted, and no stop requested. A read in file
      order ends well when it met harmless problems only. */
  lemma FileReadExactly(w: World, bindings: map<nat, Handle>, s: Run, f: Source)
    ensures var indexed, ordered := ScanAll(w, bindings, s, f.indexed), ScanAll(w, bindings, s, f.ordered);
            var after, retried := ReadFile(w, bindings, s, f), ScanAll(w, bindings, indexed, f.ordered);
            if forall i :: 0 <= i < |f.messageIndexLengths| ==> f.messageIndexLengths[i] == 0
            then Leaves(s, after, ordered.log, AreHarmless(f.problems(|ordered.log|)))
            else if && !f.indexedOk(|indexed.log|) && !w.stopRequested(|indexed.log|)
                    && indexed.pushed == s.pushed && indexed.accepted == s.accepted
            then Leaves(s, after, retried.log, AreHarmless(f.problems(|retried.log|)))
            else Leaves(s, after, indexed.log, f.indexedOk(|indexed.log|))
  {
    ScanCounts(w, bindings, s, f.indexed, |f.indexed|);
    FileView(w, bindings, s, f);
    HarmlessExactly(f.problems(|ScanAll(w, bindings, s, f.ordered).log|));
    HarmlessExactly(f.problems(|ScanAll(w, bindings, Indexed(w, bindings, s, f), f.ordered).log|));
  }

  lemma HarmlessExactly(problems: seq<StatusCode>)
    ensures ProblemsOk(problems) <==> AreHarmless(problems)
  {
    if ProblemsOk(problems) {
      forall i | 0 <= i < |problems| ensures problems[i] == InvalidChannelId || problems[i] == InvalidSchemaId {
        assert !ProblemIsTerminal(problems[i]);
      }
    }
  }

  /** The verdict's exact conditions, `endedOk` being the status of the recording. */
  ghost predicate IsVerdict(r: Result, log: seq<Offer>, endedOk: bool) {
    var aborted, some := Overruns(log) > 0, Accepted(log) != [];
    && (r == PushFailures <==> aborted)
    && (r == Finished(Success) <==> !aborted && endedOk && (some || log == []))
    && (r == Finished(Partial) <==> !aborted && !endedOk && some)
    && (r == Finished(Failure) <==> !aborted && !some && (!endedOk || log != []))
  }

  lemma VerdictOf(w: World, s: Run)
    requires Accounted(s) && !w.stopRequested(|s.log|)
    ensures IsVerdict(Verdict(w, s), s.log, s.viewOk)
  {
  }

  /** The verdict in terms of what happened: an uncancelled success means that every file read ended well, and
      something was accepted or nothing was offered. */
  lemma VerdictExactly(w: World, perFile: seq<map<nat, Handle>>, files: seq<Source>)
    requires |files| == |perFile| && !w.stopRequested(|ReadFiles(w, perFile, files, |files|).log|)
    ensures var s := ReadFiles(w, perFile, files, |files|);
            IsVerdict(Verdict(w, s), s.log, AllEndedOk(w, perFile, files, |files|))
  {
    ImportAccounted(w, perFile, files, |files|);
    ViewExactly(w, perFile, files, |files|);
    VerdictOf(w, ReadFiles(w, perFile, files, |files|));
  }

  lemma {:induction false} ScanCounts(w: World, bindings: map<nat, Handle>, s: Run, messages: seq<Message>, k: nat)
    requires k <= |messages|
    ensures var t := Scan(w, bindings, s, messages, k);
            t.pushed >= s.pushed && t.accepted >= s.accepted && s.log <= t.log
  {
    if k > 0 {
      ScanCounts(w, bindings, s, messages, k - 1);
    }
  }

  // ----- nothing is accepted twice -----

  ghost predicate NoRepeat(messages: seq<Message>) {
    forall i, j :: 0 <= i < j < |messages| ==> messages[i] != messages[j]
  }

  ghost predicate AllOfFile(messages: seq<Message>, file: nat) {
    forall i :: 0 <= i < |messages| ==> messages[i].file == file
  }

  ghost predicate NoneOfFile(messages: seq<Message>, file: nat) {
    forall i :: 0 <= i < |messages| ==> messages[i].file != file
  }

  /** A reader yields each record of its file at most once per scan. */
  ghost predicate YieldsOnce(f: Source, file: nat) {
    NoRepeat(f.indexed) && AllOfFile(f.indexed, file) && NoRepeat(f.ordered) && AllOfFile(f.ordered, file)
  }

  /** Everything accepted is from an earlier run or from the first k messages of the scan, without repetition. */
  ghost predicate OnceSoFar(before: seq<Message>, messages: seq<Message>, k: nat, accepted: seq<Message>)
    requires k <= |messages|
  {
    NoRepeat(accepted)
    && forall i :: 0 <= i < |accepted| ==> accepted[i] in before || accepted[i] in messages[..k]
  }

  lemma OnceStep(before: seq<Message>, messages: seq<Message>, k: nat, accepted: seq<Message>, file: nat)
    requires k < |messages| && OnceSoFar(before, messages, k, accepted)
    requires NoRepeat(messages) && AllOfFile(messages, file) && NoneOfFile(before, file)
    ensures OnceSoFar(before, messages, k + 1, accepted)
    ensures OnceSoFar(before, messages, k + 1, accepted + [messages[k]])
  {
    OneMore(messages, k);
    forall i | 0 <= i < |accepted| ensures accepted[i] != messages[k] {
      if accepted[i] in messages[..k] {
        var j :| 0 <= j < k && messages[..k][j] == accepted[i];
        assert messages[j] != messages[k];
      }
    }
  }

  lemma PushAccepts(w: World, bindings: map<nat, Handle>, s: Run, m: Message)
    ensures var before, after := Accepted(s.log), Accepted(Push(w, bindings, s, m).log);
            after == before || after == before + [m]
    ensures var t := Push(w, bindings, s, m);
            t.accepted >= s.accepted && (t.accepted == s.accepted ==> Accepted(t.log) == Accepted(s.log))
  {
    if Pushable(bindings, m) {
      LogGrows(s.log, Offer(m, bindings[m.channel], w.accepts(|s.log|)));
    }
  }

  lemma ScanAccepts(w: World, bindings: map<nat, Handle>, s: Run, messages: seq<Message>, k: nat)
    requires 0 < k <= |messages|
    ensures var before := Accepted(Scan(w, bindings, s, messages, k - 1).log);
            var after := Accepted(Scan(w, bindings, s, messages, k).log);
            after == before || after == before + [messages[k - 1]]
  {
    PushAccepts(w, bindings, Scan(w, bindings, s, messages, k - 1), messages[k - 1]);
  }

  lemma {:induction false} ScanOnce(
      w: World, bindings: map<nat, Handle>, s: Run, messages: seq<Message>, k: nat, file: nat)
    requires k <= |messages| && NoRepeat(messages) && AllOfFile(messages, file)
    requires NoRepeat(Accepted(s.log)) && NoneOfFile(Accepted(s.log), file)
    ensures OnceSoFar(Accepted(s.log), messages, k, Accepted(Scan(w, bindings, s, messages, k).log))
  {
    if k > 0 {
      ScanOnce(w, bindings, s, messages, k - 1, file);
      OnceStep(Accepted(s.log), messages, k - 1, Accepted(Scan(w, bindings, s, messages, k - 1).log), file);
      ScanAccepts(w, bindings, s, messages, k);
    }
  }

  ghost predicate OnlyEarlier(messages: seq<Message>, file: nat) {
    forall i :: 0 <= i < |messages| ==> messages[i].file < file
  }

  lemma WholeScanOnce(w: World, bindings: map<nat, Handle>, s: Run, messages: seq<Message>, file: nat)
    requires NoRepeat(messages) && AllOfFile(messages, file)
    requires NoRepeat(Accepted(s.log)) && OnlyEarlier(Accepted(s.log), file)
    ensures var t := ScanAll(w, bindings, s, messages);
            NoRepeat(Accepted(t.log)) && OnlyEarlier(Accepted(t.log), file + 1)
  {
    ScanOnce(w, bindings, s, messages, |messages|, file);
  }

  /** Equal accepted counts mean that a scan accepted nothing. */
  lemma {:induction false} ScanAcceptedNothing(
      w: World, bindings: map<nat, Handle>, s: Run, messages: seq<Message>, k: nat)
    requires k <= |messages|
    ensures var t := Scan(w, bindings, s, messages, k);
            t.accepted >= s.accepted && (t.accepted == s.accepted ==> Accepted(t.log) == Accepted(s.log))
  {
    if k > 0 {
      ScanAcceptedNothing(w, bindings, s, messages, k - 1);
      PushAccepts(w, bindings, Scan(w, bindings, s, messages, k - 1), messages[k - 1]);
    }
  }

  lemma FileOnce(w: World, bindings: map<nat, Handle>, s: Run, f: Source, file: nat)
    requires YieldsOnce(f, file) && NoRepeat(Accepted(s.log)) && OnlyEarlier(Accepted(s.log), file)
    ensures var t := ReadFile(w, bindings, s, f);
            NoRepeat(Accepted(t.log)) && OnlyEarlier(Accepted(t.log), file + 1)
  {
    if LacksMessageIndexes(f.messageIndexLengths) {
      WholeScanOnce(w, bindings, s, f.ordered, file);
    } else {
      WholeScanOnce(w, bindings, s, f.indexed, file);
      if Retries(w, bindings, s, f) {
        ScanAcceptedNothing(w, bindings, s, f.indexed, |f.indexed|);
        WholeScanOnce(w, bindings, Indexed(w, bindings, s, f), f.ordered, file);
      }
    }
  }

  lemma {:induction false} FilesOnce(w: World, perFile: seq<map<nat, Handle>>, files: seq<Source>, n: nat)
    requires n <= |files| == |perFile| && forall f :: 0 <= f < |files| ==> YieldsOnce(files[f], f)
    ensures var s := ReadFiles(w, perFile, files, n);
            NoRepeat(Accepted(s.log)) && OnlyEarlier(Accepted(s.log), n)
  {
    if n > 0 {
      FilesOnce(w, perFile, files, n - 1);
      FileOnce(w, perFile[n - 1], ReadFiles(w, perFile, files, n - 1), files[n - 1], n - 1);
    }
  }

  lemma {:induction false} OfferIsAccepted(log: seq<Offer>, i: nat)
    requires i < |log| && log[i].accepted
    ensures log[i].message in Accepted(log)
  {
    if i < |log| - 1 {
      OfferIsAccepted(log[..|log| - 1], i);
    }
  }

  lemma {:induction false} AcceptedOffersDiffer(log: seq<Offer>, i: nat, j: nat)
    requires i < j < |log| && log[i].accepted && log[j].accepted && NoRepeat(Accepted(log))
    ensures log[i].message != log[j].message
  {
    var front, a := log[..|log| - 1], Accepted(log[..|log| - 1]);
    assert NoRepeat(a) by {
      assert forall x :: 0 <= x < |a| ==> a[x] == Accepted(log)[x];
    }
    if j < |log| - 1 {
      AcceptedOffersDiffer(front, i, j);
    } else {
      OfferIsAccepted(front, i);
      var x :| 0 <= x < |a| && a[x] == log[i].message;
      assert Accepted(log)[x] != Accepted(log)[|a|];
    }
  }

  /** No message of any file is accepted by the host twice, retries included. */
  lemma AcceptedAtMostOnce(w: World, perFile: seq<map<nat, Handle>>, files: seq<Source>, i: nat, j: nat)
    requires |files| == |perFile| && forall f :: 0 <= f < |files| ==> YieldsOnce(files[f], f)
    requires var log := ReadFiles(w, perFile, files, |files|).log;
             i < j < |log| && log[i].accepted && log[j].accepted
    ensures var log := ReadFiles(w, perFile, files, |files|).log;
            log[i].message != log[j].message
  {
    FilesOnce(w, perFile, files, |files|);
    AcceptedOffersDiffer(ReadFiles(w, perFile, files, |files|).log, i, j);
  }

  // ----- nothing is left out -----

  /** The messages among the first k of a scan that the import would push, in order. */
  function Bound(bindings: map<nat, Handle>, messages: seq<Message>, k: nat): seq<Message> {
    if k == 0 || k > |messages| then []
    else Bound(bindings, messages, k - 1) + if Pushable(bindings, messages[k - 1]) then [messages[k - 1]] else []
  }

  function Messages(log: seq<Offer>): (r: seq<Message>)
    ensures |r| == |log|
    ensures forall i :: 0 <= i < |log| ==> r[i] == log[i].message
  {
    seq(|log|, i requires 0 <= i < |log| => log[i].message)
  }

  lemma MessagesGrow(log: seq<Offer>, o: Offer)
    ensures Messages(log + [o]) == Messages(log) + [o.message]
  {
  }

  lemma {:induction false} BoundGrows(bindings: map<nat, Handle>, messages: seq<Message>, j: nat, k: nat)
    requires j <= k <= |messages|
    ensures Bound(bindings, messages, j) <= Bound(bindings, messages, k)
  {
    if j < k {
      BoundGrows(bindings, messages, j, k - 1);
    }
  }

  /** A scan offers its bound messages in order, all of them unless a push says stop. */
  lemma {:induction false} ScanOffers(w: World, bindings: map<nat, Handle>, s: Run, messages: seq<Message>, k: nat)
    returns (j: nat)
    requires k <= |messages|
    ensures j <= k && (Scan(w, bindings, s, messages, k).halted || j == k)
    ensures Messages(Scan(w, bindings, s, messages, k).log) == Messages(s.log) + Bound(bindings, messages, j)
  {
    if k == 0 {
      j := 0;
    } else {
      j := ScanOffers(w, bindings, s, messages, k - 1);
      var before, m := Scan(w, bindings, s, messages, k - 1), messages[k - 1];
      if !before.halted {
        j := k;
        if Pushable(bindings, m) {
          MessagesGrow(before.log, Offer(m, bindings[m.channel], w.accepts(|before.log|)));
        }
      }
    }
  }

  /** The host takes everything and never asks to stop. */
  ghost predicate Willing(w: World) {
    forall n :: w.accepts(n) && w.progress(n) && !w.stopRequested(n)
  }

  lemma {:induction false} WillingNeverHalts(
      w: World, bindings: map<nat, Handle>, s: Run, messages: seq<Message>, k: nat)
    requires Willing(w) && k <= |messages|
    ensures !Scan(w, bindings, s, messages, k).halted && Scan(w, bindings, s, messages, k).stopped == s.stopped
    ensures Scan(w, bindings, s, messages, k).accepted == s.accepted + |Bound(bindings, messages, k)|
    ensures Scan(w, bindings, s, messages, k).pushed == s.pushed + |Bound(bindings, messages, k)|
  {
    if k > 0 {
      WillingNeverHalts(w, bindings, s, messages, k - 1);
      assert w.accepts(|Scan(w, bindings, s, messages, k - 1).log|);
    }
  }

  /** What a file delivers to a willing host that has been offered `already` messages before: its indexed order, or
      its physical order when there are no message indexes or when they turn out unreadable with nothing delivered. */
  function Delivered(bindings: map<nat, Handle>, f: Source, already: nat): seq<Message> {
    var indexed := Bound(bindings, f.indexed, |f.indexed|);
    if LacksMessageIndexes(f.messageIndexLengths) || (indexed == [] && !f.indexedOk(already))
    then Bound(bindings, f.ordered, |f.ordered|) else indexed
  }

  lemma WillingScan(w: World, bindings: map<nat, Handle>, s: Run, messages: seq<Message>)
    requires Willing(w)
    ensures var t, offered := ScanAll(w, bindings, s, messages), Bound(bindings, messages, |messages|);
            && Messages(t.log) == Messages(s.log) + offered && t.stopped == s.stopped
            && t.pushed == s.pushed + |offered| && t.accepted == s.accepted + |offered|
  {
    WillingNeverHalts(w, bindings, s, messages, |messages|);
    var j := ScanOffers(w, bindings, s, messages, |messages|);
  }

  lemma WillingFile(w: World, bindings: map<nat, Handle>, s: Run, f: Source)
    requires Willing(w)
    ensures var t := ReadFile(w, bindings, s, f);
            Messages(t.log) == Messages(s.log) + Delivered(bindings, f, |s.log|) && t.stopped == s.stopped
  {
    WillingScan(w, bindings, s, f.indexed);
    WillingScan(w, bindings, s, f.ordered);
    var t := Indexed(w, bindings, s, f);
    assert |Messages(t.log)| == |t.log|;
    if Bound(bindings, f.indexed, |f.indexed|) == [] {
      assert Messages(t.log) == Messages(s.log);
      WillingScan(w, bindings, t, f.ordered);
    }
  }

  /** Everything the first n files deliver, file after file. */
  function AllDelivered(perFile: seq<map<nat, Handle>>, files: seq<Source>, n: nat): seq<Message> {
    if n == 0 || n > |files| || n > |perFile| then []
    else
      var before := AllDelivered(perFile, files, n - 1);
      before + if perFile[n - 1] == map[] then [] else Delivered(perFile[n - 1], files[n - 1], |before|)
  }

  /** A willing host is offered, file after file, every bound message of every scan, and nothing else. */
  lemma {:induction false} WillingHostGetsAll(w: World, perFile: seq<map<nat, Handle>>, files: seq<Source>, n: nat)
    requires Willing(w) && n <= |files| == |perFile|
    ensures Messages(ReadFiles(w, perFile, files, n).log) == AllDelivered(perFile, files, n)
    ensures !ReadFiles(w, perFile, files, n).stopped
  {
    if n > 0 {
      WillingHostGetsAll(w, perFile, files, n - 1);
      var before := ReadFiles(w, perFile, files, n - 1);
      assert |Messages(before.log)| == |before.log|;
      WillingFile(w, perFile[n - 1], before, files[n - 1]);
    }
  }

  // ----- every message goes through its topic's handle -----

  ghost predicate ThroughBinding(perFile: seq<map<nat, Handle>>, o: Offer) {
    && o.message.file < |perFile| && o.message.channel in perFile[o.message.file]
    && o.handle == perFile[o.message.file][o.message.channel]
  }

  ghost predicate AllThroughBindings(perFile: seq<map<nat, Handle>>, log: seq<Offer>) {
    forall i :: 0 <= i < |log| ==> ThroughBinding(perFile, log[i])
  }

  lemma {:induction false} ScanThroughBindings(
      w: World, perFile: seq<map<nat, Handle>>, s: Run, messages: seq<Message>, k: nat, file: nat)
    requires file < |perFile| && k <= |messages| && AllOfFile(messages, file) && AllThroughBindings(perFile, s.log)
    ensures AllThroughBindings(perFile, Scan(w, perFile[file], s, messages, k).log)
  {
    if k > 0 {
      ScanThroughBindings(w, perFile, s, messages, k - 1, file);
      assert messages[k - 1].file == file;
    }
  }

  lemma FileThroughBindings(w: World, perFile: seq<map<nat, Handle>>, s: Run, f: Source, file: nat)
    requires file < |perFile| && YieldsOnce(f, file) && AllThroughBindings(perFile, s.log)
    ensures AllThroughBindings(perFile, ReadFile(w, perFile[file], s, f).log)
  {
    var b := perFile[file];
    if LacksMessageIndexes(f.messageIndexLengths) {
      ScanThroughBindings(w, perFile, s, f.ordered, |f.ordered|, file);
    } else {
      ScanThroughBindings(w, perFile, s, f.indexed, |f.indexed|, file);
      if Retries(w, b, s, f) {
        ScanThroughBindings(w, perFile, Indexed(w, b, s, f), f.ordered, |f.ordered|, file);
      }
    }
  }

  lemma {:induction false} ImportThroughBindings(w: World, perFile: seq<map<nat, Handle>>, files: seq<Source>, n: nat)
    requires n <= |files| == |perFile| && forall f :: 0 <= f < |files| ==> YieldsOnce(files[f], f)
    ensures AllThroughBindings(perFile, ReadFiles(w, perFile, files, n).log)
  {
    if n > 0 {
      ImportThroughBindings(w, perFile, files, n - 1);
      FileThroughBindings(w, perFile, ReadFiles(w, perFile, files, n - 1), files[n - 1], n - 1);
    }
  }

  /** The bindings of every file, as the binding loop leaves them. */
  function AllBindings(host: Host, selected: set<string>, splits: seq<Split>): (r: seq<map<nat, Handle>>)
    ensures |r| == |splits|
    ensures forall f :: 0 <= f < |r| ==> r[f] == BindingsOf(host, selected, splits, f)
  {
    seq(|splits|, f requires 0 <= f < |splits| => BindingsOf(host, selected, splits, f))
  }

  ghost predicate IsChannel(split: Split, id: nat, k: nat) {
    k < |split.channels| && split.channels[k].id == id
  }

  /** Across all files, messages of one topic are all pushed through the handle of that topic's one request. */
  lemma OneHandleForTopicMessages(
      w: World, host: Host, selected: set<string>, splits: seq<Split>, files: seq<Source>, i: nat, k: nat, j: nat,
      k': nat)
    requires |files| == |splits| && (forall f :: 0 <= f < |files| ==> YieldsOnce(files[f], f) && DistinctIds(splits[f]))
    requires var log := ReadFiles(w, AllBindings(host, selected, splits), files, |files|).log;
             i < |log| && j < |log| && log[i].message.file < |splits| && log[j].message.file < |splits|
             && IsChannel(splits[log[i].message.file], log[i].message.channel, k)
             && IsChannel(splits[log[j].message.file], log[j].message.channel, k')
             && splits[log[i].message.file].channels[k].topic == splits[log[j].message.file].channels[k'].topic
    ensures var log := ReadFiles(w, AllBindings(host, selected, splits), files, |files|).log;
            log[i].handle == log[j].handle
  {
    var perFile := AllBindings(host, selected, splits);
    var log := ReadFiles(w, perFile, files, |files|).log;
    ImportThroughBindings(w, perFile, files, |files|);
    assert ThroughBinding(perFile, log[i]) && ThroughBinding(perFile, log[j]);
    OneHandlePerTopic(host, selected, splits, log[i].message.file, k, log[j].message.file, k');
  }
}
