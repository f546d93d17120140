/** Reading one episode's rows out of a batched table. */
module LerobotSlice {
  import opened Slices
  import opened Wrappers

  /** The non-null planned cells of a table row, with its timestamp and frame index where the table has them. */
  datatype Row<V> = Row(seconds: Option<real>, frame: Option<int>, fields: seq<V>)

  datatype Record<V> = Record(ts: int, fields: seq<V>)

  /** rowTimestampNs for the dataset's frame rate: any function of seconds or else of the frame index. */
  type Clock = (Option<real>, int) -> int

  /** What row k of the table writes for an episode that starts at `from`. */
  function Written<V>(clock: Clock, flat: seq<Row<V>>, from: int, k: nat): seq<Record<V>>
    requires k < |flat|
  {
    var row := flat[k];
    var frame := if row.frame.Some? then row.frame.value else k - from;
    if row.fields == [] then [] else [Record(clock(row.seconds, frame), row.fields)]
  }

  /** The records of rows lo, lo + 1, … up to but not including hi of the whole table. */
  function Emitted<V>(clock: Clock, flat: seq<Row<V>>, from: int, lo: nat, hi: nat): seq<Record<V>> {
    if hi <= lo || hi > |flat| then [] else Emitted(clock, flat, from, lo, hi - 1) + Written(clock, flat, from, hi - 1)
  }

  /** The batches one after the other. */
  function Flat<V>(batches: seq<seq<Row<V>>>): seq<Row<V>> {
    if batches == [] then [] else Flat(batches[..|batches| - 1]) + batches[|batches| - 1]
  }

  function Max(a: int, b: int): int {
    if a < b then b else a
  }

  function Min(a: int, b: int): int {
    if a < b then a else b
  }

  /** The window [from, to) clipped to a table of n rows: it starts here … */
  function Lo(from: int, n: nat): nat {
    Min(Max(0, from), n)
  }

  /** … and ends here. */
  function Hi(from: int, to: int, n: nat): nat {
    Max(Lo(from, n), Min(to, n))
  }

  /** The first row of the window not visited once the rows before `start` have been read. */
  function Reached(from: int, to: int, n: nat, start: nat): nat {
    Max(Lo(from, n), Min(to, start))
  }

  /** A batch outside the window changes nothing; one inside moves on by exactly its trimmed rows. */
  lemma TrimmedBatch(from: int, to: int, n: nat, start: nat, size: nat)
    requires start + size <= n
    ensures var first, last := Max(0, from - start), Min(size, to - start);
            if first >= last then Reached(from, to, n, start + size) == Reached(from, to, n, start)
            else
              && Reached(from, to, n, start) == start + first
              && Reached(from, to, n, start + size) == start + last
  {
  }

  lemma WindowBounds(from: int, to: int, n: nat, start: nat)
    requires start <= n
    ensures Reached(from, to, n, 0) == Lo(from, n)
    ensures Lo(from, n) <= Reached(from, to, n, start) <= Hi(from, to, n)
    ensures start >= to || start == n ==> Reached(from, to, n, start) == Hi(from, to, n)
  {
  }

  lemma FlatStep<V>(batches: seq<seq<Row<V>>>, i: nat)
    requires i < |batches|
    ensures Flat(batches[..i + 1]) == Flat(batches[..i]) + batches[i]
  {
    PrefixOfPrefix(batches, i + 1, i);
  }

  lemma {:induction false} FlatPrefix<V>(batches: seq<seq<Row<V>>>, i: nat)
    requires i <= |batches|
    ensures Flat(batches[..i]) <= Flat(batches)
    decreases |batches| - i
  {
    if i == |batches| {
      assert batches[..i] == batches;
    } else {
      FlatPrefix(batches, i + 1);
      FlatStep(batches, i);
    }
  }

  ghost predicate IsRefused<V>(clock: Clock, host: Record<V> -> bool, flat: seq<Row<V>>, from: int, k: nat) {
    k < |flat| && Written(clock, flat, from, k) != [] && !host(Written(clock, flat, from, k)[0])
  }

  /** Batch i sits in the table right after the batches before it. */
  lemma BatchInFlat<V>(batches: seq<seq<Row<V>>>, i: nat)
    requires i < |batches|
    ensures var start := |Flat(batches[..i])|;
            && start + |batches[i]| == |Flat(batches[..i + 1])| <= |Flat(batches)|
            && Same(Flat(batches)[start..start + |batches[i]|], batches[i])
  {
    FlatStep(batches, i);
    FlatPrefix(batches, i + 1);
    var start := |Flat(batches[..i])|;
    SameIf(Flat(batches)[start..start + |batches[i]|], batches[i]);
  }

  datatype End = Complete | Stopped | Refused | ReadFailed

  lemma RowInTable<V>(flat: seq<Row<V>>, start: nat, batch: seq<Row<V>>, r: nat)
    requires start + |batch| <= |flat| && Same(flat[start..start + |batch|], batch) && r < |batch|
    ensures flat[start + r] == batch[r]
  {
    assert flat[start..start + |batch|][r] == flat[start + r];
  }

  /** The row loop of one batch: rows r.. of the batch that starts at `start`, until `last` or a refusal. */
  method ImportRows<V>(
      clock: Clock, host: Record<V> -> bool, batch: seq<Row<V>>, start: nat, from: int, first: nat, last: nat,
      processed: nat, ghost flat: seq<Row<V>>)
    returns (written: seq<Record<V>>, processed': nat, ok: bool, ghost next: nat)
    requires first <= last <= |batch| && start + |batch| <= |flat| && Same(flat[start..start + |batch|], batch)
    ensures start + first <= next <= start + last
    ensures processed' == processed + (next - (start + first))
    ensures Same(written, Emitted(clock, flat, from, start + first, next))
    ensures ok ==> next == start + last
    ensures !ok ==> next < start + last && IsRefused(clock, host, flat, from, next)
  {
    written, processed' := [], processed;
    for r := first to last
      invariant processed' == processed + (r - first)
      invariant Same(written, Emitted(clock, flat, from, start + first, start + r))
    {
      var row := batch[r];
      ghost var k := start + r;
      RowInTable(flat, start, batch, r);
      var episodeRow := (start + r) - from;
      var frame := if row.frame.Some? then row.frame.value else episodeRow;
      if row.fields != [] {
        var record := Record(clock(row.seconds, frame), row.fields);
        if !host(record) {
          return written, processed', false, k;
        }
        written := written + [record];
      } else {
        NothingAfter(written, Written(clock, flat, from, k));
      }
      processed' := processed' + 1;
    }
    ok, next := true, start + last;
  }

  lemma JoinsOn<T>(x: seq<T>, y: seq<T>, xy: seq<T>, w: seq<T>)
    requires Same(x + y, xy)
    ensures Same(x + (y + w), xy + w)
  {
    Regroup(x, y, w);
  }

  lemma {:induction false} EmittedJoins<V>(clock: Clock, flat: seq<Row<V>>, from: int, lo: nat, mid: nat, hi: nat)
    requires lo <= mid <= hi <= |flat|
    ensures Same(Emitted(clock, flat, from, lo, mid) + Emitted(clock, flat, from, mid, hi),
                 Emitted(clock, flat, from, lo, hi))
  {
    if mid < hi {
      EmittedJoins(clock, flat, from, lo, mid, hi - 1);
      JoinsOn(Emitted(clock, flat, from, lo, mid), Emitted(clock, flat, from, mid, hi - 1),
              Emitted(clock, flat, from, lo, hi - 1), Written(clock, flat, from, hi - 1));
    } else {
      NothingAfter(Emitted(clock, flat, from, lo, mid), Emitted(clock, flat, from, mid, hi));
    }
  }

  /** How many of the rows lo, …, k - 1 have a cell to write. */
  function FilledCount<V>(flat: seq<Row<V>>, lo: nat, k: nat): nat {
    if k <= lo || k > |flat| then 0 else FilledCount(flat, lo, k - 1) + if flat[k - 1].fields != [] then 1 else 0
  }

  lemma {:induction false} FilledGrows<V>(flat: seq<Row<V>>, lo: nat, j: nat, k: nat)
    requires lo <= j <= k <= |flat|
    ensures FilledCount(flat, lo, j) <= FilledCount(flat, lo, k)
  {
    if j < k {
      FilledGrows(flat, lo, j, k - 1);
    }
  }

  /** The records of an episode that starts at row `from`: one for every row with a cell, in order, with that row's
      cells, stamped by its timestamp and by its frame index or else by its place in the episode. */
  lemma {:induction false} EmittedExactly<V>(clock: Clock, flat: seq<Row<V>>, from: int, lo: nat, hi: nat, k: nat)
    requires lo <= hi <= |flat|
    ensures |Emitted(clock, flat, from, lo, hi)| == FilledCount(flat, lo, hi)
    ensures lo <= k < hi && flat[k].fields != [] ==>
              && FilledCount(flat, lo, k) < FilledCount(flat, lo, hi)
              && Emitted(clock, flat, from, lo, hi)[FilledCount(flat, lo, k)]
                 == Record(clock(flat[k].seconds, match flat[k].frame case Some(i) => i case None => k - from),
                           flat[k].fields)
  {
    if lo < hi {
      EmittedExactly(clock, flat, from, lo, hi - 1, k);
      if lo <= k < hi - 1 {
        FilledGrows(flat, lo, k, hi - 1);
      }
    }
  }

  /** The rows lo, …, next - 1 of the window are visited: their records written, their number counted. */
  ghost predicate Visited<V>(
      clock: Clock, flat: seq<Row<V>>, from: int, to: int, before: nat, written: seq<Record<V>>, processed: nat,
      next: nat)
  {
    var lo := Lo(from, |flat|);
    && lo <= next <= Hi(from, to, |flat|)
    && processed == before + (next - lo)
    && Same(written, Emitted(clock, flat, from, lo, next))
  }

  lemma VisitedGrows<V>(
      clock: Clock, flat: seq<Row<V>>, from: int, to: int, before: nat, written: seq<Record<V>>, processed: nat,
      mid: nat,
      more: seq<Record<V>>, next: nat)
    requires Visited(clock, flat, from, to, before, written, processed, mid)
    requires mid <= next <= Hi(from, to, |flat|) && Same(more, Emitted(clock, flat, from, mid, next))
    ensures Visited(clock, flat, from, to, before, written + more, processed + (next - mid), next)
  {
    EmittedJoins(clock, flat, from, Lo(from, |flat|), mid, next);
  }

  /** One batch: trimmed to the window, then its rows. */
  method ImportBatch<V>(
      clock: Clock, host: Record<V> -> bool, batch: seq<Row<V>>, start: nat, from: int, to: int, processed: nat,
      written: seq<Record<V>>, ghost flat: seq<Row<V>>, ghost before: nat)
    returns (written': seq<Record<V>>, processed': nat, inside: bool, ok: bool, ghost next: nat)
    requires start + |batch| <= |flat| && Same(flat[start..start + |batch|], batch)
    requires Visited(clock, flat, from, to, before, written, processed, Reached(from, to, |flat|, start))
    ensures Visited(clock, flat, from, to, before, written', processed', next)
    ensures ok ==> next == Reached(from, to, |flat|, start + |batch|)
    ensures inside && ok ==> Reached(from, to, |flat|, start) < next
    ensures !ok ==> next < Hi(from, to, |flat|) && IsRefused(clock, host, flat, from, next)
  {
    TrimmedBatch(from, to, |flat|, start, |batch|);
    WindowBounds(from, to, |flat|, start + |batch|);
    var first, last := Max(0, from - start), Min(|batch|, to - start);
    if first >= last {
      return written, processed, false, true, Reached(from, to, |flat|, start);
    }
    var more;
    more, processed', ok, next := ImportRows(clock, host, batch, start, from, first, last, processed, flat);
    written' := written + more;
    VisitedGrows(clock, flat, from, to, before, written, processed, start + first, more, next);
    inside := true;
  }

  /** Batch i holds rows of the window, and `next` is where the window goes on behind it. */
  ghost predicate EndsBatch<V>(batches: seq<seq<Row<V>>>, from: int, to: int, i: nat, next: nat)
    requires i < |batches|
  {
    var n := |Flat(batches)|;
    Reached(from, to, n, |Flat(batches[..i])|) < next == Reached(from, to, n, |Flat(batches[..i + 1])|)
  }

  /** One episode. `failed` is a read error after the last batch, `stop` the host's answer after a batch. `next` is
      the first row not visited. */
  method ImportEpisode<V>(
      clock: Clock, host: Record<V> -> bool, stop: nat -> bool, batches: seq<seq<Row<V>>>, failed: bool, from: int,
      to: int, before: nat)
    returns (written: seq<Record<V>>, processed: nat, end: End, ghost next: nat)
    ensures Visited(clock, Flat(batches), from, to, before, written, processed, next)
    ensures end.Complete? || end.ReadFailed? ==> next == Hi(from, to, |Flat(batches)|)
    ensures end.Refused? ==> next < Hi(from, to, |Flat(batches)|) && IsRefused(clock, host, Flat(batches), from, next)
    ensures end.ReadFailed? ==> failed
    ensures end.Stopped? ==> exists i :: 0 <= i < |batches| && stop(i) && EndsBatch(batches, from, to, i, next)
  {
    written, processed := [], before;
    var start := 0;
    ghost var flat := Flat(batches);
    WindowBounds(from, to, |flat|, 0);
    next := Lo(from, |flat|);
    for i := 0 to |batches|
      invariant start == |Flat(batches[..i])| <= |flat|
      invariant next == Reached(from, to, |flat|, start)
      invariant Visited(clock, flat, from, to, before, written, processed, next)
    {
      var batch := batches[i];
      BatchInFlat(batches, i);
      var inside, ok;
      written, processed, inside, ok, next :=
        ImportBatch(clock, host, batch, start, from, to, processed, written, flat, before);
      if !ok {
        return written, processed, Refused, next;
      }
      start := start + |batch|;
      WindowBounds(from, to, |flat|, start);
      if start >= to {
        return written, processed, Complete, next;
      }
      if inside && stop(i) {
        return written, processed, Stopped, next;
      }
    }
    Whole(batches);
    WindowBounds(from, to, |flat|, |flat|);
    end := if failed then ReadFailed else Complete;
  }

  // ----- all episodes of a shared table -----

  /** The rows an episode visits. */
  function Slice<V>(flat: seq<Row<V>>, from: int, to: int): seq<Row<V>> {
    flat[Lo(from, |flat|)..Hi(from, to, |flat|)]
  }

  /** Episode e covers rows bounds[e] up to but not including bounds[e + 1]. */
  ghost predicate Partitions(bounds: seq<nat>, n: nat) {
    && |bounds| >= 1 && bounds[0] == 0 && bounds[|bounds| - 1] == n
    && forall i, j :: 0 <= i <= j < |bounds| ==> bounds[i] <= bounds[j]
  }

  /** The slices of the first e episodes, one after the other. */
  function Episodes<V>(flat: seq<Row<V>>, bounds: seq<nat>, e: nat): seq<Row<V>> {
    if e == 0 || e >= |bounds| then [] else Episodes(flat, bounds, e - 1) + Slice(flat, bounds[e - 1], bounds[e])
  }

  lemma {:induction false} EpisodesArePrefix<V>(flat: seq<Row<V>>, bounds: seq<nat>, e: nat)
    requires Partitions(bounds, |flat|) && e < |bounds|
    ensures Episodes(flat, bounds, e) == flat[..bounds[e]]
  {
    if e > 0 {
      EpisodesArePrefix(flat, bounds, e - 1);
      assert bounds[e - 1] <= bounds[e] <= bounds[|bounds| - 1];
      assert flat[..bounds[e]] == flat[..bounds[e - 1]] + flat[bounds[e - 1]..bounds[e]];
    }
  }

  /** Episodes that partition the table visit every row exactly once, in order. */
  lemma {:induction false} EpisodesPartition<V>(flat: seq<Row<V>>, bounds: seq<nat>)
    requires Partitions(bounds, |flat|)
    ensures Episodes(flat, bounds, |bounds| - 1) == flat
    ensures forall k :: 0 <= k < |flat| ==> HasEpisode(bounds, k)
    ensures forall k, e, e' :: 0 <= k < |flat| && 0 < e < e' < |bounds| ==>
              !(Holds(bounds, e, k) && Holds(bounds, e', k))
  {
    EpisodesArePrefix(flat, bounds, |bounds| - 1);
    Whole(flat);
    forall k | 0 <= k < |flat| ensures HasEpisode(bounds, k) {
      var e := Holder(bounds, |bounds| - 1, k);
    }
  }

  ghost predicate Holds(bounds: seq<nat>, e: nat, k: nat)
    requires 0 < e < |bounds|
  {
    bounds[e - 1] <= k < bounds[e]
  }

  ghost predicate HasEpisode(bounds: seq<nat>, k: nat) {
    exists e :: 0 < e < |bounds| && Holds(bounds, e, k)
  }

  lemma {:induction false} Holder(bounds: seq<nat>, m: nat, k: nat) returns (e: nat)
    requires 0 <= m < |bounds| && bounds[0] <= k < bounds[m]
    ensures 0 < e <= m && Holds(bounds, e, k)
  {
    if bounds[m - 1] <= k {
      e := m;
    } else {
      e := Holder(bounds, m - 1, k);
    }
  }
}
