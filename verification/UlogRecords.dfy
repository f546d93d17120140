/** ULog records against their format: every accepted record covers every leaf. */
module UlogRecords {
  import opened Slices
  import opened Wrappers
  import opened Int64
  import opened RawBytes
  import opened LittleEndian
  import opened Blocks
  import opened UlogFlatten

  // ----- resolved formats -----

  function FieldBytes(f: Field): nat {
    Times(f.size, Count(f))
  }

  /** Where field k starts when every field follows the one before it. */
  function Start(fields: seq<Field>, k: nat): nat {
    if k == 0 || k > |fields| then 0 else Start(fields, k - 1) + FieldBytes(fields[k - 1])
  }

  predicate NameTaken(fields: seq<Field>, k: nat)
    requires k < |fields|
  {
    exists j :: 0 <= j < k && fields[j].name == fields[k].name
  }

  /** The library's size: a sum over a map keyed by field name, which holds one field per name. */
  function SizeByName(fields: seq<Field>, k: nat): nat {
    if k == 0 || k > |fields| then 0
    else SizeByName(fields, k - 1) + if NameTaken(fields, k - 1) then 0 else FieldBytes(fields[k - 1])
  }

  ghost predicate DistinctNames(fields: seq<Field>) {
    forall k :: 0 <= k < |fields| ==> !NameTaken(fields, k)
  }

  function KindSize(k: Kind): nat {
    match k
    case Int8 => 1
    case Uint8 => 1
    case Bool => 1
    case Char => 1
    case Int16 => 2
    case Uint16 => 2
    case Int32 => 4
    case Uint32 => 4
    case Float => 4
    case Int64 => 8
    case Uint64 => 8
    case Double => 8
    case Nested => 0
  }

  /** The element size of a field is that of its kind, or the size of its nested format. */
  ghost predicate SizeFits(f: Field) {
    if f.kind != Nested then f.size == KindSize(f.kind)
    else f.nested.Some? ==> f.size == f.nested.value.sizeBytes
  }

  /** What the library's resolution yields: cumulative offsets, and a size summed by name. */
  ghost predicate Resolved(format: Format)
    decreases format, |format.fields| + 1
  {
    && format.sizeBytes == SizeByName(format.fields, |format.fields|)
    && forall k :: 0 <= k < |format.fields| ==> FieldResolved(format, k)
  }

  ghost predicate FieldResolved(format: Format, k: nat)
    requires k < |format.fields|
    decreases format, k
  {
    var f := format.fields[k];
    f.offset == Start(format.fields, k) && SizeFits(f) && (f.nested.Some? ==> Resolved(f.nested.value))
  }

  /** Every nested format, at any depth, has distinct field names. */
  ghost predicate NestedDistinct(format: Format)
    decreases format
  {
    forall k {:trigger format.fields[k]} :: 0 <= k < |format.fields| && format.fields[k].nested.Some? ==>
      && DistinctNames(format.fields[k].nested.value.fields)
      && NestedDistinct(format.fields[k].nested.value)
  }

  lemma {:induction false} StartMonotone(fields: seq<Field>, j: nat, k: nat)
    requires j <= k <= |fields|
    ensures Start(fields, j) <= Start(fields, k)
  {
    if j < k {
      StartMonotone(fields, j, k - 1);
    }
  }

  lemma {:induction false} SizeByNameIsTotal(fields: seq<Field>, k: nat)
    requires k <= |fields| && DistinctNames(fields)
    ensures SizeByName(fields, k) == Start(fields, k)
  {
    if k > 0 {
      SizeByNameIsTotal(fields, k - 1);
    }
  }

  lemma {:induction false} SizeByNameAtMost(fields: seq<Field>, k: nat)
    requires k <= |fields|
    ensures SizeByName(fields, k) <= Start(fields, k)
  {
    if k > 0 {
      SizeByNameAtMost(fields, k - 1);
    }
  }

  // ----- leaves within their span, one after the other -----

  /** Leaves within [lo, hi), each ending before the next begins. */
  ghost predicate Chained(leaves: seq<FlatLeaf>, lo: int, hi: int) {
    && lo <= hi
    && (forall i :: 0 <= i < |leaves| ==> lo <= leaves[i].offset && leaves[i].offset + leaves[i].size <= hi)
    && (forall i, j :: 0 <= i < j < |leaves| ==> leaves[i].offset + leaves[i].size <= leaves[j].offset)
  }

  lemma ChainedConcat(a: seq<FlatLeaf>, b: seq<FlatLeaf>, lo: int, mid: int, hi: int)
    requires Chained(a, lo, mid) && Chained(b, mid, hi)
    ensures Chained(a + b, lo, hi)
  {
  }

  lemma {:induction false} OneChained(f: Field, at: int, e: nat)
    requires SizeFits(f) && (f.nested.Some? ==> Sound(f.nested.value))
    decreases f, 0
    ensures Chained(OneLeaf(f, at, e), at + Times(f.size, e), at + Times(f.size, e + 1))
  {
    if f.kind == Nested && f.nested.Some? {
      var inner := f.nested.value;
      LeavesChained(inner, at + Times(f.size, e), |inner.fields|);
      SizeByNameIsTotal(inner.fields, |inner.fields|);
    }
  }

  /** Resolved, with distinct names here and in every nested format. */
  ghost predicate Sound(format: Format) {
    Resolved(format) && DistinctNames(format.fields) && NestedDistinct(format)
  }

  lemma {:induction false} ElementsChained(f: Field, at: int, i: nat)
    requires SizeFits(f) && (f.nested.Some? ==> Sound(f.nested.value))
    decreases f, i
    ensures Chained(ElementLeaves(f, at, i), at, at + Times(f.size, i))
  {
    if i > 0 {
      ElementsChained(f, at, i - 1);
      OneChained(f, at, i - 1);
      ChainedConcat(ElementLeaves(f, at, i - 1), OneLeaf(f, at, i - 1), at, at + Times(f.size, i - 1),
                    at + Times(f.size, i));
    }
  }

  lemma {:induction false} FieldChained(f: Field, base: int, start: nat)
    requires SizeFits(f) && (f.nested.Some? ==> Sound(f.nested.value)) && f.offset == start
    decreases f, Count(f) + 1
    ensures Chained(FieldLeaves(f, base), base + start, base + start + FieldBytes(f))
  {
    if IsString(f) {
      TimesIsProduct(f.size, Count(f));
    } else {
      ElementsChained(f, base + start, Count(f));
    }
  }

  /** The leaves of the first k fields lie one after the other before field k starts. */
  lemma {:induction false} LeavesChained(format: Format, base: int, k: nat)
    requires Resolved(format) && NestedDistinct(format) && k <= |format.fields|
    decreases format, k
    ensures Chained(Leaves(format, base, k), base, base + Start(format.fields, k))
  {
    if k > 0 {
      var f, last := format.fields[k - 1], k - 1;
      LeavesChained(format, base, last);
      assert FieldResolved(format, last);
      FieldChained(f, base, Start(format.fields, last));
      ChainedConcat(Leaves(format, base, last), FieldLeaves(f, base), base, base + Start(format.fields, last),
                    base + Start(format.fields, k));
    }
  }

  // ----- the size check -----

  predicate EndsInPadding(format: Format) {
    format.fields != [] && IsPadding(format.fields[|format.fields| - 1].name)
  }

  /** The smallest payload the record loop accepts: a padding field in last place may be missing. */
  function LoggedSizeBytes(format: Format): int {
    if EndsInPadding(format) then format.fields[|format.fields| - 1].offset else format.sizeBytes
  }

  predicate IsClock(f: Field) {
    f.name == "timestamp" && f.kind == Uint64 && f.arrayLength < 0 && f.offset >= 0
  }

  /** The offset of the first top-level clock field. */
  function ClockOffset(fields: seq<Field>): (r: Option<int>)
    ensures r.None? <==> forall k :: 0 <= k < |fields| ==> !IsClock(fields[k])
    ensures r.Some? ==> exists k :: 0 <= k < |fields| && IsClock(fields[k]) && fields[k].offset == r.value
                                    && forall j :: 0 <= j < k ==> !IsClock(fields[j])
  {
    if fields == [] then None
    else
      var front, last := fields[..|fields| - 1], fields[|fields| - 1];
      if ClockOffset(front).Some? then ClockOffset(front)
      else if IsClock(last) then Some(last.offset)
      else None
  }

  method FindTimestampOffset(format: Format) returns (r: Option<int>)
    ensures r == ClockOffset(format.fields)
  {
    var fields := format.fields;
    for k := 0 to |fields|
      invariant ClockOffset(fields[..k]).None?
    {
      PrefixOfPrefix(fields, k + 1, k);
      if IsClock(fields[k]) {
        FirstClockStays(fields, k + 1);
        return Some(fields[k].offset);
      }
    }
    Whole(fields);
    return None;
  }

  lemma {:induction false} FirstClockStays(fields: seq<Field>, k: nat)
    requires k <= |fields| && ClockOffset(fields[..k]).Some?
    ensures ClockOffset(fields) == ClockOffset(fields[..k])
  {
    if k < |fields| {
      assert fields[..|fields| - 1][..k] == fields[..k];
      FirstClockStays(fields[..|fields| - 1], k);
    } else {
      assert fields[..k] == fields;
    }
  }

  /** What the timestamp read needs: the clock's eight bytes lie within the checked size. */
  ghost predicate ClockInRange(format: Format) {
    ClockOffset(format.fields).Some? ==>
      0 <= ClockOffset(format.fields).value && ClockOffset(format.fields).value + 8 <= LoggedSizeBytes(format)
  }

  /** The bytes the name-keyed size misses: those of every field whose name occurred before. */
  function RepeatedBytes(fields: seq<Field>, k: nat): nat {
    if k == 0 || k > |fields| then 0
    else RepeatedBytes(fields, k - 1) + if NameTaken(fields, k - 1) then FieldBytes(fields[k - 1]) else 0
  }

  lemma {:induction false} SizeAndRepeated(fields: seq<Field>, k: nat)
    requires k <= |fields|
    ensures SizeByName(fields, k) + RepeatedBytes(fields, k) == Start(fields, k)
  {
    if k > 0 {
      SizeAndRepeated(fields, k - 1);
    }
  }

  lemma LoggedExactly(format: Format)
    requires Resolved(format)
    ensures var n := |format.fields|;
            LoggedSizeBytes(format)
            == if EndsInPadding(format) then Start(format.fields, n - 1)
               else Start(format.fields, n) - RepeatedBytes(format.fields, n)
  {
    SizeAndRepeated(format.fields, |format.fields|);
    if EndsInPadding(format) {
      assert FieldResolved(format, |format.fields| - 1);
    }
  }

  /** The bytes of the fields after field k. */
  function BytesAfter(fields: seq<Field>, k: nat): int {
    Start(fields, |fields|) - Start(fields, k + 1)
  }

  ghost predicate IsFirstClock(fields: seq<Field>, k: nat) {
    k < |fields| && IsClock(fields[k]) && forall j :: 0 <= j < k ==> !IsClock(fields[j])
  }

  /** The timestamp read is in range exactly when the format ends in padding, or the bytes of its repeated-name
      fields do not exceed the bytes after the clock. */
  lemma ClockInRangeExactly(format: Format, k: nat)
    requires Resolved(format) && IsFirstClock(format.fields, k)
    ensures ClockInRange(format)
            <==> || EndsInPadding(format)
                 || RepeatedBytes(format.fields, |format.fields|) <= BytesAfter(format.fields, k)
  {
    var fields, n := format.fields, |format.fields|;
    LoggedExactly(format);
    ClockIsFirst(fields, k);
    assert FieldResolved(format, k);
    TimesIsProduct(8, 1);
    ClockIsNoPadding(fields[k]);
    if EndsInPadding(format) {
      StartMonotone(fields, k + 1, n - 1);
    }
  }

  lemma ClockIsFirst(fields: seq<Field>, k: nat)
    requires IsFirstClock(fields, k)
    ensures ClockOffset(fields) == Some(fields[k].offset)
  {
    var i :| 0 <= i < |fields| && IsClock(fields[i]) && fields[i].offset == ClockOffset(fields).value
             && forall j :: 0 <= j < i ==> !IsClock(fields[j]);
    assert i == k;
  }

  lemma ClockIsNoPadding(f: Field)
    requires IsClock(f)
    ensures !IsPadding(f.name)
  {
    assert "timestamp"[0] != "_padding"[0];
  }

  // ----- the last leaf -----

  /** Some of the first k fields has a leaf. */
  predicate Emits(format: Format, k: nat)
    decreases format, k
  {
    0 < k <= |format.fields| && (FieldEmits(format.fields[k - 1]) || Emits(format, k - 1))
  }

  predicate FieldEmits(f: Field)
    decreases f, 0
  {
    && !IsSkipped(f.name) && Count(f) > 0
    && (f.kind == Nested ==> f.nested.Some? && Emits(f.nested.value, |f.nested.value.fields|))
  }

  /** The bytes behind the last leaf of the first k fields. */
  function Tail(format: Format, k: nat): nat
    decreases format, k
  {
    if k == 0 || k > |format.fields| then 0
    else
      var f := format.fields[k - 1];
      if FieldEmits(f) then FieldTail(f) else Tail(format, k - 1) + FieldBytes(f)
  }

  function FieldTail(f: Field): nat
    decreases f, 0
  {
    if f.kind == Nested && f.nested.Some? then Tail(f.nested.value, |f.nested.value.fields|) else 0
  }

  lemma {:induction false} ElementsEmit(f: Field, at: int, i: nat)
    requires !IsSkipped(f.name) && !IsString(f) && 0 < i <= Count(f)
    decreases f, i
    ensures |ElementLeaves(f, at, i)| > 0 <==> FieldEmits(f)
  {
    if i > 1 {
      ElementsEmit(f, at, i - 1);
    }
    if f.kind == Nested && f.nested.Some? {
      LeavesEmit(f.nested.value, at + Times(f.nested.value.sizeBytes, i - 1), |f.nested.value.fields|);
    }
  }

  lemma {:induction false} FieldLeavesEmit(f: Field, base: int)
    decreases f, Count(f) + 1
    ensures |FieldLeaves(f, base)| > 0 <==> FieldEmits(f)
  {
    if !IsSkipped(f.name) && !IsString(f) && Count(f) > 0 {
      ElementsEmit(f, base + f.offset, Count(f));
    }
  }

  lemma {:induction false} LeavesEmit(format: Format, base: int, k: nat)
    requires k <= |format.fields|
    decreases format, k
    ensures |Leaves(format, base, k)| > 0 <==> Emits(format, k)
  {
    if k > 0 {
      LeavesEmit(format, base, k - 1);
      FieldLeavesEmit(format.fields[k - 1], base);
    }
  }

  function End(leaf: FlatLeaf): int {
    leaf.offset + leaf.size
  }

  lemma {:induction false} LastOne(f: Field, at: int, e: nat)
    requires SizeFits(f) && (f.nested.Some? ==> Sound(f.nested.value)) && |OneLeaf(f, at, e)| > 0
    decreases f, 0
    ensures var one := OneLeaf(f, at, e);
            End(one[|one| - 1]) == at + Times(f.size, e + 1) - FieldTail(f)
  {
    if f.kind == Nested {
      var inner := f.nested.value;
      LastLeaf(inner, at + Times(f.size, e), |inner.fields|);
      SizeByNameIsTotal(inner.fields, |inner.fields|);
    }
  }

  lemma {:induction false} LastOfField(f: Field, base: int, start: nat)
    requires SizeFits(f) && (f.nested.Some? ==> Sound(f.nested.value)) && f.offset == start && FieldEmits(f)
    decreases f, Count(f) + 1
    ensures var leaves := FieldLeaves(f, base);
            |leaves| > 0 && End(leaves[|leaves| - 1]) == base + start + FieldBytes(f) - FieldTail(f)
  {
    FieldLeavesEmit(f, base);
    if IsString(f) {
      TimesIsProduct(f.size, Count(f));
    } else {
      if f.kind == Nested {
        LeavesEmit(f.nested.value, base + start + Times(f.nested.value.sizeBytes, Count(f) - 1),
                   |f.nested.value.fields|);
      }
      LastOne(f, base + start, Count(f) - 1);
    }
  }

  /** The last leaf ends that many bytes before the fields do. */
  lemma {:induction false} LastLeaf(format: Format, base: int, k: nat)
    requires Resolved(format) && NestedDistinct(format) && k <= |format.fields| && |Leaves(format, base, k)| > 0
    decreases format, k
    ensures var leaves := Leaves(format, base, k);
            End(leaves[|leaves| - 1]) == base + Start(format.fields, k) - Tail(format, k)
  {
    if k > 0 {
      var last := k - 1;
      var f := format.fields[last];
      assert FieldResolved(format, last);
      FieldLeavesEmit(f, base);
      if FieldEmits(f) {
        LastOfField(f, base, Start(format.fields, last));
      } else {
        assert Leaves(format, base, k) == Leaves(format, base, last);
        LastLeaf(format, base, last);
      }
    }
  }

  lemma {:induction false} NoLeafAllTail(format: Format, k: nat)
    requires k <= |format.fields| && !Emits(format, k)
    ensures Tail(format, k) == Start(format.fields, k)
  {
    if k > 0 {
      NoLeafAllTail(format, k - 1);
    }
  }

  // ----- values -----

  /** A numeric value is kept as its kind and its bytes. */
  datatype Value = Null | Bytes(kind: Kind, bytes: seq<byte>) | Text(bytes: seq<byte>)

  /** Up to the first NUL, or everything. */
  function UntilNul(s: seq<byte>): (r: seq<byte>)
    ensures r <= s && 0 !in r
    ensures |r| < |s| ==> s[|r|] == 0
  {
    if s == [] || s[0] == 0 then [] else [s[0]] + UntilNul(s[1..])
  }

  function ValueOf(raw: seq<byte>, leaf: FlatLeaf): Value {
    if leaf.offset < 0 || leaf.offset + leaf.size > |raw| then Null
    else
      var bytes := raw[leaf.offset..leaf.offset + leaf.size];
      if leaf.isString then Text(UntilNul(bytes))
      else if leaf.kind == Nested then Null
      else Bytes(leaf.kind, bytes)
  }

  function ValuesOf(raw: seq<byte>, leaves: seq<FlatLeaf>): (r: seq<Value>)
    ensures |r| == |leaves|
    ensures forall i :: 0 <= i < |leaves| ==> r[i] == ValueOf(raw, leaves[i])
  {
    seq(|leaves|, i requires 0 <= i < |leaves| => ValueOf(raw, leaves[i]))
  }

  /** extractFlatValues: the visitor appends one value per leaf. */
  method ExtractFlatValues(raw: seq<byte>, format: Format) returns (values: seq<Value>)
    ensures values == ValuesOf(raw, Leaves(format, 0, |format.fields|))
  {
    var leaves := CollectFlatLeaves(format, 0, []);
    values := [];
    for i := 0 to |leaves|
      invariant |values| == i && forall j :: 0 <= j < i ==> values[j] == ValueOf(raw, leaves[j])
    {
      values := values + [ValueOf(raw, leaves[i])];
    }
  }

  // ----- the record loop -----

  datatype Record = Record(ts: int, values: seq<Value>)

  /** The 64-bit word a read past sample i's end yields: anything. */
  type Stray = nat -> nat

  /** Microseconds to nanoseconds in int64, the sample index standing in for a missing clock. */
  function Stamp(format: Format, raw: seq<byte>, index: nat, stray: Stray): int {
    match ClockOffset(format.fields)
    case None => Wrap64(index * 1000)
    case Some(at) => Wrap64(ClockRead(raw, at, index, stray) * 1000)
  }

  /** memcpy of the clock, whose bytes nothing checks but the record's length. */
  function ClockRead(raw: seq<byte>, at: int, index: nat, stray: Stray): int {
    if 0 <= at && at + 8 <= |raw| then Wrap64(Decode(raw[at..at + 8])) else Wrap64(stray(index))
  }

  function RecordOf(format: Format, raw: seq<byte>, index: nat, stray: Stray): Record {
    Record(Stamp(format, raw, index, stray), ValuesOf(raw, Leaves(format, 0, |format.fields|)))
  }

  /** In range, the stamp is the record's own, and nanoseconds are exact up to 2^63 / 1000 microseconds. */
  lemma StampIsOwn(format: Format, raw: seq<byte>, index: nat, stray: Stray, stray': Stray)
    requires ClockInRange(format) && !IsShort(format, raw)
    ensures Stamp(format, raw, index, stray) == Stamp(format, raw, index, stray')
    ensures ClockOffset(format.fields).Some? ==>
      var at := ClockOffset(format.fields).value;
      var micros := Decode(raw[at..at + 8]);
      micros * 1000 <= INT64_MAX ==> Stamp(format, raw, index, stray) == micros * 1000
  {
  }

  predicate IsShort(format: Format, raw: seq<byte>) {
    |raw| < LoggedSizeBytes(format)
  }

  const FIRST_A := Field("a", Uint8, 1, -1, 0, None)
  const SECOND_A := Field("a", Uint8, 1, -1, 1, None)
  const TWICE_A := Format([FIRST_A, SECOND_A], 1)

  lemma RepeatedNameResolved()
    ensures Resolved(TWICE_A) && NestedDistinct(TWICE_A)
  {
    var fields := TWICE_A.fields;
    assert fields[0].name == fields[1].name;
    assert NameTaken(fields, 1) && !NameTaken(fields, 0);
    assert Times(1, 1) == Times(1, 0) + 1;
    assert Start(fields, 1) == Start(fields, 0) + FieldBytes(FIRST_A);
    assert SizeByName(fields, 1) == SizeByName(fields, 0) + FieldBytes(FIRST_A);
  }

  lemma OneByteLeaf(f: Field)
    requires f in [FIRST_A, SECOND_A]
    ensures FieldLeaves(f, 0) == [FlatLeaf(f.offset, Uint8, 1, false)]
  {
    assert !IsSkipped("a");
    assert ElementLeaves(f, f.offset, 1) == ElementLeaves(f, f.offset, 0) + OneLeaf(f, f.offset, 0);
  }

  /** Without distinct names the size check can be too weak: an accepted one-byte record misses the second leaf. */
  lemma DuplicateNamesUndercount()
    ensures Resolved(TWICE_A) && NestedDistinct(TWICE_A) && !IsShort(TWICE_A, [7])
    ensures ValuesOf([7], Leaves(TWICE_A, 0, 2)) == [Bytes(Uint8, [7]), Null]
  {
    RepeatedNameResolved();
    TwoLeaves();
    TwoValues([7]);
    assert !IsPadding("a");
  }

  lemma TwoLeaves()
    ensures Same(Leaves(TWICE_A, 0, 2), [FlatLeaf(0, Uint8, 1, false), FlatLeaf(1, Uint8, 1, false)])
  {
    OneByteLeaf(FIRST_A);
    OneByteLeaf(SECOND_A);
    assert Leaves(TWICE_A, 0, 1) == Leaves(TWICE_A, 0, 0) + FieldLeaves(FIRST_A, 0);
    assert Leaves(TWICE_A, 0, 2) == [FlatLeaf(0, Uint8, 1, false), FlatLeaf(1, Uint8, 1, false)];
  }

  lemma TwoValues(raw: seq<byte>)
    requires |raw| == 1
    ensures Same(ValuesOf(raw, [FlatLeaf(0, Uint8, 1, false), FlatLeaf(1, Uint8, 1, false)]), [Bytes(Uint8, raw), Null])
  {
    var one, two := FlatLeaf(0, Uint8, 1, false), FlatLeaf(1, Uint8, 1, false);
    Whole(raw);
    SameIf(ValuesOf(raw, [one, two]), [ValueOf(raw, one), ValueOf(raw, two)]);
  }

  /** The records of the first n samples: one per sample that is long enough. */
  function Records(format: Format, samples: seq<seq<byte>>, n: nat, stray: Stray): seq<Record> {
    if n == 0 || n > |samples| then []
    else
      Records(format, samples, n - 1, stray)
      + if IsShort(format, samples[n - 1]) then [] else [RecordOf(format, samples[n - 1], n - 1, stray)]
  }

  function ShortCount(format: Format, samples: seq<seq<byte>>, n: nat): nat {
    if n == 0 || n > |samples| then 0
    else ShortCount(format, samples, n - 1) + if IsShort(format, samples[n - 1]) then 1 else 0
  }

  /** Every sample is either a record or counted as short. */
  lemma {:induction false} SamplesAddUp(format: Format, samples: seq<seq<byte>>, n: nat, stray: Stray)
    requires n <= |samples|
    ensures |Records(format, samples, n, stray)| + ShortCount(format, samples, n) == n
  {
    if n > 0 {
      SamplesAddUp(format, samples, n - 1, stray);
    }
  }

  /** The loop body for a record that is long enough. */
  method ReadRecord(format: Format, clock: Option<int>, raw: seq<byte>, index: nat, stray: Stray)
    returns (record: Record)
    requires clock == ClockOffset(format.fields) && !IsShort(format, raw)
    ensures record == RecordOf(format, raw, index, stray)
  {
    var micros := index;
    if clock.Some? {
      micros := ClockRead(raw, clock.value, index, stray);
    }
    var values := ExtractFlatValues(raw, format);
    record := Record(Wrap64(micros * 1000), values);
  }

  /** The import of one subscription, stopping at the first record the host refuses. */
  method ImportSamples(format: Format, samples: seq<seq<byte>>, stray: Stray, host: Record -> bool)
    returns (names: seq<string>, written: seq<Record>, short: nat, ok: bool)
    ensures names == Names(format, [], |format.fields|)
    ensures names == [] ==> written == [] && short == 0 && ok
    ensures names != [] && ok ==>
              written == Records(format, samples, |samples|, stray) && |written| + short == |samples|
    ensures !ok ==> exists n :: 0 <= n < |samples| && written == Records(format, samples, n, stray)
                                && !IsShort(format, samples[n]) && !host(RecordOf(format, samples[n], n, stray))
  {
    names := CollectFlatFieldNames(format, [], []);
    written, short, ok := [], 0, true;
    if names == [] {
      return;
    }
    var clock := FindTimestampOffset(format);
    var size := LoggedSizeBytes(format);
    for i := 0 to |samples|
      invariant written == Records(format, samples, i, stray) && short == ShortCount(format, samples, i)
    {
      if |samples[i]| < size {
        short := short + 1;
        continue;
      }
      var record := ReadRecord(format, clock, samples[i], i, stray);
      if !host(record) {
        return names, written, short, false;
      }
      written := written + [record];
    }
    SamplesAddUp(format, samples, |samples|, stray);
  }

  lemma {:induction false} LeafIsNotNested(format: Format, base: int, path: Path)
    requires Leads(format, path)
    decreases path
    ensures LeafAt(format, base, path).kind != Nested
  {
    if |path| > 1 {
      var f := format.fields[path[0].field];
      LeafIsNotNested(f.nested.value, base + f.offset + Times(f.nested.value.sizeBytes, path[0].element), path[1..]);
    }
  }

  // ----- when no accepted record takes the null branch -----

  /** The bytes of repeated-name fields fit behind the last leaf, or the format ends in padding. */
  predicate Covered(format: Format) {
    var n := |format.fields|;
    EndsInPadding(format) || RepeatedBytes(format.fields, n) <= Tail(format, n)
  }

  lemma DistinctIsCovered(format: Format)
    requires DistinctNames(format.fields)
    ensures Covered(format)
  {
    SizeAndRepeated(format.fields, |format.fields|);
    SizeByNameIsTotal(format.fields, |format.fields|);
  }

  /** A chain of leaves stays within hi exactly when its last leaf does. */
  lemma ChainedByLast(leaves: seq<FlatLeaf>, lo: int, to: int, hi: int)
    requires Chained(leaves, lo, to) && lo <= hi
    ensures Chained(leaves, lo, hi) <==> |leaves| == 0 || End(leaves[|leaves| - 1]) <= hi
  {
    if |leaves| > 0 {
      EndsByLast(leaves);
    }
  }

  /** The end of the last leaf, against the checked size. */
  lemma LastWithinExactly(format: Format)
    requires Resolved(format) && NestedDistinct(format) && !EndsInPadding(format)
    ensures var leaves := Leaves(format, 0, |format.fields|);
            |leaves| == 0 || End(leaves[|leaves| - 1]) <= LoggedSizeBytes(format) <==> Covered(format)
  {
    var n := |format.fields|;
    LoggedExactly(format);
    SizeAndRepeated(format.fields, n);
    LeavesEmit(format, 0, n);
    if Emits(format, n) {
      LastLeaf(format, 0, n);
    } else {
      NoLeafAllTail(format, n);
    }
  }

  lemma PaddingEmitsNothing(format: Format)
    requires EndsInPadding(format)
    ensures Same(Leaves(format, 0, |format.fields|), Leaves(format, 0, |format.fields| - 1))
  {
    NothingAfter(Leaves(format, 0, |format.fields| - 1), []);
  }

  /** All leaves are pairwise disjoint and in order; and they end within the checked size exactly when the format is
      covered. */
  lemma LeavesWithinLogged(format: Format)
    requires Resolved(format) && NestedDistinct(format)
    ensures var n := |format.fields|;
            && Chained(Leaves(format, 0, n), 0, Start(format.fields, n))
            && (Chained(Leaves(format, 0, n), 0, LoggedSizeBytes(format)) <==> Covered(format))
  {
    var n := |format.fields|;
    LeavesChained(format, 0, n);
    if EndsInPadding(format) {
      PaddingEmitsNothing(format);
      LeavesChained(format, 0, n - 1);
      LoggedExactly(format);
    } else {
      LastWithinExactly(format);
      LoggedExactly(format);
      SizeAndRepeated(format.fields, n);
      ChainedByLast(Leaves(format, 0, n), 0, Start(format.fields, n), LoggedSizeBytes(format));
    }
  }

  lemma EndsByLast(leaves: seq<FlatLeaf>)
    requires |leaves| > 0 && forall i, j :: 0 <= i < j < |leaves| ==> End(leaves[i]) <= leaves[j].offset
    ensures forall i :: 0 <= i < |leaves| ==> End(leaves[i]) <= End(leaves[|leaves| - 1])
  {
  }

  /** A leaf that is in range has a value. */
  lemma LeafHasValue(format: Format, raw: seq<byte>, i: nat)
    requires var leaves := Leaves(format, 0, |format.fields|);
             i < |leaves| && 0 <= leaves[i].offset && End(leaves[i]) <= |raw|
    ensures ValueOf(raw, Leaves(format, 0, |format.fields|)[i]) != Null
  {
    var n := |format.fields|;
    FieldsAligned(format, [], 0, n);
    assert AlignedAt(format, [], 0, Paths(format, n)[i], Names(format, [], n)[i], Leaves(format, 0, n)[i]);
    LeafIsNotNested(format, 0, Paths(format, n)[i]);
  }

  /** A record that passes the size check has a value for every leaf of a covered format. */
  lemma AcceptedHasNoNull(format: Format, raw: seq<byte>)
    requires Resolved(format) && NestedDistinct(format) && Covered(format) && !IsShort(format, raw)
    ensures Null !in ValuesOf(raw, Leaves(format, 0, |format.fields|))
  {
    var leaves := Leaves(format, 0, |format.fields|);
    LeavesWithinLogged(format);
    forall i | 0 <= i < |leaves| ensures ValueOf(raw, leaves[i]) != Null {
      LeafHasValue(format, raw, i);
    }
  }

  /** The shortest record the check accepts misses the last leaf of a format that is not covered. */
  lemma UncoveredHasNull(format: Format, raw: seq<byte>)
    requires Resolved(format) && NestedDistinct(format) && !Covered(format) && |raw| == LoggedSizeBytes(format)
    ensures Null in ValuesOf(raw, Leaves(format, 0, |format.fields|))
  {
    var n := |format.fields|;
    var leaves := Leaves(format, 0, n);
    LoggedExactly(format);
    LeavesEmit(format, 0, n);
    SizeAndRepeated(format.fields, n);
    if |leaves| == 0 {
      NoLeafAllTail(format, n);
    } else {
      LastLeaf(format, 0, n);
      assert ValuesOf(raw, leaves)[|leaves| - 1] == Null;
    }
  }

  /** No record that passes the size check takes the null branch. */
  ghost predicate NeverNull(format: Format) {
    forall raw: seq<byte> :: !IsShort(format, raw) ==> Null !in ValuesOf(raw, Leaves(format, 0, |format.fields|))
  }

  /** That is so exactly when the format ends in padding, or the bytes of its repeated-name fields do not exceed the
      bytes behind its last leaf. */
  lemma NeverNullExactly(format: Format)
    requires Resolved(format) && NestedDistinct(format)
    ensures NeverNull(format) <==> Covered(format)
  {
    if Covered(format) {
      forall raw: seq<byte> | !IsShort(format, raw)
        ensures Null !in ValuesOf(raw, Leaves(format, 0, |format.fields|))
      {
        AcceptedHasNoNull(format, raw);
      }
    } else {
      LoggedExactly(format);
      SizeAndRepeated(format.fields, |format.fields|);
      var raw: seq<byte> := seq(LoggedSizeBytes(format), i => 0);
      UncoveredHasNull(format, raw);
      assert !IsShort(format, raw);
    }
  }

  // ----- repeated names at any depth -----

  /** The furthest end of a leaf of the first k fields, relative to the format's start; meant where there is a leaf.
      Repeated names inside a nested format make its elements overlap, so the last leaf need not be the one. */
  function FurthestEnd(format: Format, k: nat): int
    decreases format, k
  {
    if k == 0 || k > |format.fields| then 0
    else
      var f := format.fields[k - 1];
      if !FieldEmits(f) then FurthestEnd(format, k - 1)
      else if !Emits(format, k - 1) then f.offset + FieldReach(f)
      else Max(FurthestEnd(format, k - 1), f.offset + FieldReach(f))
  }

  /** The same for one field, relative to its start: the last element reaches furthest. */
  function FieldReach(f: Field): int
    decreases f, 1
  {
    Times(f.size, Count(f) - if Count(f) > 0 then 1 else 0) + ElementReach(f)
  }

  function ElementReach(f: Field): int
    decreases f, 0
  {
    if f.kind == Nested && f.nested.Some? then FurthestEnd(f.nested.value, |f.nested.value.fields|) else f.size
  }

  function Max(a: int, b: int): int {
    if a < b then b else a
  }

  /** No leaf starts before lo or ends behind hi, and if there is a leaf, one ends at hi. */
  ghost predicate Reaches(leaves: seq<FlatLeaf>, lo: int, hi: int) {
    && (forall leaf :: leaf in leaves ==> lo <= leaf.offset && End(leaf) <= hi)
    && (|leaves| > 0 ==> EndsAt(leaves, hi))
  }

  ghost predicate EndsAt(leaves: seq<FlatLeaf>, hi: int) {
    exists leaf :: leaf in leaves && End(leaf) == hi
  }

  lemma ReachesConcat(a: seq<FlatLeaf>, b: seq<FlatLeaf>, lo: int, x: int, y: int, hi: int)
    requires Reaches(a, lo, x) && Reaches(b, lo, y)
    requires hi == if |b| == 0 then x else if |a| == 0 then y else Max(x, y)
    ensures Reaches(a + b, lo, hi)
  {
    if EndsAt(a, x) {
      var leaf :| leaf in a && End(leaf) == x;
      assert leaf in a + b;
    }
    if EndsAt(b, y) {
      var leaf :| leaf in b && End(leaf) == y;
      assert leaf in a + b;
    }
  }

  lemma ReachesLater(a: seq<FlatLeaf>, b: seq<FlatLeaf>, lo: int, x: int, y: int)
    requires Reaches(a, lo, x) && Reaches(b, lo, y) && x <= y && (|a| > 0 ==> |b| > 0)
    ensures Reaches(a + b, lo, y)
  {
    ReachesConcat(a, b, lo, x, y, if |b| == 0 then x else y);
  }

  lemma {:induction false} OneReaches(f: Field, lo: int, at: int, e: nat)
    requires SizeFits(f) && (f.nested.Some? ==> Resolved(f.nested.value)) && lo <= at
    decreases f, 0
    ensures Reaches(OneLeaf(f, at, e), lo, at + Times(f.size, e) + ElementReach(f))
  {
    if f.kind == Nested {
      if f.nested.Some? {
        LeavesReach(f.nested.value, lo, at + Times(f.size, e), |f.nested.value.fields|);
      }
    } else {
      var leaves := OneLeaf(f, at, e);
      assert End(leaves[0]) == at + Times(f.size, e) + ElementReach(f);
    }
  }

  lemma SameEmission(f: Field, at: int, i: nat)
    requires !IsSkipped(f.name) && !IsString(f) && 0 < i < Count(f)
    ensures |ElementLeaves(f, at, i)| > 0 <==> |OneLeaf(f, at, i)| > 0
  {
    ElementsEmit(f, at, i);
    ElementsEmit(f, at, i + 1);
    if f.kind == Nested && f.nested.Some? {
      LeavesEmit(f.nested.value, at + Times(f.nested.value.sizeBytes, i), |f.nested.value.fields|);
    }
  }

  lemma OneMoreReaches(f: Field, lo: int, at: int, i: nat)
    requires !IsSkipped(f.name) && !IsString(f) && 0 < i <= Count(f)
    requires i > 1 ==> Reaches(ElementLeaves(f, at, i - 1), lo, at + Times(f.size, i - 2) + ElementReach(f))
    requires Reaches(OneLeaf(f, at, i - 1), lo, at + Times(f.size, i - 1) + ElementReach(f))
    ensures Reaches(ElementLeaves(f, at, i), lo, at + Times(f.size, i - 1) + ElementReach(f))
  {
    var reach := at + ElementReach(f);
    if i > 1 {
      SameEmission(f, at, i - 1);
      TimesMonotone(f.size, i - 2, i - 1);
      ReachesLater(ElementLeaves(f, at, i - 1), OneLeaf(f, at, i - 1), lo, reach + Times(f.size, i - 2),
                   reach + Times(f.size, i - 1));
    } else {
      ReachesLater([], OneLeaf(f, at, i - 1), lo, reach, reach);
    }
  }

  lemma {:induction false} ElementsReach(f: Field, lo: int, at: int, i: nat)
    requires SizeFits(f) && (f.nested.Some? ==> Resolved(f.nested.value)) && lo <= at
    requires !IsSkipped(f.name) && !IsString(f) && 0 < i <= Count(f)
    decreases f, i
    ensures Reaches(ElementLeaves(f, at, i), lo, at + Times(f.size, i - 1) + ElementReach(f))
  {
    if i > 1 {
      ElementsReach(f, lo, at, i - 1);
    }
    OneReaches(f, lo, at, i - 1);
    OneMoreReaches(f, lo, at, i);
  }

  lemma {:induction false} FieldReaches(f: Field, lo: int, base: int)
    requires SizeFits(f) && (f.nested.Some? ==> Resolved(f.nested.value)) && lo <= base && 0 <= f.offset
    decreases f, Count(f) + 1
    ensures Reaches(FieldLeaves(f, base), lo, base + f.offset + FieldReach(f))
  {
    FieldLeavesEmit(f, base);
    if FieldEmits(f) {
      if IsString(f) {
        TimesIsProduct(f.size, Count(f) - 1);
        var leaves := FieldLeaves(f, base);
        assert End(leaves[0]) == base + f.offset + FieldReach(f);
      } else {
        ElementsReach(f, lo, base + f.offset, Count(f));
      }
    }
  }

  lemma {:induction false} LeavesReach(format: Format, lo: int, base: int, k: nat)
    requires Resolved(format) && k <= |format.fields| && lo <= base
    decreases format, k
    ensures Reaches(Leaves(format, base, k), lo, base + FurthestEnd(format, k))
  {
    if k > 0 {
      var f, last := format.fields[k - 1], k - 1;
      assert FieldResolved(format, last);
      LeavesReach(format, lo, base, last);
      FieldReaches(f, lo, base);
      FieldLeavesEmit(f, base);
      LeavesEmit(format, base, last);
      ReachesConcat(Leaves(format, base, last), FieldLeaves(f, base), lo, base + FurthestEnd(format, last),
                    base + f.offset + FieldReach(f), base + FurthestEnd(format, k));
    }
  }

  /** For every resolved format, repeated names in nested formats included: no record that passes the size check takes
      the null branch exactly when no leaf ends behind the checked size. */
  lemma NeverNullByFurthestEnd(format: Format)
    requires Resolved(format)
    ensures var n := |format.fields|;
            NeverNull(format) <==> !Emits(format, n) || FurthestEnd(format, n) <= LoggedSizeBytes(format)
  {
    var n := |format.fields|;
    var leaves := Leaves(format, 0, n);
    LeavesReach(format, 0, 0, n);
    LeavesEmit(format, 0, n);
    LoggedExactly(format);
    SizeAndRepeated(format.fields, n);
    if !Emits(format, n) || FurthestEnd(format, n) <= LoggedSizeBytes(format) {
      forall raw: seq<byte> | !IsShort(format, raw) ensures Null !in ValuesOf(raw, leaves) {
        forall i | 0 <= i < |leaves| ensures ValueOf(raw, leaves[i]) != Null {
          LeafHasValue(format, raw, i);
        }
      }
    } else {
      var raw: seq<byte> := seq(LoggedSizeBytes(format), i => 0);
      assert EndsAt(leaves, FurthestEnd(format, n));
      var leaf :| leaf in leaves && End(leaf) == FurthestEnd(format, n);
      var i :| 0 <= i < |leaves| && leaves[i] == leaf;
      assert ValuesOf(raw, leaves)[i] == Null;
      assert !IsShort(format, raw);
    }
  }

  /** Every record written for a covered format has one value per name, none of them null. */
  lemma {:induction false} RecordsAreComplete(
      format: Format, samples: seq<seq<byte>>, n: nat, stray: Stray, r: Record)
    requires Resolved(format) && NestedDistinct(format) && Covered(format)
    requires r in Records(format, samples, n, stray)
    ensures |r.values| == |Names(format, [], |format.fields|)| && Null !in r.values
  {
    if n > 0 {
      if r in Records(format, samples, n - 1, stray) {
        RecordsAreComplete(format, samples, n - 1, stray, r);
      } else {
        FieldsAligned(format, [], 0, |format.fields|);
        AcceptedHasNoNull(format, samples[n - 1]);
      }
    }
  }

  // ----- a clock beyond the checked size -----

  const WORD_A := Field("a", Uint64, 8, -1, 0, None)
  const WORD_B := Field("a", Uint64, 8, -1, 8, None)
  const WORD_CLOCK := Field("timestamp", Uint64, 8, -1, 16, None)
  const LATE_CLOCK := Format([WORD_A, WORD_B, WORD_CLOCK], 16)

  lemma LateClockResolved()
    ensures Resolved(LATE_CLOCK) && NestedDistinct(LATE_CLOCK) && LoggedSizeBytes(LATE_CLOCK) == 16
    ensures ClockOffset(LATE_CLOCK.fields) == Some(16)
  {
    var fields := LATE_CLOCK.fields;
    assert fields[0].name == fields[1].name;
    assert NameTaken(fields, 1) && !NameTaken(fields, 0) && !NameTaken(fields, 2);
    TimesIsProduct(8, 1);
    assert Start(fields, 1) == Start(fields, 0) + FieldBytes(WORD_A);
    assert Start(fields, 2) == Start(fields, 1) + FieldBytes(WORD_B);
    assert SizeByName(fields, 1) == SizeByName(fields, 0) + FieldBytes(WORD_A);
    assert SizeByName(fields, 2) == SizeByName(fields, 1);
    assert SizeByName(fields, 3) == SizeByName(fields, 2) + FieldBytes(WORD_CLOCK);
    assert !IsPadding("timestamp") by {
      ClockIsNoPadding(WORD_CLOCK);
    }
    ClockIsFirst(fields, 2);
  }

  /** A record of 16 bytes passes the check, and its clock is read from bytes 16 to 24. */
  lemma ClockReadPastEnd(raw: seq<byte>, index: nat, stray: Stray)
    requires |raw| == 16
    ensures Resolved(LATE_CLOCK) && !ClockInRange(LATE_CLOCK) && !IsShort(LATE_CLOCK, raw)
    ensures Stamp(LATE_CLOCK, raw, index, stray) == Wrap64(Wrap64(stray(index)) * 1000)
  {
    LateClockResolved();
  }
}
