/** What a ULog record means: bytes put where a leaf's path says are the value that is read for it. */
module UlogValues {
  import opened Slices
  import opened Wrappers
  import opened RawBytes
  import opened Decimal
  import opened Blocks
  import opened UlogFlatten
  import opened UlogRecords

  // ----- where a leaf is, and how long -----

  /** Where the leaf at the end of a path starts: the sizes of the fields before it, element times element size, and
      the same within the nested format. */
  function Place(format: Format, path: Path): nat
    requires Leads(format, path)
    decreases path
  {
    var k, element := path[0].field, path[0].element;
    var f := format.fields[k];
    if IsString(f) then Start(format.fields, k)
    else
      Start(format.fields, k) + Times(f.size, element)
      + if |path| == 1 then 0 else Place(f.nested.value, path[1..])
  }

  /** The field at the end of a path. */
  function LeafField(format: Format, path: Path): Field
    requires Leads(format, path)
    decreases path
  {
    var f := format.fields[path[0].field];
    if IsString(f) || |path| == 1 then f else LeafField(f.nested.value, path[1..])
  }

  /** A char array as a whole, else one element of the field's kind. */
  function LeafBytes(format: Format, path: Path): nat
    requires Leads(format, path)
  {
    var f := LeafField(format, path);
    if IsString(f) then Count(f) else KindSize(f.kind)
  }

  /** The value these bytes are for that leaf: the text before the first NUL, or the bytes with the field's kind. */
  function Meant(format: Format, path: Path, bytes: seq<byte>): Value
    requires Leads(format, path)
  {
    var f := LeafField(format, path);
    if IsString(f) then Text(UntilNul(bytes)) else Bytes(f.kind, bytes)
  }

  lemma {:induction false} PlaceIsOffset(format: Format, base: nat, path: Path)
    requires Leads(format, path) && Resolved(format) && NestedDistinct(format)
    decreases path
    ensures LeafField(format, path).kind != Nested
    ensures var f := LeafField(format, path);
            LeafAt(format, base, path)
            == FlatLeaf(base + Place(format, path), if IsString(f) then Char else f.kind,
                        LeafBytes(format, path), IsString(f))
  {
    var k, element := path[0].field, path[0].element;
    assert FieldResolved(format, k);
    var f := format.fields[k];
    if !IsString(f) && |path| > 1 {
      var inner := f.nested.value;
      PlaceIsOffset(inner, base + f.offset + Times(inner.sizeBytes, element), path[1..]);
    }
  }

  // ----- reading -----

  /** All leaf paths of a format, in declaration order. */
  function AllPaths(format: Format): seq<Path> {
    Paths(format, |format.fields|)
  }

  ghost predicate AllLead(format: Format) {
    forall j :: 0 <= j < |AllPaths(format)| ==> Leads(format, AllPaths(format)[j])
  }

  /** AllLead holds of every format; as a precondition it excludes nothing. */
  lemma PathsLead(format: Format)
    ensures AllLead(format)
  {
    FieldsAligned(format, [], 0, |format.fields|);
    var paths := AllPaths(format);
    var names, leaves := Names(format, [], |format.fields|), Leaves(format, 0, |format.fields|);
    forall j | 0 <= j < |paths| ensures Leads(format, paths[j]) {
      assert AlignedAt(format, [], 0, paths[j], names[j], leaves[j]);
    }
  }

  lemma LeafOfPath(format: Format, j: nat)
    requires Resolved(format) && NestedDistinct(format) && j < |AllPaths(format)|
    ensures |Leaves(format, 0, |format.fields|)| == |AllPaths(format)| && Leads(format, AllPaths(format)[j])
    ensures var path := AllPaths(format)[j];
            var f := LeafField(format, path);
            && f.kind != Nested
            && Leaves(format, 0, |format.fields|)[j]
               == FlatLeaf(Place(format, path), if IsString(f) then Char else f.kind,
                           LeafBytes(format, path), IsString(f))
  {
    var n := |format.fields|;
    FieldsAligned(format, [], 0, n);
    var path := AllPaths(format)[j];
    assert AlignedAt(format, [], 0, path, Names(format, [], n)[j], Leaves(format, 0, n)[j]);
    PlaceIsOffset(format, 0, path);
  }

  /** The j-th value of a record is what the bytes at the j-th leaf's place mean; it is null when they are not all
      there. */
  lemma ValueExactly(format: Format, raw: seq<byte>, j: nat)
    requires Resolved(format) && NestedDistinct(format) && j < |AllPaths(format)|
    ensures Leads(format, AllPaths(format)[j])
    ensures var path := AllPaths(format)[j];
            var at, size := Place(format, path), LeafBytes(format, path);
            var values := ValuesOf(raw, Leaves(format, 0, |format.fields|));
            && |values| == |AllPaths(format)|
            && values[j] == if at + size <= |raw| then Meant(format, path, raw[at..at + size]) else Null
  {
    LeafOfPath(format, j);
  }

  // ----- writing -----

  /** One block of bytes for every leaf, each of the leaf's size. */
  ghost predicate Contents(format: Format, blocks: seq<seq<byte>>)
    requires AllLead(format)
  {
    && |blocks| == |AllPaths(format)|
    && forall j :: 0 <= j < |blocks| ==> |blocks[j]| == LeafBytes(format, AllPaths(format)[j])
  }

  function Put(raw: seq<byte>, at: nat, block: seq<byte>): (r: seq<byte>)
    ensures |r| == |raw|
  {
    if at + |block| <= |raw| then raw[..at] + block + raw[at + |block|..] else raw
  }

  /** The first k blocks, each put at its leaf's place. */
  function PutAll(format: Format, raw: seq<byte>, blocks: seq<seq<byte>>, k: nat): (r: seq<byte>)
    requires AllLead(format) && k <= |blocks| == |AllPaths(format)|
    ensures |r| == |raw|
  {
    if k == 0 then raw
    else Put(PutAll(format, raw, blocks, k - 1), Place(format, AllPaths(format)[k - 1]), blocks[k - 1])
  }

  lemma PutThere(raw: seq<byte>, at: nat, block: seq<byte>)
    requires at + |block| <= |raw|
    ensures Same(Put(raw, at, block)[at..at + |block|], block)
  {
    SameIf(Put(raw, at, block)[at..at + |block|], block);
  }

  lemma PutElsewhere(raw: seq<byte>, at: nat, block: seq<byte>, lo: nat, hi: nat)
    requires lo <= hi <= |raw| && (hi <= at || at + |block| <= lo)
    ensures Same(Put(raw, at, block)[lo..hi], raw[lo..hi])
  {
    SameIf(Put(raw, at, block)[lo..hi], raw[lo..hi]);
  }

  /** The places of two leaves do not overlap, and all lie within the bytes a long enough record has. */
  lemma PlacesApart(format: Format, i: nat, j: nat)
    requires Resolved(format) && NestedDistinct(format) && Covered(format) && i < j < |AllPaths(format)|
    ensures Leads(format, AllPaths(format)[i]) && Leads(format, AllPaths(format)[j])
    ensures Place(format, AllPaths(format)[i]) + LeafBytes(format, AllPaths(format)[i])
            <= Place(format, AllPaths(format)[j])
  {
    LeavesWithinLogged(format);
    LeafOfPath(format, i);
    LeafOfPath(format, j);
  }

  lemma PlaceWithin(format: Format, j: nat)
    requires Resolved(format) && NestedDistinct(format) && Covered(format) && j < |AllPaths(format)|
    ensures Leads(format, AllPaths(format)[j])
    ensures Place(format, AllPaths(format)[j]) + LeafBytes(format, AllPaths(format)[j]) <= LoggedSizeBytes(format)
  {
    LeavesWithinLogged(format);
    LeafOfPath(format, j);
  }

  lemma {:induction false} PutIsThere(format: Format, raw: seq<byte>, blocks: seq<seq<byte>>, k: nat, j: nat)
    requires Resolved(format) && NestedDistinct(format) && Covered(format) && AllLead(format)
    requires Contents(format, blocks) && j < k <= |blocks| && !IsShort(format, raw)
    ensures var at := Place(format, AllPaths(format)[j]);
            at + |blocks[j]| <= |raw| && Same(PutAll(format, raw, blocks, k)[at..at + |blocks[j]|], blocks[j])
  {
    var at, last := Place(format, AllPaths(format)[j]), k - 1;
    var before := PutAll(format, raw, blocks, last);
    PlaceWithin(format, j);
    if j < last {
      PutIsThere(format, raw, blocks, last, j);
      PlacesApart(format, j, last);
      PutElsewhere(before, Place(format, AllPaths(format)[last]), blocks[last], at, at + |blocks[j]|);
    } else {
      PutThere(before, at, blocks[j]);
    }
  }

  /** Any bytes for the leaves of a covered format, put into any long enough record, are read back: the j-th value is
      what the j-th block means. */
  lemma ValuesReadBack(format: Format, raw: seq<byte>, blocks: seq<seq<byte>>, j: nat)
    requires Resolved(format) && NestedDistinct(format) && Covered(format) && AllLead(format)
    requires Contents(format, blocks) && j < |blocks| && !IsShort(format, raw)
    ensures var values := ValuesOf(PutAll(format, raw, blocks, |blocks|), Leaves(format, 0, |format.fields|));
            |values| == |blocks| && values[j] == Meant(format, AllPaths(format)[j], blocks[j])
  {
    PutIsThere(format, raw, blocks, |blocks|, j);
    ValueThere(format, PutAll(format, raw, blocks, |blocks|), j, blocks[j]);
  }

  lemma ValueThere(format: Format, raw: seq<byte>, j: nat, block: seq<byte>)
    requires Resolved(format) && NestedDistinct(format) && AllLead(format) && j < |AllPaths(format)|
    requires |block| == LeafBytes(format, AllPaths(format)[j])
    requires var at := Place(format, AllPaths(format)[j]);
             at + |block| <= |raw| && Same(raw[at..at + |block|], block)
    ensures var values := ValuesOf(raw, Leaves(format, 0, |format.fields|));
            |values| == |AllPaths(format)| && values[j] == Meant(format, AllPaths(format)[j], block)
  {
    ValueExactly(format, raw, j);
  }

  // ----- names -----

  /** Skipped are the clock's name and every name that starts with "_padding". */
  lemma SkippedExactly(name: string)
    ensures IsSkipped(name) <==> name == "timestamp" || exists rest :: name == "_padding" + rest
  {
    if StartsWith(name, "_padding") {
      assert name == "_padding" + name[8..];
    }
    if rest :| name == "_padding" + rest {
      CutConcat("_padding", rest);
    }
  }

  function ElementWords(f: Field, e: nat): seq<string> {
    [f.name] + if f.arrayLength > 0 then [if e < 10 then "0" + ToString(e) else ToString(e)] else []
  }

  /** The words of a leaf's name: the fields on its path, each followed by its element number where it is an array. */
  function NameWords(format: Format, path: Path): seq<string>
    requires Leads(format, path)
    decreases path
  {
    var f, e := format.fields[path[0].field], path[0].element;
    if IsString(f) then [f.name]
    else ElementWords(f, e) + if |path| == 1 then [] else NameWords(f.nested.value, path[1..])
  }

  function Dotted(words: seq<string>): string {
    if words == [] then "" else if |words| == 1 then words[0] else words[0] + "." + Dotted(words[1..])
  }

  /** No field on the path has an empty name. */
  predicate IsNamed(format: Format, path: Path)
    requires Leads(format, path)
    decreases path
  {
    var f := format.fields[path[0].field];
    f.name != "" && (IsString(f) || |path| == 1 || IsNamed(f.nested.value, path[1..]))
  }

  lemma {:induction false} DottedConcat(a: seq<string>, b: seq<string>)
    requires a != [] && b != []
    ensures Same(Dotted(a + b), Dotted(a) + "." + Dotted(b))
  {
    SuffixOfConcat(a, b, 1);
    if |a| == 1 {
      assert (a + b)[1..] == b;
    } else {
      DottedConcat(a[1..], b);
      var x, y, z := a[0] + ".", Dotted(a[1..]), "." + Dotted(b);
      assert x + (y + z) == (x + y) + z;
      assert y + z == y + "." + Dotted(b) && (x + y) + z == (x + y) + "." + Dotted(b);
    }
  }

  lemma TwoDigits(e: nat)
    ensures Same(Padded(e, 2), if e < 10 then "0" + ToString(e) else ToString(e))
  {
    if e < 10 {
      assert Zeros(1) == Zeros(0) + ['0'] == ['0'];
      assert |ToString(e)| == 1;
    } else {
      assert |ToString(e)| >= 2;
      NothingBefore(Zeros(2 - |ToString(e)|), ToString(e));
    }
  }

  lemma NoDotAtFront(prefix: string, f: Field, e: nat)
    requires f.name != ""
    ensures var here := [f.name] + if f.arrayLength > 0 then [Padded(e, 2)] else [];
            Same(ElementName(f, prefix, e), if prefix == "" then Dotted(here) else prefix + "." + Dotted(here))
  {
    var digits := Padded(e, 2);
    if f.arrayLength > 0 {
      assert ([f.name] + [digits])[1..] == [digits];
      var x := if prefix == "" then f.name else prefix + "." + f.name;
      assert x + ("." + digits)
             == (if prefix == "" then f.name + "." + digits else prefix + "." + (f.name + "." + digits));
    } else {
      assert [f.name] + [] == [f.name];
      NothingAfter(Joined(prefix, f.name), []);
    }
  }

  function Below(prefix: string, name: string): string {
    if prefix == "" then name else prefix + "." + name
  }

  lemma DotsAssociate(prefix: string, a: string, b: string)
    ensures Same(Below(prefix, a) + "." + b, Below(prefix, a + "." + b))
  {
    SameIf(Below(prefix, a) + "." + b, Below(prefix, a + "." + b));
  }

  lemma ElementNamed(prefix: string, f: Field, e: nat)
    requires f.name != ""
    ensures Same(ElementName(f, prefix, e), Below(prefix, Dotted(ElementWords(f, e))))
    ensures ElementName(f, prefix, e) != ""
  {
    TwoDigits(e);
    NoDotAtFront(prefix, f, e);
  }

  /** The name of a leaf is the words on its path, with dots between them. */
  lemma {:induction false} NameExactly(format: Format, prefix: string, path: Path)
    requires Leads(format, path) && IsNamed(format, path)
    decreases path
    ensures NameWords(format, path) != []
    ensures Same(NameAt(format, prefix, path), Below(prefix, Dotted(NameWords(format, path))))
  {
    var f, e := format.fields[path[0].field], path[0].element;
    if IsString(f) {
      assert Dotted([f.name]) == f.name;
    } else {
      var here := ElementWords(f, e);
      ElementNamed(prefix, f, e);
      if |path| == 1 {
        NothingAfter(here, []);
      } else {
        var rest := NameWords(f.nested.value, path[1..]);
        NameExactly(f.nested.value, ElementName(f, prefix, e), path[1..]);
        DottedConcat(here, rest);
        DotsAssociate(prefix, Dotted(here), Dotted(rest));
      }
    }
  }

  /** So the j-th column of a subscription is named. */
  lemma ColumnNamed(format: Format, j: nat)
    requires j < |AllPaths(format)| && Leads(format, AllPaths(format)[j]) && IsNamed(format, AllPaths(format)[j])
    ensures var names := Names(format, "", |format.fields|);
            |names| == |AllPaths(format)| && names[j] == Dotted(NameWords(format, AllPaths(format)[j]))
  {
    var n, path := |format.fields|, AllPaths(format)[j];
    FieldsAligned(format, "", 0, n);
    assert AlignedAt(format, "", 0, path, Names(format, "", n)[j], Leaves(format, 0, n)[j]);
    NameExactly(format, "", path);
  }

  // ----- stamps -----

  /** The clock is the first top-level scalar uint64 field of that name; without one the sample's index stands in, as
      microseconds. */
  lemma ClockExactly(format: Format, raw: seq<byte>, index: nat, stray: Stray)
    ensures var clocks := set k | 0 <= k < |format.fields| && format.fields[k].name == "timestamp"
                                  && format.fields[k].kind == Uint64 && format.fields[k].arrayLength < 0
                                  && format.fields[k].offset >= 0;
            var clock := ClockOffset(format.fields);
            && (clock.None? <==> clocks == {})
            && (clock.Some? ==> exists k :: k in clocks && clock.value == format.fields[k].offset
                                            && forall j :: j in clocks ==> k <= j)
            && (clock.None? && index * 1000 <= 0x7FFF_FFFF_FFFF_FFFF ==>
                  Stamp(format, raw, index, stray) == index * 1000)
  {
    var clock := ClockOffset(format.fields);
    var clocks := set k | 0 <= k < |format.fields| && format.fields[k].name == "timestamp"
                          && format.fields[k].kind == Uint64 && format.fields[k].arrayLength < 0
                          && format.fields[k].offset >= 0;
    if clock.Some? {
      var k :| 0 <= k < |format.fields| && IsClock(format.fields[k]) && format.fields[k].offset == clock.value
               && forall j :: 0 <= j < k ==> !IsClock(format.fields[j]);
      forall j | 0 <= j < |format.fields| && IsClock(format.fields[j]) ensures k <= j {}
      assert k in clocks;
    }
  }
}
