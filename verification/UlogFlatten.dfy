/** Flattening nested ULog message formats: two traversals, one for names and one for byte ranges. */
module UlogFlatten {
  import opened Wrappers
  import opened Decimal
  import opened Blocks

  datatype Kind =
    | Int8 | Uint8 | Int16 | Uint16 | Int32 | Uint32 | Int64 | Uint64 | Float | Double | Bool | Char | Nested

  /** One field of a resolved format; `size` is that of one element, an `arrayLength` below 0 means no array. */
  datatype Field = Field(name: string, kind: Kind, size: nat, arrayLength: int, offset: int, nested: Option<Format>)

  datatype Format = Format(fields: seq<Field>, sizeBytes: nat)

  datatype FlatLeaf = FlatLeaf(offset: int, kind: Kind, size: nat, isString: bool)

  predicate StartsWith(s: string, prefix: string) {
    |prefix| <= |s| && s[..|prefix|] == prefix
  }

  predicate IsPadding(name: string) {
    StartsWith(name, "_padding")
  }

  predicate IsSkipped(name: string) {
    name == "timestamp" || IsPadding(name)
  }

  predicate IsString(f: Field) {
    f.kind == Char && f.arrayLength > 0
  }

  function Count(f: Field): nat {
    if f.arrayLength < 0 then 1 else f.arrayLength
  }

  // ----- the two traversals -----

  function Joined(prefix: string, name: string): string {
    if prefix == [] then name else prefix + "." + name
  }

  /** The name of element i of a field. */
  function ElementName(f: Field, prefix: string, i: nat): string {
    Joined(prefix, f.name) + if f.arrayLength > 0 then "." + Padded(i, 2) else []
  }

  /** Names of the first k fields. */
  function Names(format: Format, prefix: string, k: nat): seq<string>
    decreases format, k
  {
    if k == 0 || k > |format.fields| then []
    else
      Names(format, prefix, k - 1) + FieldNames(format.fields[k - 1], prefix)
  }

  function FieldNames(f: Field, prefix: string): seq<string>
    decreases f, Count(f) + 1
  {
    if IsSkipped(f.name) then []
    else if IsString(f) then [Joined(prefix, f.name)]
    else ElementNames(f, prefix, Count(f))
  }

  /** Names of the first i elements of a field. */
  function ElementNames(f: Field, prefix: string, i: nat): seq<string>
    decreases f, i
  {
    if i == 0 then [] else ElementNames(f, prefix, i - 1) + OneName(f, prefix, i - 1)
  }

  function OneName(f: Field, prefix: string, e: nat): seq<string>
    decreases f, 0
  {
    if f.kind != Nested then [ElementName(f, prefix, e)]
    else if f.nested.None? then []
    else Names(f.nested.value, ElementName(f, prefix, e), |f.nested.value.fields|)
  }

  /** Leaves of the first k fields, `base` being where the format starts in the record. */
  function Leaves(format: Format, base: int, k: nat): seq<FlatLeaf>
    decreases format, k
  {
    if k == 0 || k > |format.fields| then []
    else
      Leaves(format, base, k - 1) + FieldLeaves(format.fields[k - 1], base)
  }

  function FieldLeaves(f: Field, base: int): seq<FlatLeaf>
    decreases f, Count(f) + 1
  {
    if IsSkipped(f.name) then []
    else if IsString(f) then [FlatLeaf(base + f.offset, Char, Count(f), true)]
    else ElementLeaves(f, base + f.offset, Count(f))
  }

  /** Leaves of the first i elements of a field that starts at `at`. */
  function ElementLeaves(f: Field, at: int, i: nat): seq<FlatLeaf>
    decreases f, i
  {
    if i == 0 then [] else ElementLeaves(f, at, i - 1) + OneLeaf(f, at, i - 1)
  }

  function OneLeaf(f: Field, at: int, e: nat): seq<FlatLeaf>
    decreases f, 0
  {
    if f.kind != Nested then [FlatLeaf(at + Times(f.size, e), f.kind, f.size, false)]
    else if f.nested.None? then []
    else Leaves(f.nested.value, at + Times(f.nested.value.sizeBytes, e), |f.nested.value.fields|)
  }

  /** The field loop of collectFlatFieldNames. */
  method CollectFlatFieldNames(format: Format, prefix: string, before: seq<string>) returns (out: seq<string>)
    decreases format, |format.fields| + 1
    ensures out == before + Names(format, prefix, |format.fields|)
  {
    out := before;
    for k := 0 to |format.fields|
      invariant out == before + Names(format, prefix, k)
    {
      out := CollectFieldNames(format.fields[k], prefix, out);
    }
  }

  /** Its body: a skipped field, a string, or the element loop. */
  method CollectFieldNames(field: Field, prefix: string, before: seq<string>) returns (out: seq<string>)
    decreases field, Count(field) + 1
    ensures out == before + FieldNames(field, prefix)
  {
    out := before;
    if IsSkipped(field.name) {
      return;
    }
    if IsString(field) {
      out := out + [Joined(prefix, field.name)];
      return;
    }
    for i := 0 to Count(field)
      invariant out == before + ElementNames(field, prefix, i)
    {
      var name := ElementName(field, prefix, i);
      if field.kind == Nested {
        if field.nested.Some? {
          out := CollectFlatFieldNames(field.nested.value, name, out);
        }
      } else {
        out := out + [name];
      }
    }
  }

  /** forEachFlatLeaf with a visitor that collects: the field loop. */
  method CollectFlatLeaves(format: Format, base: int, before: seq<FlatLeaf>) returns (out: seq<FlatLeaf>)
    decreases format, |format.fields| + 1
    ensures out == before + Leaves(format, base, |format.fields|)
  {
    out := before;
    for k := 0 to |format.fields|
      invariant out == before + Leaves(format, base, k)
    {
      out := CollectFieldLeaves(format.fields[k], base, out);
    }
  }

  method CollectFieldLeaves(field: Field, base: int, before: seq<FlatLeaf>) returns (out: seq<FlatLeaf>)
    decreases field, Count(field) + 1
    ensures out == before + FieldLeaves(field, base)
  {
    out := before;
    if IsSkipped(field.name) {
      return;
    }
    var at := base + field.offset;
    if IsString(field) {
      out := out + [FlatLeaf(at, Char, Count(field), true)];
    } else if field.kind == Nested {
      if field.nested.None? {
        NoElements(field, at, Count(field));
        return;
      }
      for i := 0 to Count(field)
        invariant out == before + ElementLeaves(field, at, i)
      {
        out := CollectFlatLeaves(field.nested.value, at + Times(field.nested.value.sizeBytes, i), out);
      }
    } else {
      for i := 0 to Count(field)
        invariant out == before + ElementLeaves(field, at, i)
      {
        out := out + [FlatLeaf(at + Times(field.size, i), field.kind, field.size, false)];
      }
    }
  }

  lemma {:induction false} NoElements(f: Field, at: int, i: nat)
    requires f.kind == Nested && f.nested.None?
    ensures ElementLeaves(f, at, i) == []
  {
    if i > 0 {
      NoElements(f, at, i - 1);
    }
  }

  // ----- one path per leaf -----

  /** Element `element` of field `field` of the format reached so far. */
  datatype Step = Step(field: nat, element: nat)

  type Path = seq<Step>

  function Prepended(step: Step, paths: seq<Path>): (r: seq<Path>)
    ensures |r| == |paths|
    ensures forall i :: 0 <= i < |paths| ==> r[i] == [step] + paths[i]
  {
    seq(|paths|, i requires 0 <= i < |paths| => [step] + paths[i])
  }

  /** The leaf paths of the first k fields, in declaration order. */
  function Paths(format: Format, k: nat): seq<Path>
    decreases format, k
  {
    if k == 0 || k > |format.fields| then []
    else
      Paths(format, k - 1) + FieldPaths(format.fields[k - 1], k - 1)
  }

  function FieldPaths(f: Field, k: nat): seq<Path>
    decreases f, Count(f) + 1
  {
    if IsSkipped(f.name) then []
    else if IsString(f) then [[Step(k, 0)]]
    else ElementPaths(f, k, Count(f))
  }

  function ElementPaths(f: Field, k: nat, i: nat): seq<Path>
    decreases f, i
  {
    if i == 0 then [] else ElementPaths(f, k, i - 1) + OnePath(f, k, i - 1)
  }

  function OnePath(f: Field, k: nat, e: nat): seq<Path>
    decreases f, 0
  {
    if f.kind != Nested then [[Step(k, e)]]
    else if f.nested.None? then []
    else Prepended(Step(k, e), Paths(f.nested.value, |f.nested.value.fields|))
  }

  /** A path leads from the format to a leaf. */
  predicate Leads(format: Format, path: Path)
    decreases path
  {
    && path != [] && path[0].field < |format.fields|
    && var f := format.fields[path[0].field];
       if |path| == 1 then IsString(f) || f.kind != Nested
       else f.kind == Nested && f.nested.Some? && Leads(f.nested.value, path[1..])
  }

  /** The name of the leaf at the end of a path. */
  function NameAt(format: Format, prefix: string, path: Path): string
    requires Leads(format, path)
    decreases path
  {
    var f := format.fields[path[0].field];
    if IsString(f) then Joined(prefix, f.name)
    else if |path| == 1 then ElementName(f, prefix, path[0].element)
    else NameAt(f.nested.value, ElementName(f, prefix, path[0].element), path[1..])
  }

  /** The byte range of the leaf at the end of a path. */
  function LeafAt(format: Format, base: int, path: Path): FlatLeaf
    requires Leads(format, path)
    decreases path
  {
    var f := format.fields[path[0].field];
    if IsString(f) then FlatLeaf(base + f.offset, Char, Count(f), true)
    else if |path| == 1 then FlatLeaf(base + f.offset + Times(f.size, path[0].element), f.kind, f.size, false)
    else LeafAt(f.nested.value, base + f.offset + Times(f.nested.value.sizeBytes, path[0].element), path[1..])
  }

  /** Names and leaves are those of the same paths, one for one. */
  ghost predicate Aligned(
      format: Format, prefix: string, base: int, paths: seq<Path>, names: seq<string>, leaves: seq<FlatLeaf>)
  {
    && |paths| == |names| == |leaves|
    && forall j :: 0 <= j < |paths| ==> AlignedAt(format, prefix, base, paths[j], names[j], leaves[j])
  }

  ghost predicate AlignedAt(format: Format, prefix: string, base: int, path: Path, name: string, leaf: FlatLeaf) {
    Leads(format, path) && name == NameAt(format, prefix, path) && leaf == LeafAt(format, base, path)
  }

  lemma AlignedConcat(
      format: Format, prefix: string, base: int, p: seq<Path>, n: seq<string>, l: seq<FlatLeaf>, p': seq<Path>,
      n': seq<string>, l': seq<FlatLeaf>)
    requires Aligned(format, prefix, base, p, n, l) && Aligned(format, prefix, base, p', n', l')
    ensures Aligned(format, prefix, base, p + p', n + n', l + l')
  {
  }

  lemma AlignedStep(format: Format, prefix: string, base: int, k: nat, i: nat, path: Path, name: string, leaf: FlatLeaf)
    requires k < |format.fields|
    requires var f := format.fields[k];
             f.kind == Nested && f.nested.Some?
             && AlignedAt(f.nested.value, ElementName(f, prefix, i),
                          base + f.offset + Times(f.nested.value.sizeBytes, i), path, name, leaf)
    ensures AlignedAt(format, prefix, base, [Step(k, i)] + path, name, leaf)
  {
    assert ([Step(k, i)] + path)[1..] == path;
  }

  lemma AlignedNested(format: Format, prefix: string, base: int, k: nat, i: nat)
    requires k < |format.fields|
    requires format.fields[k].kind == Nested && format.fields[k].nested.Some?
    requires var f, inner := format.fields[k], format.fields[k].nested.value;
             var name, at := ElementName(f, prefix, i), base + f.offset + Times(inner.sizeBytes, i);
             Aligned(inner, name, at, Paths(inner, |inner.fields|), Names(inner, name, |inner.fields|),
                     Leaves(inner, at, |inner.fields|))
    ensures var f := format.fields[k];
            Aligned(format, prefix, base, OnePath(f, k, i), OneName(f, prefix, i), OneLeaf(f, base + f.offset, i))
  {
    var f, inner := format.fields[k], format.fields[k].nested.value;
    var name, at := ElementName(f, prefix, i), base + f.offset + Times(inner.sizeBytes, i);
    var n := |inner.fields|;
    var paths, names, leaves := Paths(inner, n), Names(inner, name, n), Leaves(inner, at, n);
    forall j | 0 <= j < |paths|
      ensures AlignedAt(format, prefix, base, Prepended(Step(k, i), paths)[j], names[j], leaves[j])
    {
      AlignedStep(format, prefix, base, k, i, paths[j], names[j], leaves[j]);
    }
  }

  lemma {:induction false} OneAligned(format: Format, prefix: string, base: int, k: nat, e: nat)
    requires k < |format.fields| && !IsString(format.fields[k])
    decreases format.fields[k], 0
    ensures var f := format.fields[k];
            Aligned(format, prefix, base, OnePath(f, k, e), OneName(f, prefix, e), OneLeaf(f, base + f.offset, e))
  {
    var f := format.fields[k];
    if f.kind == Nested && f.nested.Some? {
      var inner := f.nested.value;
      FieldsAligned(inner, ElementName(f, prefix, e), base + f.offset + Times(inner.sizeBytes, e), |inner.fields|);
      AlignedNested(format, prefix, base, k, e);
    } else if f.kind != Nested {
      LeafAligned(format, prefix, base, k, e);
    }
  }

  lemma LeafAligned(format: Format, prefix: string, base: int, k: nat, e: nat)
    requires k < |format.fields| && !IsString(format.fields[k]) && format.fields[k].kind != Nested
    ensures var f := format.fields[k];
            Aligned(format, prefix, base, OnePath(f, k, e), OneName(f, prefix, e), OneLeaf(f, base + f.offset, e))
  {
  }

  lemma {:induction false} ElementsAligned(format: Format, prefix: string, base: int, k: nat, i: nat)
    requires k < |format.fields| && !IsString(format.fields[k])
    decreases format.fields[k], i
    ensures var f := format.fields[k];
            Aligned(format, prefix, base, ElementPaths(f, k, i), ElementNames(f, prefix, i),
                    ElementLeaves(f, base + f.offset, i))
  {
    if i > 0 {
      var f, e := format.fields[k], i - 1;
      ElementsAligned(format, prefix, base, k, e);
      OneAligned(format, prefix, base, k, e);
      var at := base + f.offset;
      AlignedConcat(format, prefix, base, ElementPaths(f, k, e), ElementNames(f, prefix, e), ElementLeaves(f, at, e),
                    OnePath(f, k, e), OneName(f, prefix, e), OneLeaf(f, at, e));
    }
  }

  /** The two traversals yield equally long lists whose entries belong to the same paths, in the same order. */
  lemma {:induction false} FieldsAligned(format: Format, prefix: string, base: int, k: nat)
    requires k <= |format.fields|
    decreases format, k
    ensures Aligned(format, prefix, base, Paths(format, k), Names(format, prefix, k), Leaves(format, base, k))
  {
    if k > 0 {
      var last := k - 1;
      var f := format.fields[last];
      FieldsAligned(format, prefix, base, last);
      if !IsSkipped(f.name) && !IsString(f) {
        ElementsAligned(format, prefix, base, last, Count(f));
      }
      AlignedConcat(format, prefix, base, Paths(format, last), Names(format, prefix, last), Leaves(format, base, last),
                    FieldPaths(f, last), FieldNames(f, prefix), FieldLeaves(f, base));
    }
  }

  // ----- the paths are exactly the leaves -----

  /** A path to a leaf the importer emits: no skipped field on the way, every element within its array. */
  ghost predicate IsLeafPath(format: Format, k: nat, path: Path)
    requires k <= |format.fields|
    decreases path
  {
    && path != [] && path[0].field < k && !IsSkipped(format.fields[path[0].field].name)
    && ElementLeads(format.fields[path[0].field], path)
  }

  ghost predicate ElementLeads(f: Field, path: Path)
    requires path != []
    decreases path, 0
  {
    if IsString(f) then |path| == 1 && path[0].element == 0
    else
      && path[0].element < Count(f)
      && if f.kind != Nested then |path| == 1
         else f.nested.Some? && IsLeafPath(f.nested.value, |f.nested.value.fields|, path[1..])
  }

  lemma {:induction false} ElementPathsExactly(f: Field, k: nat, i: nat, path: Path)
    requires !IsString(f) && i <= Count(f)
    decreases f, i
    ensures path in ElementPaths(f, k, i)
            <==> path != [] && path[0].field == k && path[0].element < i && ElementLeads(f, path)
  {
    if i > 0 {
      var e := i - 1;
      ElementPathsExactly(f, k, e, path);
      OnlyStep(Step(k, e), path);
      if f.kind == Nested && f.nested.Some? {
        var inner := f.nested.value;
        var paths := Paths(inner, |inner.fields|);
        if path != [] {
          PathsExactly(inner, |inner.fields|, path[1..]);
          PrependedHolds(Step(k, e), paths, path);
        }
      }
    }
  }

  lemma OnlyStep(step: Step, path: Path)
    ensures path == [step] <==> |path| == 1 && path[0].field == step.field && path[0].element == step.element
    ensures path != [] ==> (path[0] == step <==> path[0].field == step.field && path[0].element == step.element)
  {
  }

  lemma PrependedHolds(step: Step, paths: seq<Path>, path: Path)
    requires path != []
    ensures path in Prepended(step, paths) <==> path[0] == step && path[1..] in paths
  {
    if path[0] == step && path[1..] in paths {
      var j :| 0 <= j < |paths| && paths[j] == path[1..];
      assert Prepended(step, paths)[j] == [step] + path[1..] == path;
    }
    if path in Prepended(step, paths) {
      var j :| 0 <= j < |paths| && Prepended(step, paths)[j] == path;
      assert path[1..] == paths[j];
    }
  }

  /** Nothing else is listed, and nothing is left out. */
  lemma {:induction false} PathsExactly(format: Format, k: nat, path: Path)
    requires k <= |format.fields|
    decreases format, k
    ensures path in Paths(format, k) <==> IsLeafPath(format, k, path)
  {
    if k > 0 {
      var last := k - 1;
      PathsExactly(format, last, path);
      OnlyStep(Step(last, 0), path);
      if !IsString(format.fields[last]) {
        ElementPathsExactly(format.fields[last], last, Count(format.fields[last]), path);
      }
    }
  }
}
