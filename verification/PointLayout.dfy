/** Packed point layouts: byte offsets as prefix sums, with the 32-bit stride bound. */
module PointLayout {
  import opened Wrappers
  import opened Blocks

  const UINT32_MAX := 0xFFFF_FFFF

  type uint32 = x: int | 0 <= x <= UINT32_MAX

  datatype Datatype = Int8 | Uint8 | Int16 | Uint16 | Int32 | Uint32 | Float32 | Float64 | Unknown

  function BytesPerElement(d: Datatype): nat {
    match d
    case Int8 => 1
    case Uint8 => 1
    case Int16 => 2
    case Uint16 => 2
    case Int32 => 4
    case Uint32 => 4
    case Float32 => 4
    case Float64 => 8
    case Unknown => 0
  }

  /** A header field before its offset is known; `count` elements per point. */
  datatype ParsedField = ParsedField(name: string, kind: Datatype, count: uint32)

  datatype PointField = PointField(name: string, offset: nat, kind: Datatype, count: uint32)

  datatype FieldLayout = FieldLayout(fields: seq<PointField>, pointStep: nat)

  datatype CloudError =
    | UnknownDatatype(name: string)
    | StrideTooLarge
    | PointsWithoutFields
    | CloudTooLarge
    | BodySizeMismatch
    | TruncatedSizeHeader
    | UncompressedSizeMismatch
    | TruncatedBlob
    | DecompressFailed

  /** bytesPerElement(datatype) * count. */
  function FieldSize(f: ParsedField): nat {
    Times(BytesPerElement(f.kind), f.count)
  }

  /** The exact sum of the sizes of the first k fields: the byte offset of field k. */
  function Offset(fields: seq<ParsedField>, k: nat): nat {
    if k == 0 || k > |fields| then 0 else Offset(fields, k - 1) + FieldSize(fields[k - 1])
  }

  /** The exact sum of all field sizes. */
  function Stride(fields: seq<ParsedField>): nat {
    Offset(fields, |fields|)
  }

  lemma {:induction false} OffsetMonotone(fields: seq<ParsedField>, j: nat, k: nat)
    requires j <= k <= |fields|
    ensures Offset(fields, j) <= Offset(fields, k)
  {
    if j < k {
      OffsetMonotone(fields, j, k - 1);
    }
  }

  ghost predicate AllKnown(fields: seq<ParsedField>) {
    forall i :: 0 <= i < |fields| ==> fields[i].kind != Unknown
  }

  /** The error of the first of k fields the loop refuses, if any. */
  function FirstError(fields: seq<ParsedField>, k: nat): Option<CloudError> {
    if k == 0 || k > |fields| then None
    else if FirstError(fields, k - 1).Some? then FirstError(fields, k - 1)
    else if fields[k - 1].kind == Unknown then Some(UnknownDatatype(fields[k - 1].name))
    else if Offset(fields, k - 1) > UINT32_MAX then Some(StrideTooLarge)
    else None
  }

  lemma {:induction false} NoErrorMeans(fields: seq<ParsedField>, k: nat)
    requires k <= |fields|
    ensures FirstError(fields, k).None? ==> forall i :: 0 <= i < k ==> fields[i].kind != Unknown
    ensures AllKnown(fields) && Offset(fields, k) <= UINT32_MAX ==> FirstError(fields, k).None?
  {
    if k > 0 {
      NoErrorMeans(fields, k - 1);
    }
  }

  /** The first k fields, each at the sum of the sizes before it. */
  function Placed(fields: seq<ParsedField>, k: nat): (r: seq<PointField>)
    ensures k <= |fields| ==> |r| == k
  {
    if k == 0 || k > |fields| then []
    else
      var f := fields[k - 1];
      Placed(fields, k - 1) + [PointField(f.name, Offset(fields, k - 1), f.kind, f.count)]
  }

  lemma {:induction false} PlacedAt(fields: seq<ParsedField>, m: nat, k: nat)
    requires k < m <= |fields|
    ensures Placed(fields, m)[k] == PointField(fields[k].name, Offset(fields, k), fields[k].kind, fields[k].count)
  {
    if k < m - 1 {
      PlacedAt(fields, m - 1, k);
    }
  }

  function Layout(fields: seq<ParsedField>): Result<FieldLayout, CloudError> {
    match FirstError(fields, |fields|)
    case Some(e) => Err(e)
    case None =>
      if Stride(fields) > UINT32_MAX then Err(StrideTooLarge)
      else Ok(FieldLayout(Placed(fields, |fields|), Stride(fields)))
  }

  method ComputeLayout(fields: seq<ParsedField>) returns (r: Result<FieldLayout, CloudError>)
    ensures r == Layout(fields)
  {
    var placed: seq<PointField> := [];
    var offset := 0;
    for i := 0 to |fields|
      invariant FirstError(fields, i).None? && offset == Offset(fields, i)
      invariant placed == Placed(fields, i)
    {
      var f := fields[i];
      if f.kind == Unknown || BytesPerElement(f.kind) == 0 {
        ErrorStays(fields, i + 1, |fields|);
        return Err(UnknownDatatype(f.name));
      }
      if offset > UINT32_MAX {
        ErrorStays(fields, i + 1, |fields|);
        return Err(StrideTooLarge);
      }
      placed := placed + [PointField(f.name, offset, f.kind, f.count)];
      offset := offset + FieldSize(f);
    }
    if offset > UINT32_MAX {
      return Err(StrideTooLarge);
    }
    return Ok(FieldLayout(placed, offset));
  }

  lemma {:induction false} ErrorStays(fields: seq<ParsedField>, k: nat, m: nat)
    requires k <= m <= |fields| && FirstError(fields, k).Some?
    ensures FirstError(fields, m) == FirstError(fields, k)
  {
    if k < m {
      ErrorStays(fields, k, m - 1);
    }
  }

  /** The 64-bit running offset cannot overflow: it is checked against 32 bits before every addition. */
  lemma OffsetFits64(fields: seq<ParsedField>, k: nat)
    requires k < |fields| && Offset(fields, k) <= UINT32_MAX
    ensures Offset(fields, k + 1) <= 9 * UINT32_MAX
  {
    var elem := BytesPerElement(fields[k].kind);
    TimesIsProduct(elem, fields[k].count);
    assert elem <= 8;
    assert elem * fields[k].count <= 8 * fields[k].count;
  }

  /** A layout is accepted exactly when every type is known and the exact sum of sizes fits 32 bits. */
  lemma LayoutAcceptsExactly(fields: seq<ParsedField>)
    ensures Layout(fields).Ok? <==> AllKnown(fields) && Stride(fields) <= UINT32_MAX
  {
    NoErrorMeans(fields, |fields|);
  }

  /** Each field at the sum of the sizes before it, with that sum over all fields as the stride. */
  ghost predicate IsLayoutOf(layout: FieldLayout, fields: seq<ParsedField>) {
    && layout.pointStep == Stride(fields)
    && |layout.fields| == |fields|
    && forall k {:trigger layout.fields[k]} :: 0 <= k < |fields| ==>
         layout.fields[k] == PointField(fields[k].name, Offset(fields, k), fields[k].kind, fields[k].count)
  }

  /** An accepted layout is the prefix-sum one, and every offset in it fits 32 bits. */
  lemma LayoutIsLayout(fields: seq<ParsedField>)
    requires Layout(fields).Ok?
    ensures IsLayoutOf(Layout(fields).value, fields)
    ensures forall k :: 0 <= k < |fields| ==> Layout(fields).value.fields[k].offset <= UINT32_MAX
  {
    forall k | 0 <= k < |fields|
      ensures Layout(fields).value.fields[k]
              == PointField(fields[k].name, Offset(fields, k), fields[k].kind, fields[k].count)
      ensures Offset(fields, k) <= UINT32_MAX
    {
      PlacedAt(fields, |fields|, k);
      OffsetMonotone(fields, k, |fields|);
    }
  }

  /** Fields occupy disjoint, consecutive byte ranges inside the stride. */
  lemma {:induction false} FieldsDisjoint(fields: seq<ParsedField>, j: nat, k: nat)
    requires j < k < |fields|
    ensures Offset(fields, j) + FieldSize(fields[j]) <= Offset(fields, k)
    ensures Offset(fields, k) + FieldSize(fields[k]) <= Stride(fields)
  {
    OffsetMonotone(fields, j + 1, k);
    OffsetMonotone(fields, k + 1, |fields|);
  }
}
