/** Building a packed little-endian cloud from a binary body of either endianness. */
module PointCloud {
  import opened Wrappers
  import opened Slices
  import opened RawBytes
  import opened LittleEndian
  import opened Blocks
  import opened PointLayout

  datatype DataFormat = BinaryLittleEndian | BinaryBigEndian

  datatype PointCloud = PointCloud(
    width: uint32, height: uint32, pointStep: nat, rowStep: nat, isDense: bool, fields: seq<PointField>,
    data: seq<byte>)

  const MAX_CLOUD_BYTES := 0x8000_0000

  // ----- byte swapping, element by element -----

  function Reversed(s: seq<byte>): (r: seq<byte>)
    ensures |r| == |s|
    ensures forall i :: 0 <= i < |s| ==> r[i] == s[|s| - 1 - i]
  {
    seq(|s|, i requires 0 <= i < |s| => s[|s| - 1 - i])
  }

  /** `count` elements of `elem` bytes, each reversed. */
  function SwapElements(elem: nat, count: nat, s: seq<byte>): (r: seq<byte>)
    requires |s| == Times(elem, count)
    ensures |r| == |s|
  {
    if count == 0 then []
    else
      var cut := Times(elem, count - 1);
      SwapElements(elem, count - 1, s[..cut]) + Reversed(s[cut..])
  }

  function SwapField(f: ParsedField, s: seq<byte>): (r: seq<byte>)
    requires |s| == FieldSize(f)
    ensures |r| == |s|
  {
    SwapElements(BytesPerElement(f.kind), f.count, s)
  }

  /** The first k fields of a point, each field's elements swapped in place. */
  function SwapFields(fields: seq<ParsedField>, k: nat, s: seq<byte>): (r: seq<byte>)
    requires k <= |fields| && |s| == Offset(fields, k)
    ensures |r| == |s|
  {
    if k == 0 then []
    else
      var cut := Offset(fields, k - 1);
      SwapFields(fields, k - 1, s[..cut]) + SwapField(fields[k - 1], s[cut..])
  }

  function SwapPoint(fields: seq<ParsedField>, s: seq<byte>): (r: seq<byte>)
    requires |s| == Stride(fields)
    ensures |r| == |s|
  {
    SwapFields(fields, |fields|, s)
  }

  /** A whole body of n points. */
  function SwapBody(fields: seq<ParsedField>, n: nat, s: seq<byte>): (r: seq<byte>)
    requires |s| == Times(Stride(fields), n)
    ensures |r| == |s|
  {
    if n == 0 then []
    else
      var cut := Times(Stride(fields), n - 1);
      SwapBody(fields, n - 1, s[..cut]) + SwapPoint(fields, s[cut..])
  }

  // ----- swapping twice is the identity -----

  lemma ReversedTwice(s: seq<byte>)
    ensures Same(Reversed(Reversed(s)), s)
  {
    SameIf(Reversed(Reversed(s)), s);
  }

  lemma {:induction false} SwapElementsTwice(elem: nat, count: nat, s: seq<byte>)
    requires |s| == Times(elem, count)
    ensures Same(SwapElements(elem, count, SwapElements(elem, count, s)), s)
  {
    if count == 0 {
      SameIf([], s);
    } else {
      var cut := Times(elem, count - 1);
      SwapElementsTwice(elem, count - 1, s[..cut]);
      ReversedTwice(s[cut..]);
      CutConcat(SwapElements(elem, count - 1, s[..cut]), Reversed(s[cut..]));
      SplitJoin(s, cut);
    }
  }

  lemma SwapFieldTwice(f: ParsedField, s: seq<byte>)
    requires |s| == FieldSize(f)
    ensures Same(SwapField(f, SwapField(f, s)), s)
  {
    SwapElementsTwice(BytesPerElement(f.kind), f.count, s);
  }

  lemma {:induction false} SwapFieldsTwice(fields: seq<ParsedField>, k: nat, s: seq<byte>)
    requires k <= |fields| && |s| == Offset(fields, k)
    ensures Same(SwapFields(fields, k, SwapFields(fields, k, s)), s)
  {
    if k == 0 {
      SameIf([], s);
    } else {
      var cut := Offset(fields, k - 1);
      SwapFieldsTwice(fields, k - 1, s[..cut]);
      SwapFieldTwice(fields[k - 1], s[cut..]);
      CutConcat(SwapFields(fields, k - 1, s[..cut]), SwapField(fields[k - 1], s[cut..]));
      SplitJoin(s, cut);
    }
  }

  lemma {:induction false} SwapPointsTwice(fields: seq<ParsedField>, n: nat, s: seq<byte>)
    requires |s| == Times(Stride(fields), n)
    ensures Same(SwapBody(fields, n, SwapBody(fields, n, s)), s)
  {
    if n == 0 {
      SameIf([], s);
    } else {
      var cut := Times(Stride(fields), n - 1);
      SwapPointsTwice(fields, n - 1, s[..cut]);
      SwapFieldsTwice(fields, |fields|, s[cut..]);
      CutConcat(SwapBody(fields, n - 1, s[..cut]), SwapPoint(fields, s[cut..]));
      SplitJoin(s, cut);
    }
  }

  /** The element-wise reversal of a body is an involution. */
  lemma SwapBodyTwice(fields: seq<ParsedField>, n: nat, s: seq<byte>)
    requires |s| == Times(Stride(fields), n)
    ensures SwapBody(fields, n, SwapBody(fields, n, s)) == s
  {
    SwapPointsTwice(fields, n, s);
  }

  // ----- where each byte goes -----

  /** The element of `elem` bytes at `at` holds the same bytes in t as in s, in mirrored order. */
  ghost predicate Mirrored(s: seq<byte>, t: seq<byte>, at: nat, elem: nat) {
    at + elem <= |s| == |t| && Same(t[at..at + elem], Reversed(s[at..at + elem]))
  }

  lemma MirroredLeft(s: seq<byte>, cut: nat, x: seq<byte>, y: seq<byte>, at: nat, elem: nat)
    requires cut <= |s| && |x| + |y| == |s| && Mirrored(s[..cut], x, at, elem)
    ensures Mirrored(s, x + y, at, elem)
  {
    SliceOfPrefix(s, cut, at, at + elem);
    SliceOfLeft(x, y, at, at + elem);
  }

  lemma MirroredRight(s: seq<byte>, cut: nat, x: seq<byte>, y: seq<byte>, at: nat, elem: nat)
    requires cut <= |s| && |x| == cut && Mirrored(s[cut..], y, at, elem)
    ensures Mirrored(s, x + y, cut + at, elem)
  {
    SliceOfSuffix(s, cut, at, at + elem);
    SliceOfRight(x, y, at, at + elem);
  }

  lemma MirroredWhole(s: seq<byte>)
    ensures Mirrored(s, Reversed(s), 0, |s|)
  {
    Whole(s);
    Whole(Reversed(s));
  }

  lemma {:induction false} SwapElementsAt(elem: nat, count: nat, s: seq<byte>, e: nat)
    requires |s| == Times(elem, count) && e < count
    ensures Mirrored(s, SwapElements(elem, count, s), Times(elem, e), elem)
  {
    var cut := Times(elem, count - 1);
    var x, y := SwapElements(elem, count - 1, s[..cut]), Reversed(s[cut..]);
    if e < count - 1 {
      SwapElementsAt(elem, count - 1, s[..cut], e);
      MirroredLeft(s, cut, x, y, Times(elem, e), elem);
    } else {
      MirroredWhole(s[cut..]);
      MirroredRight(s, cut, x, y, 0, elem);
    }
  }

  lemma SwapFieldAt(f: ParsedField, s: seq<byte>, e: nat)
    requires |s| == FieldSize(f) && e < f.count
    ensures Mirrored(s, SwapField(f, s), Times(BytesPerElement(f.kind), e), BytesPerElement(f.kind))
  {
    SwapElementsAt(BytesPerElement(f.kind), f.count, s, e);
  }

  /** Where element e of field k starts in a point. */
  function ElementOffset(fields: seq<ParsedField>, k: nat, e: nat): nat
    requires k < |fields|
  {
    Offset(fields, k) + Times(BytesPerElement(fields[k].kind), e)
  }

  lemma {:induction false} SwapFieldsAt(fields: seq<ParsedField>, m: nat, s: seq<byte>, k: nat, e: nat)
    requires k < m <= |fields| && |s| == Offset(fields, m) && e < fields[k].count
    ensures Mirrored(s, SwapFields(fields, m, s), ElementOffset(fields, k, e), BytesPerElement(fields[k].kind))
  {
    var cut, elem := Offset(fields, m - 1), BytesPerElement(fields[k].kind);
    var x, y := SwapFields(fields, m - 1, s[..cut]), SwapField(fields[m - 1], s[cut..]);
    if k < m - 1 {
      SwapFieldsAt(fields, m - 1, s[..cut], k, e);
      MirroredLeft(s, cut, x, y, ElementOffset(fields, k, e), elem);
    } else {
      SwapFieldAt(fields[k], s[cut..], e);
      MirroredRight(s, cut, x, y, Times(elem, e), elem);
    }
  }

  lemma {:induction false} SwapPointsAt(fields: seq<ParsedField>, n: nat, s: seq<byte>, p: nat, k: nat, e: nat)
    requires |s| == Times(Stride(fields), n) && p < n && k < |fields| && e < fields[k].count
    ensures Mirrored(s, SwapBody(fields, n, s), Times(Stride(fields), p) + ElementOffset(fields, k, e),
                     BytesPerElement(fields[k].kind))
  {
    var cut, elem := Times(Stride(fields), n - 1), BytesPerElement(fields[k].kind);
    var x, y := SwapBody(fields, n - 1, s[..cut]), SwapPoint(fields, s[cut..]);
    if p < n - 1 {
      SwapPointsAt(fields, n - 1, s[..cut], p, k, e);
      MirroredLeft(s, cut, x, y, Times(Stride(fields), p) + ElementOffset(fields, k, e), elem);
    } else {
      SwapFieldsAt(fields, |fields|, s[cut..], k, e);
      MirroredRight(s, cut, x, y, ElementOffset(fields, k, e), elem);
    }
  }

  lemma MirroredByte(s: seq<byte>, t: seq<byte>, at: nat, elem: nat, b: nat)
    requires Mirrored(s, t, at, elem) && b < elem
    ensures t[at + b] == s[at + elem - 1 - b]
  {
    var x, y := s[at..at + elem], t[at..at + elem];
    assert y[b] == Reversed(x)[b] == x[elem - 1 - b];
  }

  /** In a whole body, at every point p, field k and element e: byte b comes from the mirrored byte of the same
      element. */
  lemma {:induction false} SwapBodyAt(fields: seq<ParsedField>, n: nat, s: seq<byte>, p: nat, k: nat, e: nat, b: nat)
    requires |s| == Times(Stride(fields), n) && p < n && k < |fields|
    requires e < fields[k].count && b < BytesPerElement(fields[k].kind)
    ensures var at, elem := Times(Stride(fields), p) + ElementOffset(fields, k, e), BytesPerElement(fields[k].kind);
            && at + elem <= |s|
            && SwapBody(fields, n, s)[at + b] == s[at + elem - 1 - b]
  {
    SwapPointsAt(fields, n, s, p, k, e);
    MirroredByte(s, SwapBody(fields, n, s), Times(Stride(fields), p) + ElementOffset(fields, k, e),
                 BytesPerElement(fields[k].kind), b);
  }

  // ----- the nested loops, writing left to right -----

  /** The write counts went up by one on [lo, hi), and nowhere else. */
  ghost predicate CountedOnce(writes: seq<nat>, writes': seq<nat>, lo: nat, hi: nat) {
    && |writes'| == |writes|
    && forall i :: 0 <= i < |writes| ==> writes'[i] == writes[i] + if lo <= i < hi then 1 else 0
  }

  lemma CountedOn(a: seq<nat>, b: seq<nat>, c: seq<nat>, lo: nat, mid: nat, hi: nat)
    requires lo <= mid <= hi && CountedOnce(a, b, lo, mid) && CountedOnce(b, c, mid, hi)
    ensures CountedOnce(a, c, lo, hi)
  {
  }

  /** The bytes of t up to `to` are x and y, one after the other. */
  ghost predicate Joined(t: seq<byte>, to: nat, x: seq<byte>, y: seq<byte>) {
    to <= |t| && Same(t[..to], x + y)
  }

  lemma JoinedIf(t: seq<byte>, to: nat, x: seq<byte>, y: seq<byte>)
    requires |x| + |y| == to <= |t|
    requires forall i :: 0 <= i < |x| ==> t[i] == x[i]
    requires forall i :: 0 <= i < |y| ==> t[|x| + i] == y[i]
    ensures Joined(t, to, x, y)
  {
    SameIf(t[..to], x + y);
  }

  /** The innermost loop: one element, mirrored; each assignment is counted. */
  method SwapElementInto(dst: array<byte>, src: seq<byte>, at: nat, elem: nat, ghost writes: seq<nat>)
    returns (ghost writes': seq<nat>)
    requires at + elem <= dst.Length == |src| == |writes|
    modifies dst
    ensures Joined(dst[..], at + elem, old(dst[..at]), Reversed(src[at..at + elem]))
    ensures CountedOnce(writes, writes', at, at + elem)
  {
    ghost var head := dst[..at];
    ghost var mirrored := Reversed(src[at..at + elem]);
    writes' := writes;
    for b := 0 to elem
      invariant forall i :: 0 <= i < at ==> dst[i] == head[i]
      invariant forall i :: 0 <= i < b ==> dst[at + i] == mirrored[i]
      invariant CountedOnce(writes, writes', at, at + b)
    {
      dst[at + b] := src[at + elem - 1 - b];
      writes' := writes'[at + b := writes'[at + b] + 1];
    }
    JoinedIf(dst[..], at + elem, head, mirrored);
  }

  lemma ElementsPrefix(elem: nat, e: nat, s: seq<byte>, from: nat)
    requires from + Times(elem, e) + elem <= |s|
    ensures Same(SwapElements(elem, e + 1, s[from..from + Times(elem, e + 1)]),
                 SwapElements(elem, e, s[from..from + Times(elem, e)])
                 + Reversed(s[from + Times(elem, e)..from + Times(elem, e) + elem]))
  {
    SplitRange(s, from, Times(elem, e), from + Times(elem, e + 1));
  }

  lemma JoinedOn(t: seq<byte>, t': seq<byte>, mid: nat, to: nat, x: seq<byte>, y: seq<byte>, z: seq<byte>)
    requires Joined(t, mid, x, y) && Joined(t', to, t[..mid], z)
    ensures Joined(t', to, x, y + z)
  {
    Regroup(x, y, z);
  }

  /** After the head, e elements of the field at `at` are written, each mirrored. */
  ghost predicate ElementsWritten(dst: seq<byte>, head: seq<byte>, elem: nat, e: nat, src: seq<byte>, at: nat) {
    && at + Times(elem, e) <= |src|
    && Joined(dst, at + Times(elem, e), head, SwapElements(elem, e, src[at..at + Times(elem, e)]))
  }

  /** Writing one more element extends the swapped prefix. */
  lemma {:induction false} ElementStep(
      dst: seq<byte>, dst': seq<byte>, head: seq<byte>, elem: nat, e: nat, src: seq<byte>, at: nat)
    requires ElementsWritten(dst, head, elem, e, src, at) && at + Times(elem, e) + elem <= |src|
    requires var cut := at + Times(elem, e);
             Joined(dst', cut + elem, dst[..cut], Reversed(src[cut..cut + elem]))
    ensures ElementsWritten(dst', head, elem, e + 1, src, at)
  {
    var cut := at + Times(elem, e);
    ElementsPrefix(elem, e, src, at);
    JoinedOn(dst, dst', cut, cut + elem, head, SwapElements(elem, e, src[at..cut]), Reversed(src[cut..cut + elem]));
  }

  lemma NothingWritten(dst: seq<byte>, at: nat)
    requires at <= |dst|
    ensures Joined(dst, at, dst[..at], [])
  {
    SameIf(dst[..at], dst[..at] + []);
  }

  method SwapFieldInto(dst: array<byte>, src: seq<byte>, at: nat, elem: nat, count: nat, ghost writes: seq<nat>)
    returns (ghost writes': seq<nat>)
    requires at + Times(elem, count) <= dst.Length == |src| == |writes|
    modifies dst
    ensures ElementsWritten(dst[..], old(dst[..at]), elem, count, src, at)
    ensures CountedOnce(writes, writes', at, at + Times(elem, count))
  {
    ghost var head := dst[..at];
    writes' := writes;
    NothingWritten(dst[..], at);
    for e := 0 to count
      invariant ElementsWritten(dst[..], head, elem, e, src, at)
      invariant CountedOnce(writes, writes', at, at + Times(elem, e))
    {
      BlockInside(elem, e, count);
      var pos := at + Times(elem, e);
      ghost var done, counted := dst[..], writes';
      writes' := SwapElementInto(dst, src, pos, elem, writes');
      ElementStep(done, dst[..], head, elem, e, src, at);
      CountedOn(writes, counted, writes', at, pos, pos + elem);
    }
  }

  /** After the head, the first k fields of the point at `base` are written, each element mirrored. */
  ghost predicate FieldsWritten(
      dst: seq<byte>, head: seq<byte>, fields: seq<ParsedField>, k: nat, src: seq<byte>, base: nat)
  {
    && k <= |fields| && base + Offset(fields, k) <= |src|
    && Joined(dst, base + Offset(fields, k), head, SwapFields(fields, k, src[base..base + Offset(fields, k)]))
  }

  lemma FieldsPrefix(fields: seq<ParsedField>, k: nat, s: seq<byte>, from: nat)
    requires k < |fields| && from + Offset(fields, k + 1) <= |s|
    ensures Same(SwapFields(fields, k + 1, s[from..from + Offset(fields, k + 1)]),
                 SwapFields(fields, k, s[from..from + Offset(fields, k)])
                 + SwapField(fields[k], s[from + Offset(fields, k)..from + Offset(fields, k + 1)]))
  {
    SplitRange(s, from, Offset(fields, k), from + Offset(fields, k + 1));
  }

  /** Writing one more field extends the swapped prefix of the point. */
  lemma {:induction false} FieldStep(
      dst: seq<byte>, dst': seq<byte>, head: seq<byte>, fields: seq<ParsedField>, k: nat, src: seq<byte>, base: nat)
    requires k < |fields| && FieldsWritten(dst, head, fields, k, src, base)
    requires var f := fields[k];
             ElementsWritten(dst', dst[..base + Offset(fields, k)], BytesPerElement(f.kind), f.count, src,
                             base + Offset(fields, k))
    ensures FieldsWritten(dst', head, fields, k + 1, src, base)
  {
    var cut, to := base + Offset(fields, k), base + Offset(fields, k + 1);
    FieldsPrefix(fields, k, src, base);
    JoinedOn(dst, dst', cut, to, head, SwapFields(fields, k, src[base..cut]), SwapField(fields[k], src[cut..to]));
  }

  /** The field loop of one point, at the layout's offsets. */
  method SwapPointInto(
      dst: array<byte>, src: seq<byte>, base: nat, fields: seq<ParsedField>, layout: FieldLayout,
      ghost writes: seq<nat>)
    returns (ghost writes': seq<nat>)
    requires IsLayoutOf(layout, fields)
    requires base + Stride(fields) <= dst.Length == |src| == |writes|
    modifies dst
    ensures FieldsWritten(dst[..], old(dst[..base]), fields, |fields|, src, base)
    ensures CountedOnce(writes, writes', base, base + Stride(fields))
  {
    ghost var head := dst[..base];
    writes' := writes;
    NothingWritten(dst[..], base);
    for k := 0 to |layout.fields|
      invariant FieldsWritten(dst[..], head, fields, k, src, base)
      invariant CountedOnce(writes, writes', base, base + Offset(fields, k))
    {
      OffsetMonotone(fields, k + 1, |fields|);
      var pf := layout.fields[k];
      ghost var done, counted := dst[..], writes';
      writes' := SwapFieldInto(dst, src, base + pf.offset, BytesPerElement(pf.kind), pf.count, writes');
      FieldStep(done, dst[..], head, fields, k, src, base);
      CountedOn(writes, counted, writes', base, base + Offset(fields, k), base + Offset(fields, k + 1));
    }
  }

  /** The first p points are written. */
  ghost predicate PointsWritten(dst: seq<byte>, fields: seq<ParsedField>, p: nat, src: seq<byte>) {
    && Times(Stride(fields), p) <= |dst| == |src|
    && Same(dst[..Times(Stride(fields), p)], SwapBody(fields, p, src[..Times(Stride(fields), p)]))
  }

  lemma {:induction false} PointsPrefix(fields: seq<ParsedField>, p: nat, s: seq<byte>)
    requires Times(Stride(fields), p) + Stride(fields) <= |s|
    ensures var base := Times(Stride(fields), p);
            Same(SwapBody(fields, p + 1, s[..base + Stride(fields)]),
                 SwapBody(fields, p, s[..base]) + SwapPoint(fields, s[base..base + Stride(fields)]))
  {
    var base := Times(Stride(fields), p);
    PrefixOfPrefix(s, base + Stride(fields), base);
    SuffixOfPrefix(s, base + Stride(fields), base);
  }

  lemma {:induction false} PointStep(dst: seq<byte>, dst': seq<byte>, fields: seq<ParsedField>, p: nat, src: seq<byte>)
    requires PointsWritten(dst, fields, p, src) && |dst'| == |dst|
    requires FieldsWritten(dst', dst[..Times(Stride(fields), p)], fields, |fields|, src, Times(Stride(fields), p))
    ensures PointsWritten(dst', fields, p + 1, src)
  {
    PointsPrefix(fields, p, src);
  }

  lemma AllWritten(dst: seq<byte>, fields: seq<ParsedField>, n: nat, src: seq<byte>)
    requires PointsWritten(dst, fields, n, src) && |src| == Times(Stride(fields), n)
    ensures dst == SwapBody(fields, n, src)
  {
    Whole(dst);
    Whole(src);
  }

  /** The loops over points, fields, elements and bytes: the swapped body, every byte of the buffer written exactly
      once. */
  method SwapBodyInto(dst: array<byte>, src: seq<byte>, n: nat, fields: seq<ParsedField>, layout: FieldLayout)
    returns (ghost writes: seq<nat>)
    requires IsLayoutOf(layout, fields)
    requires dst.Length == |src| == Times(Stride(fields), n)
    modifies dst
    ensures dst[..] == SwapBody(fields, n, src)
    ensures |writes| == dst.Length && forall i :: 0 <= i < |writes| ==> writes[i] == 1
  {
    ghost var none: seq<nat> := seq(dst.Length, i => 0);
    writes := none;
    for p := 0 to n
      invariant PointsWritten(dst[..], fields, p, src)
      invariant CountedOnce(none, writes, 0, Times(Stride(fields), p))
    {
      BlockInside(Stride(fields), p, n);
      var base := Times(layout.pointStep, p);
      ghost var done, counted := dst[..], writes;
      writes := SwapPointInto(dst, src, base, fields, layout, writes);
      PointStep(done, dst[..], fields, p, src);
      CountedOn(none, counted, writes, 0, base, base + Stride(fields));
    }
    AllWritten(dst[..], fields, n, src);
  }

  // ----- buildPointCloud -----

  /** The size guard as the source writes it: a division that avoids overflow. */
  predicate Oversized(points: nat, step: nat) {
    step != 0 && points > MAX_CLOUD_BYTES / step
  }

  /** Dividing the limit is multiplying the other side. */
  lemma AboveQuotient(limit: nat, step: nat, points: nat)
    requires step > 0
    ensures points > limit / step <==> Times(step, points) > limit
  {
    var q := limit / step;
    assert limit == step * q + limit % step;
    TimesIsProduct(step, q);
    if points > q {
      TimesMonotone(step, q + 1, points);
    } else {
      TimesMonotone(step, points, q);
    }
  }

  /** The guard rejects exactly the payloads above 2 GiB. */
  lemma OversizedExactly(points: nat, step: nat)
    ensures Oversized(points, step) <==> step * points > MAX_CLOUD_BYTES
  {
    if step != 0 {
      AboveQuotient(MAX_CLOUD_BYTES, step, points);
      TimesIsProduct(step, points);
    }
  }

  /** The checks both the packed and the compressed path make on layout and size. */
  function Checked(fields: seq<ParsedField>, points: nat): Result<FieldLayout, CloudError> {
    match Layout(fields)
    case Err(e) => Err(e)
    case Ok(layout) =>
      if layout.pointStep == 0 && points > 0 then Err(PointsWithoutFields)
      else if Oversized(points, layout.pointStep) then Err(CloudTooLarge)
      else Ok(layout)
  }

  function RowStep(step: nat, width: nat): nat {
    (step * width) % (UINT32_MAX + 1)
  }

  function Build(
      fields: seq<ParsedField>, width: uint32, height: uint32, isDense: bool, format: DataFormat, body: seq<byte>)
    : Result<PointCloud, CloudError>
  {
    match Checked(fields, width * height)
    case Err(e) => Err(e)
    case Ok(layout) =>
      if |body| != Times(Stride(fields), width * height) then Err(BodySizeMismatch)
      else
        var data := if format == BinaryLittleEndian then body else SwapBody(fields, width * height, body);
        Ok(PointCloud(width, height, layout.pointStep, RowStep(layout.pointStep, width), isDense, layout.fields, data))
  }

  method CopyInto(dst: array<byte>, src: seq<byte>)
    requires dst.Length == |src|
    modifies dst
    ensures dst[..] == src
  {
    for i := 0 to |src|
      invariant dst[..i] == src[..i]
    {
      dst[i] := src[i];
    }
  }

  method BuildPointCloud(
      fields: seq<ParsedField>, width: uint32, height: uint32, isDense: bool, format: DataFormat, body: seq<byte>)
    returns (r: Result<PointCloud, CloudError>)
    ensures r == Build(fields, width, height, isDense, format, body)
  {
    var layoutOr := ComputeLayout(fields);
    if layoutOr.Err? {
      return Err(layoutOr.error);
    }
    var layout := layoutOr.value;
    LayoutIsLayout(fields);
    var pointStep := layout.pointStep;
    var numPoints := width * height;
    if pointStep == 0 && numPoints > 0 {
      return Err(PointsWithoutFields);
    }
    if pointStep != 0 && numPoints > MAX_CLOUD_BYTES / pointStep {
      return Err(CloudTooLarge);
    }
    var outBytes := pointStep * numPoints;
    TimesIsProduct(pointStep, numPoints);
    var buf := new byte[outBytes];
    if |body| != outBytes {
      return Err(BodySizeMismatch);
    }
    match format {
      case BinaryLittleEndian => CopyInto(buf, body);
      case BinaryBigEndian => ghost var _ := SwapBodyInto(buf, body, numPoints, fields, layout);
    }
    r := Ok(PointCloud(width, height, pointStep, RowStep(pointStep, width), isDense, layout.fields, buf[..]));
  }

  // ----- what the bytes mean -----

  /** A number with its most significant byte first. */
  function DecodeBig(s: seq<byte>): nat {
    if s == [] then 0 else 256 * DecodeBig(s[..|s| - 1]) + s[|s| - 1]
  }

  lemma ReversedTail(s: seq<byte>)
    requires s != []
    ensures Reversed(s)[0] == s[|s| - 1] && Reversed(s)[1..] == Reversed(s[..|s| - 1])
  {
  }

  lemma {:induction false} BigIsReversedLittle(s: seq<byte>)
    ensures DecodeBig(s) == Decode(Reversed(s))
  {
    if s != [] {
      BigIsReversedLittle(s[..|s| - 1]);
      ReversedTail(s);
    }
  }

  lemma MirroredCell(s: seq<byte>, t: seq<byte>, at: nat, elem: nat)
    requires Mirrored(s, t, at, elem)
    ensures Decode(t[at..at + elem]) == DecodeBig(s[at..at + elem])
  {
    BigIsReversedLittle(s[at..at + elem]);
  }

  /** Every element of a big-endian body is the same number in the swapped, little-endian one. */
  lemma {:induction false} SwapKeepsNumbers(fields: seq<ParsedField>, n: nat, s: seq<byte>, p: nat, k: nat, e: nat)
    requires |s| == Times(Stride(fields), n) && p < n && k < |fields| && e < fields[k].count
    ensures var at, elem := Times(Stride(fields), p) + ElementOffset(fields, k, e), BytesPerElement(fields[k].kind);
            at + elem <= |s| && Decode(SwapBody(fields, n, s)[at..at + elem]) == DecodeBig(s[at..at + elem])
  {
    SwapPointsAt(fields, n, s, p, k, e);
    MirroredCell(s, SwapBody(fields, n, s), Times(Stride(fields), p) + ElementOffset(fields, k, e),
                 BytesPerElement(fields[k].kind));
  }

  /** A big-endian body decodes like the little-endian body with every element reversed, and back. */
  lemma {:induction false} BigEndianIsSwappedLittle(
      fields: seq<ParsedField>, width: uint32, height: uint32, isDense: bool, body: seq<byte>)
    requires |body| == Times(Stride(fields), width * height)
    ensures var swapped := SwapBody(fields, width * height, body);
            && Build(fields, width, height, isDense, BinaryBigEndian, body)
               == Build(fields, width, height, isDense, BinaryLittleEndian, swapped)
            && Build(fields, width, height, isDense, BinaryBigEndian, swapped)
               == Build(fields, width, height, isDense, BinaryLittleEndian, body)
  {
    SwapBodyTwice(fields, width * height, body);
  }

  lemma CheckedExactly(fields: seq<ParsedField>, points: nat)
    ensures Checked(fields, points).Ok? <==>
            && AllKnown(fields) && Stride(fields) <= UINT32_MAX
            && !(Stride(fields) == 0 && points > 0)
            && Stride(fields) * points <= MAX_CLOUD_BYTES
    ensures Checked(fields, points).Ok? ==> Layout(fields) == Ok(Checked(fields, points).value)
  {
    LayoutAcceptsExactly(fields);
    OversizedExactly(points, Stride(fields));
  }

  /** A cloud is accepted exactly when the layout is, points have fields, the payload is at most 2 GiB, and the
      body has the exact size. */
  lemma BuildAcceptsExactly(
      fields: seq<ParsedField>, width: uint32, height: uint32, isDense: bool, format: DataFormat, body: seq<byte>)
    ensures Build(fields, width, height, isDense, format, body).Ok? <==>
            && AllKnown(fields) && Stride(fields) <= UINT32_MAX
            && !(Stride(fields) == 0 && width * height > 0)
            && Stride(fields) * (width * height) <= MAX_CLOUD_BYTES
            && |body| == Stride(fields) * (width * height)
  {
    CheckedExactly(fields, width * height);
    TimesIsProduct(Stride(fields), width * height);
  }

  lemma RowFits(step: nat, width: nat, height: nat)
    requires height >= 1 && step * (width * height) <= MAX_CLOUD_BYTES
    ensures step * width <= UINT32_MAX
  {
    TimesIsProduct(width, height);
    TimesMonotone(width, 1, height);
    assert Times(width, 0) + width <= width * height;
    TimesIsProduct(step, width);
    TimesIsProduct(step, width * height);
    TimesMonotone(step, width, width * height);
  }

  lemma FitsExactly(m: nat)
    ensures m % (UINT32_MAX + 1) == m <==> m <= UINT32_MAX
  {
  }

  lemma RowStepOfProduct(step: nat, width: nat, height: nat)
    requires step * (width * height) <= MAX_CLOUD_BYTES
    ensures RowStep(step, width) == step * width <==> height >= 1 || step * width <= UINT32_MAX
  {
    FitsExactly(step * width);
    if height >= 1 {
      RowFits(step, width, height);
    }
  }

  lemma BuiltSteps(
      fields: seq<ParsedField>, width: uint32, height: uint32, isDense: bool, format: DataFormat, body: seq<byte>)
    requires Build(fields, width, height, isDense, format, body).Ok?
    ensures var cloud := Build(fields, width, height, isDense, format, body).value;
            cloud.pointStep == Stride(fields) && cloud.rowStep == RowStep(Stride(fields), width)
  {
  }

  lemma BuiltWithin(
      fields: seq<ParsedField>, width: uint32, height: uint32, isDense: bool, format: DataFormat, body: seq<byte>)
    requires Build(fields, width, height, isDense, format, body).Ok?
    ensures Stride(fields) * (width * height) <= MAX_CLOUD_BYTES
  {
    BuildAcceptsExactly(fields, width, height, isDense, format, body);
  }

  /** The 32-bit row step of an accepted cloud is the exact product whenever there is a row; without rows it is
      exact just when the product fits. */
  lemma RowStepExactly(
      fields: seq<ParsedField>, width: uint32, height: uint32, isDense: bool, format: DataFormat, body: seq<byte>)
    requires Build(fields, width, height, isDense, format, body).Ok?
    ensures var cloud := Build(fields, width, height, isDense, format, body).value;
            cloud.rowStep == cloud.pointStep * width <==> height >= 1 || cloud.pointStep * width <= UINT32_MAX
  {
    BuiltSteps(fields, width, height, isDense, format, body);
    BuiltWithin(fields, width, height, isDense, format, body);
    RowStepOfProduct(Stride(fields), width, height);
  }

  /** A header with no rows may declare a row step that is cut to 32 bits. */
  lemma RowStepCounterexample()
    ensures var cloud := Build([ParsedField("x", Float32, 1)], UINT32_MAX, 0, true, BinaryLittleEndian, []);
            cloud.Ok? && cloud.value.rowStep != cloud.value.pointStep * UINT32_MAX
  {
    var fields := [ParsedField("x", Float32, 1)];
    assert Stride(fields) == Offset(fields, 0) + FieldSize(fields[0]) == 4;
    BuildAcceptsExactly(fields, UINT32_MAX, 0, true, BinaryLittleEndian, []);
    RowStepExactly(fields, UINT32_MAX, 0, true, BinaryLittleEndian, []);
  }
}
