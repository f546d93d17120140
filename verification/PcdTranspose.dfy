/** The binary_compressed transposition: field-major bytes scattered into packed points. */
module PcdTranspose {
  import opened RawBytes
  import opened Slices
  import opened LittleEndian
  import opened Blocks
  import opened PointLayout
  import opened PointCloud

  // ----- the two byte orders -----

  /** Where field k starts in the field-major buffer of n points: n times the size of the fields before it. */
  function SoaOffset(fields: seq<ParsedField>, k: nat, n: nat): nat {
    if k == 0 || k > |fields| then 0 else SoaOffset(fields, k - 1, n) + Times(FieldSize(fields[k - 1]), n)
  }

  lemma {:induction false} SoaOffsetMonotone(fields: seq<ParsedField>, j: nat, k: nat, n: nat)
    requires j <= k <= |fields|
    ensures SoaOffset(fields, j, n) <= SoaOffset(fields, k, n)
  {
    if j < k {
      SoaOffsetMonotone(fields, j, k - 1, n);
    }
  }

  /** The cell of field k and point pt fits the field-major buffer. */
  lemma SoaCellInside(fields: seq<ParsedField>, n: nat, k: nat, pt: nat)
    requires k < |fields| && pt < n
    ensures SoaOffset(fields, k, n) + Times(FieldSize(fields[k]), pt) + FieldSize(fields[k])
            <= SoaOffset(fields, k + 1, n) <= SoaOffset(fields, |fields|, n)
  {
    BlockInside(FieldSize(fields[k]), pt, n);
    SoaOffsetMonotone(fields, k + 1, |fields|, n);
  }

  lemma {:induction false} TimesAdd(a: nat, b: nat, n: nat)
    ensures Times(a + b, n) == Times(a, n) + Times(b, n)
  {
    if n > 0 {
      TimesAdd(a, b, n - 1);
    }
  }

  /** The field-major buffer is exactly as long as the packed one. */
  lemma {:induction false} SoaOffsetIs(fields: seq<ParsedField>, k: nat, n: nat)
    requires k <= |fields|
    ensures SoaOffset(fields, k, n) == Times(Offset(fields, k), n)
  {
    if k == 0 {
      TimesIsProduct(0, n);
    } else {
      SoaOffsetIs(fields, k - 1, n);
      TimesAdd(Offset(fields, k - 1), FieldSize(fields[k - 1]), n);
    }
  }

  lemma SoaLength(fields: seq<ParsedField>, n: nat)
    ensures SoaOffset(fields, |fields|, n) == Times(Stride(fields), n)
  {
    SoaOffsetIs(fields, |fields|, n);
  }

  /** The first k fields of point pt, gathered from a field-major buffer. */
  function PointBytes(fields: seq<ParsedField>, k: nat, n: nat, soa: seq<byte>, pt: nat): (r: seq<byte>)
    requires k <= |fields| && pt < n && |soa| == SoaOffset(fields, |fields|, n)
    ensures |r| == Offset(fields, k)
  {
    if k == 0 then []
    else
      SoaCellInside(fields, n, k - 1, pt);
      var size := FieldSize(fields[k - 1]);
      var at := SoaOffset(fields, k - 1, n) + Times(size, pt);
      PointBytes(fields, k - 1, n, soa, pt) + soa[at..at + size]
  }

  /** The first m packed points of a field-major buffer of n points. */
  function Interleaved(fields: seq<ParsedField>, n: nat, soa: seq<byte>, m: nat): (r: seq<byte>)
    requires m <= n && |soa| == SoaOffset(fields, |fields|, n)
    ensures |r| == Times(Stride(fields), m)
  {
    if m == 0 then []
    else
      Interleaved(fields, n, soa, m - 1) + PointBytes(fields, |fields|, n, soa, m - 1)
  }

  /** The cells of one field, point after point. */
  function Column(step: nat, off: nat, size: nat, n: nat, aos: seq<byte>): (r: seq<byte>)
    requires off + size <= step && Times(step, n) <= |aos|
    ensures |r| == Times(size, n)
  {
    if n == 0 then []
    else
      var at := Times(step, n - 1) + off;
      Column(step, off, size, n - 1, aos) + aos[at..at + size]
  }

  lemma FieldInside(fields: seq<ParsedField>, k: nat)
    requires k < |fields|
    ensures Offset(fields, k) + FieldSize(fields[k]) == Offset(fields, k + 1) <= Stride(fields)
  {
    OffsetMonotone(fields, k + 1, |fields|);
  }

  /** What a PCD writer stores: the first k fields' columns of a packed body of n points. */
  function FieldMajor(fields: seq<ParsedField>, k: nat, n: nat, aos: seq<byte>): (r: seq<byte>)
    requires k <= |fields| && |aos| == Times(Stride(fields), n)
    ensures |r| == SoaOffset(fields, k, n)
  {
    if k == 0 then []
    else
      FieldInside(fields, k - 1);
      FieldMajor(fields, k - 1, n, aos)
      + Column(Stride(fields), Offset(fields, k - 1), FieldSize(fields[k - 1]), n, aos)
  }

  // ----- round trip -----

  /** The `size` bytes of s at `at` are those of t at `from`. */
  ghost predicate SameBytes(s: seq<byte>, t: seq<byte>, at: int, from: int, size: nat) {
    && 0 <= at && at + size <= |s| && 0 <= from && from + size <= |t|
    && Same(s[at..at + size], t[from..from + size])
  }

  lemma SameLeft(x: seq<byte>, y: seq<byte>, t: seq<byte>, at: nat, from: nat, size: nat)
    requires SameBytes(x, t, at, from, size)
    ensures SameBytes(x + y, t, at, from, size)
  {
    SliceOfLeft(x, y, at, at + size);
  }

  lemma SameRight(x: seq<byte>, y: seq<byte>, t: seq<byte>, at: nat, from: nat, size: nat)
    requires SameBytes(y, t, at, from, size)
    ensures SameBytes(x + y, t, |x| + at, from, size)
  {
    SliceOfRight(x, y, at, at + size);
  }

  lemma CellItself(t: seq<byte>, from: nat, size: nat)
    requires from + size <= |t|
    ensures SameBytes(t[from..from + size], t, 0, from, size)
  {
    Whole(t[from..from + size]);
  }

  lemma {:induction false} ColumnCell(step: nat, off: nat, size: nat, n: nat, aos: seq<byte>, pt: nat)
    requires off + size <= step && Times(step, n) <= |aos| && pt < n
    ensures SameBytes(Column(step, off, size, n, aos), aos, Times(size, pt), Times(step, pt) + off, size)
  {
    var front := Column(step, off, size, n - 1, aos);
    var at := Times(step, n - 1) + off;
    var cell := aos[at..at + size];
    if pt < n - 1 {
      ColumnCell(step, off, size, n - 1, aos, pt);
      SameLeft(front, cell, aos, Times(size, pt), Times(step, pt) + off, size);
    } else {
      CellItself(aos, at, size);
      SameRight(front, cell, aos, 0, at, size);
    }
  }

  lemma {:induction false} FieldMajorCell(fields: seq<ParsedField>, k': nat, n: nat, aos: seq<byte>, k: nat, pt: nat)
    requires k < k' <= |fields| && pt < n && |aos| == Times(Stride(fields), n)
    ensures var size := FieldSize(fields[k]);
            SameBytes(FieldMajor(fields, k', n, aos), aos, SoaOffset(fields, k, n) + Times(size, pt),
                      Times(Stride(fields), pt) + Offset(fields, k), size)
  {
    var last := k' - 1;
    var size, from := FieldSize(fields[k]), Times(Stride(fields), pt) + Offset(fields, k);
    FieldInside(fields, last);
    var front := FieldMajor(fields, last, n, aos);
    var column := Column(Stride(fields), Offset(fields, last), FieldSize(fields[last]), n, aos);
    if k < last {
      FieldMajorCell(fields, last, n, aos, k, pt);
      SameLeft(front, column, aos, SoaOffset(fields, k, n) + Times(size, pt), from, size);
    } else {
      ColumnCell(Stride(fields), Offset(fields, k), size, n, aos, pt);
      SameRight(front, column, aos, Times(size, pt), from, size);
    }
  }

  lemma JoinSlices(x: seq<byte>, s: seq<byte>, at: nat, t: seq<byte>, base: nat, mid: nat, size: nat)
    requires base <= mid <= |t| && Same(x, t[base..mid]) && SameBytes(s, t, at, mid, size)
    ensures Same(x + s[at..at + size], t[base..mid + size])
  {
    JoinRange(t, base, mid, mid + size);
  }

  /** The cell of field k and point pt is the same in both byte orders. */
  ghost predicate SameCell(fields: seq<ParsedField>, n: nat, soa: seq<byte>, aos: seq<byte>, pt: nat, k: nat)
    requires k < |fields|
  {
    SameBytes(soa, aos, SoaOffset(fields, k, n) + Times(FieldSize(fields[k]), pt),
              Times(Stride(fields), pt) + Offset(fields, k), FieldSize(fields[k]))
  }

  lemma GatheredStep(
      fields: seq<ParsedField>, k: nat, n: nat, soa: seq<byte>, aos: seq<byte>, pt: nat, base: nat)
    requires k < |fields| && pt < n && |soa| == SoaOffset(fields, |fields|, n)
    requires base == Times(Stride(fields), pt) && base + Offset(fields, k) <= |aos|
    requires Same(PointBytes(fields, k, n, soa, pt), aos[base..base + Offset(fields, k)])
    requires SameCell(fields, n, soa, aos, pt, k)
    ensures base + Offset(fields, k + 1) <= |aos|
    ensures Same(PointBytes(fields, k + 1, n, soa, pt), aos[base..base + Offset(fields, k + 1)])
  {
    var size := FieldSize(fields[k]);
    JoinSlices(PointBytes(fields, k, n, soa, pt), soa, SoaOffset(fields, k, n) + Times(size, pt), aos, base,
               base + Offset(fields, k), size);
  }

  lemma {:induction false} GatheredPoint(
      fields: seq<ParsedField>, k: nat, n: nat, soa: seq<byte>, aos: seq<byte>, pt: nat, base: nat)
    requires k <= |fields| && pt < n && base == Times(Stride(fields), pt) <= |aos|
    requires |soa| == SoaOffset(fields, |fields|, n)
    requires forall j {:trigger SameCell(fields, n, soa, aos, pt, j)} :: 0 <= j < k ==>
               SameCell(fields, n, soa, aos, pt, j)
    ensures base + Offset(fields, k) <= |aos|
    ensures Same(PointBytes(fields, k, n, soa, pt), aos[base..base + Offset(fields, k)])
  {
    if k == 0 {
      SameIf([], aos[base..base]);
    } else {
      GatheredPoint(fields, k - 1, n, soa, aos, pt, base);
      assert SameCell(fields, n, soa, aos, pt, k - 1);
      GatheredStep(fields, k - 1, n, soa, aos, pt, base);
    }
  }

  lemma {:induction false} GatheredFieldMajor(fields: seq<ParsedField>, n: nat, aos: seq<byte>, pt: nat)
    requires pt < n && |aos| == Times(Stride(fields), n)
    ensures Times(Stride(fields), pt) + Stride(fields) <= |aos|
    ensures Same(PointBytes(fields, |fields|, n, FieldMajor(fields, |fields|, n, aos), pt),
                 aos[Times(Stride(fields), pt)..Times(Stride(fields), pt) + Stride(fields)])
  {
    var soa := FieldMajor(fields, |fields|, n, aos);
    BlockInside(Stride(fields), pt, n);
    forall j | 0 <= j < |fields| ensures SameCell(fields, n, soa, aos, pt, j) {
      FieldMajorCell(fields, |fields|, n, aos, j, pt);
    }
    GatheredPoint(fields, |fields|, n, soa, aos, pt, Times(Stride(fields), pt));
  }

  lemma InterleavedPrefix(fields: seq<ParsedField>, n: nat, soa: seq<byte>, m: nat, aos: seq<byte>)
    requires m < n && |soa| == SoaOffset(fields, |fields|, n)
    requires Times(Stride(fields), m) + Stride(fields) <= |aos|
    requires Same(Interleaved(fields, n, soa, m), aos[..Times(Stride(fields), m)])
    requires var base := Times(Stride(fields), m);
             Same(PointBytes(fields, |fields|, n, soa, m), aos[base..base + Stride(fields)])
    ensures Same(Interleaved(fields, n, soa, m + 1), aos[..Times(Stride(fields), m + 1)])
  {
    var base := Times(Stride(fields), m);
    JoinPrefix(aos, base, base + Stride(fields));
  }

  lemma {:induction false} InterleavedPart(fields: seq<ParsedField>, n: nat, aos: seq<byte>, m: nat)
    requires m <= n && |aos| == Times(Stride(fields), n)
    ensures Times(Stride(fields), m) <= |aos|
    ensures Same(Interleaved(fields, n, FieldMajor(fields, |fields|, n, aos), m), aos[..Times(Stride(fields), m)])
  {
    TimesMonotone(Stride(fields), m, n);
    if m == 0 {
      SameIf([], aos[..0]);
    } else {
      var last := m - 1;
      InterleavedPart(fields, n, aos, last);
      GatheredFieldMajor(fields, n, aos, last);
      InterleavedPrefix(fields, n, FieldMajor(fields, |fields|, n, aos), last, aos);
    }
  }

  /** Interleaving the field-major form of a packed body gives the body back. */
  lemma InterleavedFieldMajor(fields: seq<ParsedField>, n: nat, aos: seq<byte>)
    requires |aos| == Times(Stride(fields), n)
    ensures Interleaved(fields, n, FieldMajor(fields, |fields|, n, aos), n) == aos
  {
    InterleavedPart(fields, n, aos, n);
    Whole(aos);
  }

  // ----- where each byte goes -----

  lemma {:induction false} PointCell(fields: seq<ParsedField>, k': nat, n: nat, soa: seq<byte>, pt: nat, k: nat)
    requires k < k' <= |fields| && pt < n && |soa| == SoaOffset(fields, |fields|, n)
    ensures var size := FieldSize(fields[k]);
            SameBytes(PointBytes(fields, k', n, soa, pt), soa, Offset(fields, k),
                      SoaOffset(fields, k, n) + Times(size, pt), size)
  {
    var last := k' - 1;
    SoaCellInside(fields, n, last, pt);
    var from, size := SoaOffset(fields, k, n) + Times(FieldSize(fields[k]), pt), FieldSize(fields[k]);
    var at := SoaOffset(fields, last, n) + Times(FieldSize(fields[last]), pt);
    var front, cell := PointBytes(fields, last, n, soa, pt), soa[at..at + FieldSize(fields[last])];
    if k < last {
      PointCell(fields, last, n, soa, pt, k);
      SameLeft(front, cell, soa, Offset(fields, k), from, size);
    } else {
      CellItself(soa, from, size);
      SameRight(front, cell, soa, 0, from, size);
    }
  }

  lemma {:induction false} InterleavedCell(
      fields: seq<ParsedField>, n: nat, soa: seq<byte>, m: nat, pt: nat, at: nat, from: nat, size: nat)
    requires pt < m <= n && |soa| == SoaOffset(fields, |fields|, n)
    requires SameBytes(PointBytes(fields, |fields|, n, soa, pt), soa, at, from, size)
    ensures SameBytes(Interleaved(fields, n, soa, m), soa, Times(Stride(fields), pt) + at, from, size)
  {
    var last := m - 1;
    var front, point := Interleaved(fields, n, soa, last), PointBytes(fields, |fields|, n, soa, last);
    if pt < last {
      InterleavedCell(fields, n, soa, last, pt, at, from, size);
      SameLeft(front, point, soa, Times(Stride(fields), pt) + at, from, size);
    } else {
      SameRight(front, point, soa, at, from, size);
    }
  }

  lemma {:induction false} PlacedCell(
      fields: seq<ParsedField>, n: nat, soa: seq<byte>, pt: nat, k: nat, off: nat, from: nat, size: nat)
    requires pt < n && k < |fields| && |soa| == SoaOffset(fields, |fields|, n)
    requires off == Offset(fields, k) && size == FieldSize(fields[k])
    requires from == SoaOffset(fields, k, n) + Times(size, pt)
    ensures SameBytes(Interleaved(fields, n, soa, n), soa, Times(Stride(fields), pt) + off, from, size)
  {
    PointCell(fields, |fields|, n, soa, pt, k);
    InterleavedCell(fields, n, soa, n, pt, off, from, size);
  }

  lemma CellProducts(fields: seq<ParsedField>, n: nat, pt: nat, k: nat)
    requires k < |fields|
    ensures Times(Stride(fields), pt) == pt * Stride(fields)
    ensures SoaOffset(fields, k, n) + Times(FieldSize(fields[k]), pt)
            == n * Offset(fields, k) + pt * FieldSize(fields[k])
  {
    SoaOffsetIs(fields, k, n);
    TimesIsProduct(Stride(fields), pt);
    TimesIsProduct(Offset(fields, k), n);
    TimesIsProduct(FieldSize(fields[k]), pt);
  }

  /** In products, as the source's address arithmetic has it: the cell of field k of point pt. */
  lemma {:induction false} TransposedCell(fields: seq<ParsedField>, n: nat, soa: seq<byte>, pt: nat, k: nat)
    requires pt < n && k < |fields| && |soa| == SoaOffset(fields, |fields|, n)
    ensures SameBytes(Interleaved(fields, n, soa, n), soa, pt * Stride(fields) + Offset(fields, k),
                      n * Offset(fields, k) + pt * FieldSize(fields[k]), FieldSize(fields[k]))
  {
    PlacedCell(fields, n, soa, pt, k, Offset(fields, k), SoaOffset(fields, k, n) + Times(FieldSize(fields[k]), pt),
               FieldSize(fields[k]));
    CellProducts(fields, n, pt, k);
  }

  // ----- the loops -----

  lemma CopyIs(t: seq<byte>, before: seq<byte>, at: nat, cell: seq<byte>)
    requires at + |cell| <= |before| == |t|
    requires forall j :: 0 <= j < |t| ==> t[j] == if at <= j < at + |cell| then cell[j - at] else before[j]
    ensures Same(t, before[..at] + cell + before[at + |cell|..])
  {
    SameIf(t, before[..at] + cell + before[at + |cell|..]);
  }

  /** memcpy within bounds, counting the writes to every byte. */
  method CopyRange(dst: array<byte>, at: nat, src: seq<byte>, from: nat, len: nat, ghost writes: seq<nat>)
    returns (ghost writes': seq<nat>)
    requires at + len <= dst.Length == |writes| && from + len <= |src|
    modifies dst
    ensures dst[..] == old(dst[..at]) + src[from..from + len] + old(dst[at + len..])
    ensures CountedOnce(writes, writes', at, at + len)
  {
    ghost var before := dst[..];
    writes' := writes;
    for i := 0 to len
      invariant forall j :: 0 <= j < dst.Length ==>
                  dst[j] == if at <= j < at + i then src[from + j - at] else before[j]
      invariant CountedOnce(writes, writes', at, at + i)
    {
      dst[at + i] := src[from + i];
      writes' := writes'[at + i := writes'[at + i] + 1];
    }
    CopyIs(dst[..], before, at, src[from..from + len]);
  }

  /** Point q has its first k fields in place, each byte of them written once and no other. */
  ghost predicate PointReady(
      aos: seq<byte>, writes: seq<nat>, fields: seq<ParsedField>, n: nat, soa: seq<byte>, q: nat, k: nat)
    requires k <= |fields| && q < n && |soa| == SoaOffset(fields, |fields|, n)
  {
    var base, step := Times(Stride(fields), q), Stride(fields);
    && base + step <= |aos| == |writes|
    && Offset(fields, k) <= step
    && Same(aos[base..base + Offset(fields, k)], PointBytes(fields, k, n, soa, q))
    && forall r :: base <= r < base + step ==> writes[r] == if r < base + Offset(fields, k) then 1 else 0
  }

  lemma BlocksApart(a: nat, p: nat, q: nat)
    requires p != q
    ensures Times(a, p) + a <= Times(a, q) || Times(a, q) + a <= Times(a, p)
  {
    if p < q {
      TimesMonotone(a, p + 1, q);
    } else {
      TimesMonotone(a, q + 1, p);
    }
  }

  lemma SliceOutside(a: seq<byte>, at: nat, mid: seq<byte>, lo: nat, hi: nat)
    requires at + |mid| <= |a| && lo <= hi <= |a|
    requires hi <= at || at + |mid| <= lo
    ensures Same((a[..at] + mid + a[at + |mid|..])[lo..hi], a[lo..hi])
  {
    SameIf((a[..at] + mid + a[at + |mid|..])[lo..hi], a[lo..hi]);
  }

  /** The cell of field k and point pt, where the field-major buffer has it. */
  ghost predicate IsCell(cell: seq<byte>, fields: seq<ParsedField>, n: nat, soa: seq<byte>, k: nat, pt: nat)
    requires k < |fields|
  {
    var size := FieldSize(fields[k]);
    var from := SoaOffset(fields, k, n) + Times(size, pt);
    from + size <= |soa| && Same(cell, soa[from..from + size])
  }

  /** Writing a cell of another point leaves point q as it was. */
  lemma OtherPointKept(
      aos: seq<byte>, aos': seq<byte>, writes: seq<nat>, writes': seq<nat>, fields: seq<ParsedField>, n: nat,
      soa: seq<byte>, q: nat, kq: nat, pt: nat, at: nat, cell: seq<byte>)
    requires kq <= |fields| && q < n && pt < n && q != pt && |soa| == SoaOffset(fields, |fields|, n)
    requires PointReady(aos, writes, fields, n, soa, q, kq)
    requires Times(Stride(fields), pt) <= at && at + |cell| <= Times(Stride(fields), pt) + Stride(fields) <= |aos|
    requires Copied(aos, aos', writes, writes', at, cell)
    ensures PointReady(aos', writes', fields, n, soa, q, kq)
  {
    BlocksApart(Stride(fields), q, pt);
    var base := Times(Stride(fields), q);
    SliceOutside(aos, at, cell, base, base + Offset(fields, kq));
  }

  lemma SliceAcross(a: seq<byte>, at: nat, mid: seq<byte>, lo: nat)
    requires at + |mid| <= |a| && lo <= at
    ensures Same((a[..at] + mid + a[at + |mid|..])[lo..at + |mid|], a[lo..at] + mid)
  {
    SameIf((a[..at] + mid + a[at + |mid|..])[lo..at + |mid|], a[lo..at] + mid);
  }

  lemma OwnPointGrows(
      aos: seq<byte>, aos': seq<byte>, writes: seq<nat>, writes': seq<nat>, fields: seq<ParsedField>, n: nat,
      soa: seq<byte>, pt: nat, k: nat, at: nat, cell: seq<byte>)
    requires k < |fields| && pt < n && |soa| == SoaOffset(fields, |fields|, n)
    requires PointReady(aos, writes, fields, n, soa, pt, k)
    requires at == Times(Stride(fields), pt) + Offset(fields, k) && IsCell(cell, fields, n, soa, k, pt)
    requires Copied(aos, aos', writes, writes', at, cell)
    ensures PointReady(aos', writes', fields, n, soa, pt, k + 1)
  {
    FieldInside(fields, k);
    SliceAcross(aos, at, cell, Times(Stride(fields), pt));
  }

  /** How many fields of point q are in place when field k is being scattered and has reached point pt. */
  function Done(q: nat, k: nat, pt: nat): nat {
    if q < pt then k + 1 else k
  }

  ghost predicate AllReady(
      aos: seq<byte>, writes: seq<nat>, fields: seq<ParsedField>, n: nat, soa: seq<byte>, k: nat, pt: nat)
    requires k <= |fields| && pt <= n && |soa| == SoaOffset(fields, |fields|, n) && (pt > 0 ==> k < |fields|)
  {
    forall q :: 0 <= q < n ==> PointReady(aos, writes, fields, n, soa, q, Done(q, k, pt))
  }

  /** aos' and writes' are aos and writes after one copy of `cell` to `at`. */
  ghost predicate Copied(
      aos: seq<byte>, aos': seq<byte>, writes: seq<nat>, writes': seq<nat>, at: nat, cell: seq<byte>)
  {
    && at + |cell| <= |aos|
    && Same(aos', aos[..at] + cell + aos[at + |cell|..])
    && CountedOnce(writes, writes', at, at + |cell|)
  }

  /** Placing the cell of field k and point pt takes that point one field further and leaves the others. */
  lemma AllReadyStep(
      aos: seq<byte>, aos': seq<byte>, writes: seq<nat>, writes': seq<nat>, fields: seq<ParsedField>, n: nat,
      soa: seq<byte>, k: nat, pt: nat, at: nat, cell: seq<byte>)
    requires k < |fields| && pt < n && |soa| == SoaOffset(fields, |fields|, n)
    requires |aos| == Times(Stride(fields), n)
    requires at == Times(Stride(fields), pt) + Offset(fields, k) && IsCell(cell, fields, n, soa, k, pt)
    requires AllReady(aos, writes, fields, n, soa, k, pt) && Copied(aos, aos', writes, writes', at, cell)
    ensures AllReady(aos', writes', fields, n, soa, k, pt + 1)
  {
    BlockInside(Stride(fields), pt, n);
    FieldInside(fields, k);
    ghost var next := pt + 1;
    forall q | 0 <= q < n ensures PointReady(aos', writes', fields, n, soa, q, Done(q, k, next)) {
      assert PointReady(aos, writes, fields, n, soa, q, Done(q, k, pt));
      if q == pt {
        OwnPointGrows(aos, aos', writes, writes', fields, n, soa, pt, k, at, cell);
      } else {
        OtherPointKept(aos, aos', writes, writes', fields, n, soa, q, Done(q, k, pt), pt, at, cell);
      }
    }
  }

  /** One memcpy of the inner loop. */
  method PlaceCell(
      aos: array<byte>, soa: seq<byte>, soaOff: nat, fields: seq<ParsedField>, n: nat, k: nat, pt: nat, pf: PointField,
      pointStep: nat, fsize: nat, ghost writes: seq<nat>)
    returns (ghost writes': seq<nat>)
    requires k < |fields| && pt < n && |soa| == SoaOffset(fields, |fields|, n)
    requires aos.Length == Times(Stride(fields), n) == |writes| && pointStep == Stride(fields)
    requires pf.offset == Offset(fields, k) && fsize == FieldSize(fields[k])
    requires soaOff == SoaOffset(fields, k, n) + Times(fsize, pt)
    requires AllReady(aos[..], writes, fields, n, soa, k, pt)
    modifies aos
    ensures |writes'| == |writes| && AllReady(aos[..], writes', fields, n, soa, k, pt + 1)
  {
    BlockInside(pointStep, pt, n);
    FieldInside(fields, k);
    SoaCellInside(fields, n, k, pt);
    ghost var before := aos[..];
    var at := Times(pointStep, pt) + pf.offset;
    writes' := CopyRange(aos, at, soa, soaOff, fsize, writes);
    AllReadyStep(before, aos[..], writes, writes', fields, n, soa, k, pt, at, soa[soaOff..soaOff + fsize]);
  }

  lemma StartReady(aos: seq<byte>, writes: seq<nat>, fields: seq<ParsedField>, n: nat, soa: seq<byte>)
    requires |soa| == SoaOffset(fields, |fields|, n)
    requires |aos| == |writes| == Times(Stride(fields), n)
    requires forall i :: 0 <= i < |writes| ==> writes[i] == 0
    ensures AllReady(aos, writes, fields, n, soa, 0, 0)
  {
    forall q | 0 <= q < n ensures PointReady(aos, writes, fields, n, soa, q, Done(q, 0, 0)) {
      BlockInside(Stride(fields), q, n);
      SameIf(aos[Times(Stride(fields), q)..Times(Stride(fields), q)], []);
    }
  }

  lemma NextField(aos: seq<byte>, writes: seq<nat>, fields: seq<ParsedField>, n: nat, soa: seq<byte>, k: nat)
    requires k < |fields| && |soa| == SoaOffset(fields, |fields|, n)
    requires AllReady(aos, writes, fields, n, soa, k, n)
    ensures AllReady(aos, writes, fields, n, soa, k + 1, 0)
  {
    var next := k + 1;
    forall q | 0 <= q < n ensures PointReady(aos, writes, fields, n, soa, q, Done(q, next, 0)) {
      assert PointReady(aos, writes, fields, n, soa, q, Done(q, k, n));
    }
  }

  lemma {:induction false} AllPlaced(
      aos: seq<byte>, writes: seq<nat>, fields: seq<ParsedField>, n: nat, soa: seq<byte>, m: nat)
    requires m <= n && |soa| == SoaOffset(fields, |fields|, n)
    requires AllReady(aos, writes, fields, n, soa, |fields|, 0)
    requires |aos| == |writes| == Times(Stride(fields), n)
    ensures Times(Stride(fields), m) <= |aos|
    ensures Same(aos[..Times(Stride(fields), m)], Interleaved(fields, n, soa, m))
  {
    TimesMonotone(Stride(fields), m, n);
    if m == 0 {
      SameIf(aos[..0], []);
    } else {
      AllPlaced(aos, writes, fields, n, soa, m - 1);
      assert PointReady(aos, writes, fields, n, soa, m - 1, Done(m - 1, |fields|, 0));
      var base := Times(Stride(fields), m - 1);
      JoinPrefix(aos, base, base + Stride(fields));
    }
  }

  lemma {:induction false} AllCounted(
      aos: seq<byte>, writes: seq<nat>, fields: seq<ParsedField>, n: nat, soa: seq<byte>, m: nat)
    requires m <= n && |soa| == SoaOffset(fields, |fields|, n)
    requires AllReady(aos, writes, fields, n, soa, |fields|, 0)
    requires |aos| == |writes| == Times(Stride(fields), n)
    ensures forall i :: 0 <= i < Times(Stride(fields), m) && i < |writes| ==> writes[i] == 1
  {
    if m > 0 {
      AllCounted(aos, writes, fields, n, soa, m - 1);
      assert PointReady(aos, writes, fields, n, soa, m - 1, Done(m - 1, |fields|, 0));
    }
  }

  /** The transposition: the packed points of the buffer, every output byte written exactly once. */
  method Transpose(soa: seq<byte>, fields: seq<ParsedField>, layout: FieldLayout, n: nat)
    returns (aos: seq<byte>, ghost writes: seq<nat>)
    requires IsLayoutOf(layout, fields) && |soa| == SoaOffset(fields, |fields|, n)
    ensures aos == Interleaved(fields, n, soa, n)
    ensures |writes| == |aos| && forall i :: 0 <= i < |writes| ==> writes[i] == 1
  {
    var buf := new byte[Times(layout.pointStep, n)];
    writes := seq(buf.Length, i => 0);
    StartReady(buf[..], writes, fields, n, soa);
    var soaOff := 0;
    for k := 0 to |layout.fields|
      invariant soaOff == SoaOffset(fields, k, n)
      invariant |writes| == buf.Length
      invariant AllReady(buf[..], writes, fields, n, soa, k, 0)
    {
      var pf := layout.fields[k];
      var fsize := Times(BytesPerElement(pf.kind), pf.count);
      for pt := 0 to n
        invariant soaOff == SoaOffset(fields, k, n) + Times(fsize, pt)
        invariant |writes| == buf.Length
        invariant AllReady(buf[..], writes, fields, n, soa, k, pt)
      {
        writes := PlaceCell(buf, soa, soaOff, fields, n, k, pt, pf, layout.pointStep, fsize, writes);
        soaOff := soaOff + fsize;
      }
      NextField(buf[..], writes, fields, n, soa, k);
    }
    AllPlaced(buf[..], writes, fields, n, soa, n);
    AllCounted(buf[..], writes, fields, n, soa, n);
    aos := buf[..];
    Whole(aos);
  }
}
