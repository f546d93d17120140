/** Which access units of a shared video file an episode emits. */
module LerobotVideo {
  import opened Wrappers
  import opened Int64

  /** Units are listed in decode order. */
  datatype AccessUnit = AccessUnit(dts: int, pts: int, keyframe: bool)

  /** Inclusive index range, and the origin of the episode-local clock. */
  datatype EmitSlice = EmitSlice(first: nat, last: nat, origin: int)

  function EndOf(end: Option<int>): int {
    if end.Some? then end.value else INT64_MAX
  }

  predicate Seekable(u: AccessUnit, start: int) {
    u.keyframe && u.pts <= start
  }

  /** The last keyframe presented at or before start, or unit 0. */
  ghost predicate IsSeekBack(units: seq<AccessUnit>, start: int, first: nat) {
    && first < |units|
    && (Seekable(units[first], start) || first == 0)
    && forall i :: first < i < |units| ==> !Seekable(units[i], start)
  }

  /** The last unit from `first` on that is presented before end, or `first`. */
  ghost predicate IsLastBefore(units: seq<AccessUnit>, end: int, first: nat, last: nat) {
    && first <= last < |units|
    && (units[last].pts < end || last == first)
    && forall i :: last < i < |units| ==> units[i].pts >= end
  }

  ghost predicate IsWindowSlice(units: seq<AccessUnit>, start: int, end: int, s: EmitSlice) {
    IsSeekBack(units, start, s.first) && IsLastBefore(units, end, s.first, s.last) && s.origin == start
  }

  method ResolveEmitSlice(units: seq<AccessUnit>, startNs: Option<int>, endNs: Option<int>) returns (slice: EmitSlice)
    ensures units == [] ==> slice == EmitSlice(0, 0, 0)
    ensures units != [] && startNs.None? ==> slice == EmitSlice(0, |units| - 1, units[0].dts)
    ensures units != [] && startNs.Some? ==> IsWindowSlice(units, startNs.value, EndOf(endNs), slice)
  {
    slice := EmitSlice(0, if units == [] then 0 else |units| - 1, if units == [] then 0 else units[0].dts);
    if units == [] || startNs.None? {
      return;
    }
    var start, end := startNs.value, EndOf(endNs);
    var first := 0;
    for i := 0 to |units|
      invariant first < |units|
      invariant Seekable(units[first], start) || first == 0
      invariant forall j :: first < j < i ==> !Seekable(units[j], start)
    {
      if units[i].keyframe && units[i].pts <= start {
        first := i;
      }
    }
    var last := first;
    for i := first to |units|
      invariant first <= last < |units|
      invariant units[last].pts < end || last == first
      invariant forall j :: last < j < i ==> units[j].pts >= end
    {
      if units[i].pts < end {
        last := i;
      }
    }
    slice := EmitSlice(first, last, start);
  }

  /** The slice is determined by its description. */
  lemma SliceIsUnique(units: seq<AccessUnit>, start: int, end: int, s: EmitSlice, t: EmitSlice)
    requires IsWindowSlice(units, start, end, s) && IsWindowSlice(units, start, end, t)
    ensures s == t
  {
    assert Seekable(units[s.first], start) || s.first == 0;
    assert Seekable(units[t.first], start) || t.first == 0;
    assert s.first == t.first;
  }

  predicate InWindow(u: AccessUnit, start: int, end: int) {
    start <= u.pts < end
  }

  predicate InSlice(i: nat, s: EmitSlice) {
    s.first <= i <= s.last
  }

  ghost predicate CoversWindow(units: seq<AccessUnit>, start: int, end: int, s: EmitSlice) {
    forall i :: 0 <= i < |units| && InWindow(units[i], start, end) ==> InSlice(i, s)
  }

  /** The slice holds every unit of the window exactly when none of the window is decoded before the seek-back
      keyframe. */
  lemma CoversWindowExactly(units: seq<AccessUnit>, start: int, end: int, s: EmitSlice)
    requires IsWindowSlice(units, start, end, s)
    ensures CoversWindow(units, start, end, s)
            <==> forall i :: 0 <= i < s.first ==> !InWindow(units[i], start, end)
  {
  }

  /** Units decoded before a keyframe are presented before it. */
  ghost predicate ClosedGops(units: seq<AccessUnit>) {
    forall k, i :: 0 <= i < k < |units| && units[k].keyframe ==> units[i].pts < units[k].pts
  }

  /** The keyframe unit i needs: the last one decoded at or before it. */
  function KeyframeOf(units: seq<AccessUnit>, i: nat): (k: nat)
    requires i < |units| && units[0].keyframe
    ensures k <= i && units[k].keyframe
    ensures forall j :: k < j <= i ==> !units[j].keyframe
  {
    if units[i].keyframe then i else KeyframeOf(units, i - 1)
  }

  /** A keyframe-first list always gives a slice that is not empty, in range, and starts at a keyframe. */
  lemma SliceStartsAtKeyframe(units: seq<AccessUnit>, start: int, end: int, s: EmitSlice)
    requires units != [] && units[0].keyframe && IsWindowSlice(units, start, end, s)
    ensures s.first <= s.last < |units| && units[s.first].keyframe
  {
  }

  /** With closed GOPs the slice holds the whole window, and with each of its units everything back to the keyframe
      that unit depends on. */
  lemma WindowIsDecodable(units: seq<AccessUnit>, start: int, end: int, s: EmitSlice)
    requires units != [] && units[0].keyframe && ClosedGops(units) && IsWindowSlice(units, start, end, s)
    ensures CoversWindow(units, start, end, s)
    ensures forall i, j :: 0 <= i < |units| && InWindow(units[i], start, end) && KeyframeOf(units, i) <= j <= i
                           ==> InSlice(j, s)
  {
    CoversWindowExactly(units, start, end, s);
    forall i | 0 <= i < s.first ensures !InWindow(units[i], start, end) {
      assert units[s.first].keyframe && units[i].pts < units[s.first].pts;
    }
    forall i, j | 0 <= i < |units| && InWindow(units[i], start, end) && KeyframeOf(units, i) <= j <= i
      ensures InSlice(j, s)
    {
      assert InSlice(i, s);
      assert KeyframeOf(units, i) >= s.first;
    }
  }

  /** With units between two keyframes both decoded and presented between them, a window from one keyframe's time to a
      later one's is exactly the units from the one up to but not including the other: episodes cut at keyframes share
      no unit and lose none. */
  lemma AlignedSlice(units: seq<AccessUnit>, k: nat, m: nat, s: EmitSlice)
    requires k < m < |units| && units[k].keyframe && units[m].keyframe && ClosedGops(units)
    requires forall j, i :: 0 <= j < i < |units| && units[j].keyframe ==> units[j].pts < units[i].pts
    requires IsWindowSlice(units, units[k].pts, units[m].pts, s)
    ensures s == EmitSlice(k, m - 1, units[k].pts)
  {
    assert Seekable(units[k], units[k].pts);
    assert s.first == k;
    assert units[m - 1].pts < units[m].pts;
  }

  /** A leading picture decoded before its keyframe but presented inside the window is lost. */
  lemma LeadingPictureIsLost(s: EmitSlice)
    requires IsWindowSlice(OPEN_GOP, 25, 40, s)
    ensures InWindow(OPEN_GOP[1], 25, 40) && !InSlice(1, s)
  {
    assert Seekable(OPEN_GOP[2], 25);
  }

  const OPEN_GOP := [AccessUnit(0, 0, true), AccessUnit(1, 30, false), AccessUnit(2, 20, true)]

  // ----- pushing the slice -----

  /** The store key is decode time, the frame's own timestamp presentation time, both episode-local. */
  datatype Frame = Frame(hostTs: int, ptsTs: int, unit: nat)

  function FrameOf(units: seq<AccessUnit>, origin: int, i: nat): Frame
    requires i < |units|
  {
    Frame(units[i].dts - origin, units[i].pts - origin, i)
  }

  /** Units first, first + 1, … up to but not including `to`. */
  function Frames(units: seq<AccessUnit>, origin: int, first: nat, to: nat): (r: seq<Frame>)
    requires first <= to <= |units|
    ensures |r| == to - first
    ensures forall i :: 0 <= i < |r| ==> r[i] == FrameOf(units, origin, first + i)
  {
    seq(to - first, i requires 0 <= i < to - first => FrameOf(units, origin, first + i))
  }

  /** One camera: pushes the slice in decode order and stops at the first frame the host refuses. */
  method ImportCamera(units: seq<AccessUnit>, startNs: Option<int>, endNs: Option<int>, host: Frame -> bool)
    returns (pushed: seq<Frame>, slice: EmitSlice, ok: bool)
    ensures units == [] ==> pushed == [] && ok
    ensures units != [] && startNs.Some? ==> IsWindowSlice(units, startNs.value, EndOf(endNs), slice)
    ensures units != [] && startNs.None? ==> slice == EmitSlice(0, |units| - 1, units[0].dts)
    ensures units != [] ==> slice.first <= slice.last < |units|
    ensures units != [] && ok ==> pushed == Frames(units, slice.origin, slice.first, slice.last + 1)
    ensures units != [] && !ok ==> exists to ::
      && slice.first <= to <= slice.last && pushed == Frames(units, slice.origin, slice.first, to)
      && !host(FrameOf(units, slice.origin, to))
  {
    slice := ResolveEmitSlice(units, startNs, endNs);
    pushed, ok := [], true;
    if units == [] {
      return;
    }
    var i := slice.first;
    while i <= slice.last
      invariant slice.first <= i <= slice.last + 1
      invariant pushed == Frames(units, slice.origin, slice.first, i)
    {
      var frame := FrameOf(units, slice.origin, i);
      if !host(frame) {
        return pushed, slice, false;
      }
      pushed := pushed + [frame];
      i := i + 1;
    }
  }

  /** Store keys keep the decode order, and the unit presented at the window start lands on 0. */
  lemma FramesKeepOrder(units: seq<AccessUnit>, origin: int, first: nat, to: nat)
    requires first <= to <= |units|
    requires forall i, j :: 0 <= i < j < |units| ==> units[i].dts <= units[j].dts
    ensures var r := Frames(units, origin, first, to);
            && |r| == to - first
            && (forall i :: 0 <= i < |r| ==>
                  r[i] == Frame(units[first + i].dts - origin, units[first + i].pts - origin, first + i))
            && (forall i, j :: 0 <= i < j < |r| ==> r[i].hostTs <= r[j].hostTs)
            && (forall i :: 0 <= i < |r| ==> (r[i].ptsTs == 0 <==> units[first + i].pts == origin))
  {
  }
}
