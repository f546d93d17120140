/** Facts about slices and concatenations, each proved on its own, for lemmas and loops that need several of them. */
module Slices {
  import opened Wrappers

  /** a == b. Stated through Some, so that a proof that only passes the fact on need not compare the two sequences
      element by element. */
  ghost predicate Same<T>(a: seq<T>, b: seq<T>) {
    Some(a) == Some(b)
  }

  /** The same for sets and maps. */
  ghost predicate SameValue<T>(a: T, b: T) {
    Some(a) == Some(b)
  }

  lemma SameIf<T>(a: seq<T>, b: seq<T>)
    requires |a| == |b| && forall i :: 0 <= i < |a| ==> a[i] == b[i]
    ensures Same(a, b)
  {
    assert a == b;
  }

  lemma SplitJoin<T>(s: seq<T>, cut: nat)
    requires cut <= |s|
    ensures Same(s, s[..cut] + s[cut..])
  {
    SameIf(s, s[..cut] + s[cut..]);
  }

  /** A concatenation is taken apart where it was put together. */
  lemma CutConcat<T>(a: seq<T>, b: seq<T>)
    ensures Same((a + b)[..|a|], a) && Same((a + b)[|a|..], b)
  {
    SameIf((a + b)[..|a|], a);
    SameIf((a + b)[|a|..], b);
  }

  lemma Regroup<T>(a: seq<T>, b: seq<T>, c: seq<T>)
    ensures Same((a + b) + c, a + (b + c))
  {
    SameIf((a + b) + c, a + (b + c));
  }

  lemma NothingAfter<T>(s: seq<T>, nothing: seq<T>)
    requires |nothing| == 0
    ensures Same(s + nothing, s)
  {
    SameIf(s + nothing, s);
  }

  lemma NothingBefore<T>(nothing: seq<T>, s: seq<T>)
    requires |nothing| == 0
    ensures Same(nothing + s, s)
  {
    SameIf(nothing + s, s);
  }

  lemma Whole<T>(s: seq<T>)
    ensures Same(s[..|s|], s) && Same(s[0..|s|], s)
  {
    SameIf(s[..|s|], s);
    SameIf(s[0..|s|], s);
  }

  /** A range cut in two. */
  lemma SplitRange<T>(s: seq<T>, from: nat, cut: nat, to: nat)
    requires from + cut <= to <= |s|
    ensures Same(s[from..to][..cut], s[from..from + cut]) && Same(s[from..to][cut..], s[from + cut..to])
  {
    SameIf(s[from..to][..cut], s[from..from + cut]);
    SameIf(s[from..to][cut..], s[from + cut..to]);
  }

  lemma JoinRange<T>(s: seq<T>, from: nat, mid: nat, to: nat)
    requires from <= mid <= to <= |s|
    ensures Same(s[from..mid] + s[mid..to], s[from..to])
  {
    SameIf(s[from..mid] + s[mid..to], s[from..to]);
  }

  lemma JoinPrefix<T>(s: seq<T>, mid: nat, to: nat)
    requires mid <= to <= |s|
    ensures Same(s[..mid] + s[mid..to], s[..to])
  {
    SameIf(s[..mid] + s[mid..to], s[..to]);
  }

  lemma OneMore<T>(s: seq<T>, i: nat)
    requires i < |s|
    ensures Same(s[..i + 1], s[..i] + [s[i]])
  {
    SameIf(s[..i + 1], s[..i] + [s[i]]);
  }

  lemma RangeGrows<T>(s: seq<T>, from: nat, i: nat)
    requires from <= i < |s|
    ensures Same(s[from..i + 1], s[from..i] + [s[i]])
  {
    SameIf(s[from..i + 1], s[from..i] + [s[i]]);
  }

  lemma BeforeUpdate<T>(s: seq<T>, i: nat, x: T)
    requires i < |s|
    ensures Same(s[i := x][..i], s[..i])
  {
    SameIf(s[i := x][..i], s[..i]);
  }

  /** A sequence is what precedes its last element, and that element. */
  lemma LastOff<T>(s: seq<T>)
    requires s != []
    ensures Same(s, s[..|s| - 1] + [s[|s| - 1]])
  {
    SameIf(s, s[..|s| - 1] + [s[|s| - 1]]);
  }

  lemma SliceOfPrefix<T>(s: seq<T>, cut: nat, from: nat, to: nat)
    requires from <= to <= cut <= |s|
    ensures Same(s[..cut][from..to], s[from..to])
  {
    SameIf(s[..cut][from..to], s[from..to]);
  }

  lemma PrefixOfPrefix<T>(s: seq<T>, cut: nat, to: nat)
    requires to <= cut <= |s|
    ensures Same(s[..cut][..to], s[..to])
  {
    SameIf(s[..cut][..to], s[..to]);
  }

  lemma SuffixOfPrefix<T>(s: seq<T>, cut: nat, from: nat)
    requires from <= cut <= |s|
    ensures Same(s[..cut][from..], s[from..cut])
  {
    SameIf(s[..cut][from..], s[from..cut]);
  }

  lemma SliceOfSuffix<T>(s: seq<T>, cut: nat, from: nat, to: nat)
    requires from <= to && cut + to <= |s|
    ensures Same(s[cut..][from..to], s[cut + from..cut + to])
  {
    SameIf(s[cut..][from..to], s[cut + from..cut + to]);
  }

  lemma SuffixOfSuffix<T>(s: seq<T>, cut: nat, from: nat)
    requires cut + from <= |s|
    ensures Same(s[cut..][from..], s[cut + from..])
  {
    SameIf(s[cut..][from..], s[cut + from..]);
  }

  lemma SliceOfLeft<T>(a: seq<T>, b: seq<T>, from: nat, to: nat)
    requires from <= to <= |a|
    ensures Same((a + b)[from..to], a[from..to])
  {
    SameIf((a + b)[from..to], a[from..to]);
  }

  lemma SuffixOfConcat<T>(a: seq<T>, b: seq<T>, from: nat)
    requires from <= |a|
    ensures Same((a + b)[from..], a[from..] + b)
  {
    SameIf((a + b)[from..], a[from..] + b);
  }

  lemma SliceOfRight<T>(a: seq<T>, b: seq<T>, from: nat, to: nat)
    requires from <= to <= |b|
    ensures Same((a + b)[|a| + from..|a| + to], b[from..to])
  {
    SameIf((a + b)[|a| + from..|a| + to], b[from..to]);
  }
}
