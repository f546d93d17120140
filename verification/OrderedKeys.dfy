/** std::map iteration: the keys of a finite set of numbers in ascending order. */
module OrderedKeys {
  import opened Slices

  ghost predicate Ascending(s: seq<nat>) {
    forall i, j :: 0 <= i < j < |s| ==> s[i] < s[j]
  }

  function Elements(s: seq<nat>): set<nat> {
    set x | x in s
  }

  predicate IsLeast(x: nat, s: set<nat>) {
    x in s && forall y :: y in s ==> x <= y
  }

  lemma {:induction false} HasLeast(s: set<nat>)
    requires s != {}
    ensures exists x :: IsLeast(x, s)
  {
    var x :| x in s;
    var rest := s - {x};
    assert s == rest + {x};
    if rest == {} {
      assert IsLeast(x, s);
    } else {
      HasLeast(rest);
      var m :| IsLeast(m, rest);
      assert IsLeast(if x < m then x else m, s);
    }
  }

  function Least(s: set<nat>): (x: nat)
    requires s != {}
    ensures IsLeast(x, s)
  {
    HasLeast(s);
    var x :| IsLeast(x, s);
    x
  }

  lemma AscendingCons(x: nat, rest: seq<nat>)
    requires Ascending(rest) && forall y :: y in Elements(rest) ==> x < y
    ensures Ascending([x] + rest) && Elements([x] + rest) == {x} + Elements(rest)
  {
    assert forall i :: 0 <= i < |rest| ==> rest[i] in Elements(rest);
    ElementsOfConcat([x], rest);
  }

  lemma ElementsOfConcat(a: seq<nat>, b: seq<nat>)
    ensures Elements(a + b) == Elements(a) + Elements(b)
  {
    forall x ensures x in Elements(a + b) <==> x in Elements(a) || x in Elements(b) {
      assert x in a + b <==> x in a || x in b;
    }
  }

  /** The ascending list of the elements of `s`. */
  function Sorted(s: set<nat>): (r: seq<nat>)
    ensures Ascending(r) && Elements(r) == s
    decreases |s|
  {
    if s == {} then []
    else
      var x := Least(s);
      AscendingCons(x, Sorted(s - {x}));
      [x] + Sorted(s - {x})
  }

  lemma SortedMembers(s: set<nat>)
    ensures forall i :: 0 <= i < |Sorted(s)| ==> Sorted(s)[i] in s
  {
    var r := Sorted(s);
    forall i | 0 <= i < |r| ensures r[i] in s {
      assert r[i] in Elements(r);
    }
  }

  /** An ascending list is determined by its elements. */
  lemma {:induction false} AscendingUnique(a: seq<nat>, b: seq<nat>)
    requires Ascending(a) && Ascending(b) && Elements(a) == Elements(b)
    ensures a == b
  {
    assert b != [] ==> b[0] in Elements(b);
    if a != [] {
      assert a[0] in Elements(b);
      assert b[0] in Elements(a);
      assert a[0] == b[0];
      TailElements(a);
      TailElements(b);
      AscendingUnique(a[1..], b[1..]);
      assert a == [a[0]] + a[1..] && b == [b[0]] + b[1..];
    }
  }

  lemma TailElements(a: seq<nat>)
    requires Ascending(a) && a != []
    ensures Elements(a[1..]) == Elements(a) - {a[0]}
  {
    assert a == [a[0]] + a[1..];
    forall x | x in Elements(a) - {a[0]} ensures x in Elements(a[1..]) {
      var i :| 0 <= i < |a| && a[i] == x;
      assert a[1..][i - 1] == x;
    }
  }

  /** The elements of `s` that lie in `t`, in the order of `s`: a filtering loop over a map. */
  function Kept(s: seq<nat>, t: set<nat>): seq<nat> {
    if s == [] then []
    else
      var x := s[|s| - 1];
      Kept(s[..|s| - 1], t) + if x in t then [x] else []
  }

  lemma KeptStep(s: seq<nat>, i: nat, t: set<nat>)
    requires i < |s|
    ensures Kept(s[..i + 1], t) == Kept(s[..i], t) + if s[i] in t then [s[i]] else []
  {
    PrefixOfPrefix(s, i + 1, i);
  }

  lemma {:induction false} KeptElements(s: seq<nat>, t: set<nat>)
    requires Ascending(s)
    ensures Ascending(Kept(s, t)) && Elements(Kept(s, t)) == Elements(s) * t
  {
    if s != [] {
      var front, x := s[..|s| - 1], s[|s| - 1];
      KeptElements(front, t);
      assert s == front + [x];
      ElementsOfConcat(front, [x]);
      ElementsOfConcat(Kept(front, t), if x in t then [x] else []);
      forall i | 0 <= i < |Kept(front, t)| ensures Kept(front, t)[i] < x {
        assert Kept(front, t)[i] in Elements(front);
      }
    }
  }

  /** Filtering an ordered key list enumerates the filtered key set. */
  lemma KeptSorted(keys: set<nat>, t: set<nat>)
    requires t <= keys
    ensures Kept(Sorted(keys), t) == Sorted(t)
  {
    KeptElements(Sorted(keys), t);
    AscendingUnique(Kept(Sorted(keys), t), Sorted(t));
  }
}
