/** Order-preserving list operations: the comprehensions and append loops of the source. */
module Seqs {

  /** `[x for x in s if f(x)]`. */
  function Filter<T(!new)>(f: T -> bool, s: seq<T>): (r: seq<T>)
    ensures |r| <= |s|
    ensures forall x {:trigger x in r} :: x in r <==> x in s && f(x)
    decreases |s|
  {
    if s == [] then []
    else
      var init := s[..|s| - 1];
      assert s == init + [s[|s| - 1]];
      Filter(f, init) + (if f(s[|s| - 1]) then [s[|s| - 1]] else [])
  }

  /** Filtering distributes over concatenation: the kept elements stay in source order. */
  lemma {:induction false} FilterAppend<T(!new)>(f: T -> bool, a: seq<T>, b: seq<T>)
    ensures Filter(f, a + b) == Filter(f, a) + Filter(f, b)
    decreases |b|
  {
    if b != [] {
      var b', x := b[..|b| - 1], b[|b| - 1];
      var ab := a + b;
      FilterAppend(f, a, b');
      assert ab[..|ab| - 1] == a + b';
      assert ab[|ab| - 1] == x;
      var last := if f(x) then [x] else [];
      assert Filter(f, ab) == Filter(f, a + b') + last;
      assert Filter(f, b) == Filter(f, b') + last;
    } else {
      assert a + b == a;
    }
  }

  lemma FilterPrepend<T(!new)>(f: T -> bool, x: T, s: seq<T>)
    ensures Filter(f, [x] + s) == (if f(x) then [x] else []) + Filter(f, s)
  {
    FilterAppend(f, [x], s);
    FilterSingleton(f, x);
  }

  lemma FilterSingleton<T(!new)>(f: T -> bool, x: T)
    ensures Filter(f, [x]) == if f(x) then [x] else []
  {
    var one: seq<T> := [x];
    assert one[..|one| - 1] == [];
  }

  /** Filtering a list whose elements all pass changes nothing. */
  lemma {:induction false} FilterAll<T(!new)>(f: T -> bool, s: seq<T>)
    requires forall x :: x in s ==> f(x)
    ensures Filter(f, s) == s
    decreases |s|
  {
    if s != [] {
      var init, x := s[..|s| - 1], s[|s| - 1];
      forall y | y in init ensures f(y) {
        InSnoc(s, y);
      }
      FilterAll(f, init);
      assert x in s;
      assert s == init + [x];
    }
  }

  /** Filters with the same verdict on every element keep the same elements. */
  lemma {:induction false} FilterExt<T(!new)>(f: T -> bool, g: T -> bool, s: seq<T>)
    requires forall x :: f(x) == g(x)
    ensures Filter(f, s) == Filter(g, s)
    decreases |s|
  {
    if s != [] {
      FilterExt(f, g, s[..|s| - 1]);
    }
  }

  /** Two filters in a row are one filter on the conjunction. */
  lemma {:induction false} FilterCompose<T(!new)>(f: T -> bool, g: T -> bool, h: T -> bool, s: seq<T>)
    requires forall x :: h(x) == (f(x) && g(x))
    ensures Filter(g, Filter(f, s)) == Filter(h, s)
    decreases |s|
  {
    if s != [] {
      var init := s[..|s| - 1];
      var x := s[|s| - 1];
      FilterCompose(f, g, h, init);
      FilterAppend(g, Filter(f, init), if f(x) then [x] else []);
      if f(x) {
        assert Filter(g, [x]) == Filter(g, []) + (if g(x) then [x] else []);
      }
    }
  }

  /** `a` can be obtained from `b` by deleting elements. */
  ghost predicate IsSubsequence<T>(a: seq<T>, b: seq<T>)
    decreases |b|
  {
    if a == [] then true
    else if b == [] then false
    else (a[|a| - 1] == b[|b| - 1] && IsSubsequence(a[..|a| - 1], b[..|b| - 1]))
         || IsSubsequence(a, b[..|b| - 1])
  }

  lemma {:induction false} FilterIsSubsequence<T(!new)>(f: T -> bool, s: seq<T>)
    ensures IsSubsequence(Filter(f, s), s)
    decreases |s|
  {
    if s != [] {
      var init := s[..|s| - 1];
      FilterIsSubsequence(f, init);
      var r := Filter(f, s);
      if f(s[|s| - 1]) {
        assert r[..|r| - 1] == Filter(f, init);
      } else if r != [] {
        assert r == Filter(f, init);
      }
    }
  }

  /** The concatenation of a list of lists, in order. */
  function Flatten<T>(ss: seq<seq<T>>): seq<T>
    decreases |ss|
  {
    if ss == [] then [] else Flatten(ss[..|ss| - 1]) + ss[|ss| - 1]
  }

  lemma {:induction false} FlattenAppend<T>(a: seq<seq<T>>, b: seq<seq<T>>)
    ensures Flatten(a + b) == Flatten(a) + Flatten(b)
    decreases |b|
  {
    if b != [] {
      var b' := b[..|b| - 1];
      FlattenAppend(a, b');
      assert (a + b)[..|a + b| - 1] == a + b';
    } else {
      assert a + b == a;
    }
  }

  /** `[f(x) for x in s]`. */
  function Map<T, U>(f: T -> U, s: seq<T>): (r: seq<U>)
    ensures |r| == |s|
    ensures forall i :: 0 <= i < |s| ==> r[i] == f(s[i])
  {
    seq(|s|, i requires 0 <= i < |s| => f(s[i]))
  }

  /** An element of the mapped list is the image of some element, and conversely. */
  lemma MapMember<T, U>(f: T -> U, s: seq<T>, y: U)
    ensures y in Map(f, s) <==> exists x :: x in s && f(x) == y
  {
    var r := Map(f, s);
    if y in r {
      var i :| 0 <= i < |r| && r[i] == y;
      assert s[i] in s;
    }
    if exists x :: x in s && f(x) == y {
      var x :| x in s && f(x) == y;
      var i :| 0 <= i < |s| && s[i] == x;
      assert r[i] == y;
    }
  }

  /** One more element adds its image at the end. */
  lemma MapSnoc<T, U>(f: T -> U, s: seq<T>, i: nat)
    requires i < |s|
    ensures Map(f, s[..i + 1]) == Map(f, s[..i]) + [f(s[i])]
  {
    var longer, shorter := Map(f, s[..i + 1]), Map(f, s[..i]) + [f(s[i])];
    forall k | 0 <= k <= i ensures longer[k] == shorter[k] {
      assert s[..i + 1][k] == s[k];
    }
  }

  /** An element of a non-empty list is in its front part or is its last element. */
  lemma InSnoc<T>(s: seq<T>, y: T)
    requires s != []
    ensures y in s <==> y in s[..|s| - 1] || y == s[|s| - 1]
  {
    assert s == s[..|s| - 1] + [s[|s| - 1]];
  }

  /** One more list adds its elements at the end. */
  lemma FlattenSnoc<T>(ss: seq<seq<T>>, i: nat)
    requires i < |ss|
    ensures Flatten(ss[..i + 1]) == Flatten(ss[..i]) + ss[i]
  {
    assert ss[..i + 1][..i] == ss[..i];
  }

  /** Extending a prefix of `xs` by one element, after a fixed `before`. */
  lemma PrefixSnoc<T>(before: seq<T>, xs: seq<T>, j: nat)
    requires j < |xs|
    ensures before + xs[..j + 1] == (before + xs[..j]) + [xs[j]]
  {
  }

  /** `[y for x in s for y in f(x)]`: each element's list, in order. */
  function FlatMap<T, U>(f: T -> seq<U>, s: seq<T>): seq<U>
    decreases |s|
  {
    if s == [] then [] else FlatMap(f, s[..|s| - 1]) + f(s[|s| - 1])
  }

  lemma {:induction false} FlatMapAppend<T, U>(f: T -> seq<U>, a: seq<T>, b: seq<T>)
    ensures FlatMap(f, a + b) == FlatMap(f, a) + FlatMap(f, b)
    decreases |b|
  {
    if b != [] {
      var b', x := b[..|b| - 1], b[|b| - 1];
      var ab := a + b;
      FlatMapAppend(f, a, b');
      assert ab[..|ab| - 1] == a + b';
      assert ab[|ab| - 1] == x;
      assert FlatMap(f, ab) == FlatMap(f, a + b') + f(x);
    } else {
      assert a + b == a;
    }
  }

  /** One more element contributes its own list at the end. */
  lemma FlatMapSnoc<T, U>(f: T -> seq<U>, s: seq<T>, i: nat)
    requires i < |s|
    ensures FlatMap(f, s[..i + 1]) == FlatMap(f, s[..i]) + f(s[i])
  {
    assert s[..i + 1][..i] == s[..i];
  }

  /** An element of the flattened list is an element of some element's list, and conversely. */
  lemma {:induction false} FlatMapMember<T, U>(f: T -> seq<U>, s: seq<T>, y: U)
    ensures y in FlatMap(f, s) <==> exists x :: x in s && y in f(x)
    decreases |s|
  {
    if s != [] {
      var init, last := s[..|s| - 1], s[|s| - 1];
      FlatMapMember(f, init, y);
      assert FlatMap(f, s) == FlatMap(f, init) + f(last);
      if exists x :: x in s && y in f(x) {
        var x :| x in s && y in f(x);
        InSnoc(s, x);
      }
      if exists x :: x in init && y in f(x) {
        var x :| x in init && y in f(x);
        InSnoc(s, x);
      }
      assert last in s;
    }
  }

  /** Functions that agree on every element flatten to the same list. */
  lemma {:induction false} FlatMapExt<T, U>(f: T -> seq<U>, g: T -> seq<U>, s: seq<T>)
    requires forall x :: x in s ==> f(x) == g(x)
    ensures FlatMap(f, s) == FlatMap(g, s)
    decreases |s|
  {
    if s != [] {
      assert s[|s| - 1] in s;
      assert forall x :: x in s[..|s| - 1] ==> x in s;
      FlatMapExt(f, g, s[..|s| - 1]);
    }
  }

  /** Elements that contribute nothing flatten to nothing. */
  lemma {:induction false} FlatMapNothing<T, U>(f: T -> seq<U>, s: seq<T>)
    requires forall x :: x in s ==> f(x) == []
    ensures FlatMap(f, s) == []
    decreases |s|
  {
    if s != [] {
      assert s[|s| - 1] in s;
      assert forall x :: x in s[..|s| - 1] ==> x in s;
      FlatMapNothing(f, s[..|s| - 1]);
    }
  }
}
