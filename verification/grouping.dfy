/**
 * The insertion-ordered dictionaries from names to lists that the review-activity code
 * builds (`authors` in `get_pull_reviewers_days_ago`, `reviewers` in `get_reviwer_debt`).
 * Python 3.7+ dictionaries iterate their keys in first-insertion order; `keys` records it.
 */
module Grouping {

  /** A dict from names to lists, with its keys in insertion order. */
  datatype Groups<V> = Groups(keys: seq<string>, lists: map<string, seq<V>>)

  ghost predicate NoDuplicates(s: seq<string>) {
    forall i, j :: 0 <= i < j < |s| ==> s[i] != s[j]
  }

  /** The keys list the domain once each, and no list is empty. */
  ghost predicate Valid<V>(g: Groups<V>) {
    && NoDuplicates(g.keys)
    && (forall k :: k in g.lists <==> k in g.keys)
    && (forall k :: k in g.lists ==> g.lists[k] != [])
  }

  /** `d[k] = l`: replaces the list of an existing key in place; a new key goes last. */
  function Put<V>(g: Groups<V>, k: string, l: seq<V>): Groups<V> {
    Groups(if k in g.lists then g.keys else g.keys + [k], g.lists[k := l])
  }

  /** Append `v` to the list of `k`; a new key goes last. */
  function Add<V>(g: Groups<V>, k: string, v: V): Groups<V> {
    if k in g.lists then Groups(g.keys, g.lists[k := g.lists[k] + [v]])
    else Groups(g.keys + [k], g.lists[k := [v]])
  }

  /** `if k not in d: d[k] = []` followed by `d[k].append(v)` is `Add`. */
  lemma CreateThenAppendIsAdd<V>(g: Groups<V>, k: string, v: V)
    ensures var g1 := if k in g.lists then g else Put(g, k, []);
            Put(g1, k, g1.lists[k] + [v]) == Add(g, k, v)
  {
    if k !in g.lists {
      assert [] + [v] == [v];
      assert g.lists[k := []][k := [v]] == g.lists[k := [v]];
    }
  }

  /** The dict obtained by appending each pair's value under its name, pair by pair. */
  function GroupPairs<V>(ps: seq<(string, V)>): Groups<V>
    decreases |ps|
  {
    if ps == [] then Groups([], map[])
    else Add(GroupPairs(ps[..|ps| - 1]), ps[|ps| - 1].0, ps[|ps| - 1].1)
  }

  /** The values paired with `k`, in order (reference definition). */
  function ValuesOf<V>(ps: seq<(string, V)>, k: string): seq<V>
    decreases |ps|
  {
    if ps == [] then []
    else ValuesOf(ps[..|ps| - 1], k) + (if ps[|ps| - 1].0 == k then [ps[|ps| - 1].1] else [])
  }

  lemma {:induction false} ValuesOfAppend<V>(a: seq<(string, V)>, b: seq<(string, V)>, k: string)
    ensures ValuesOf(a + b, k) == ValuesOf(a, k) + ValuesOf(b, k)
    decreases |b|
  {
    if b != [] {
      ValuesOfAppend(a, b[..|b| - 1], k);
      assert (a + b)[..|a + b| - 1] == a + b[..|b| - 1];
    } else {
      assert a + b == a;
    }
  }

  /** The names of the pairs, in order. */
  function NamesOf<V>(ps: seq<(string, V)>): seq<string>
    decreases |ps|
  {
    if ps == [] then [] else NamesOf(ps[..|ps| - 1]) + [ps[|ps| - 1].0]
  }

  /** Each name once, at the place it first appears (reference definition). */
  function FirstSeen(ns: seq<string>): seq<string>
    decreases |ns|
  {
    if ns == [] then []
    else
      var f := FirstSeen(ns[..|ns| - 1]);
      if ns[|ns| - 1] in f then f else f + [ns[|ns| - 1]]
  }

  /** Total length of the lists of `keys`. */
  function SumLengths<V>(keys: seq<string>, lists: map<string, seq<V>>): nat
    decreases |keys|
  {
    if keys == [] then 0
    else
      var k := keys[|keys| - 1];
      SumLengths(keys[..|keys| - 1], lists) + (if k in lists then |lists[k]| else 0)
  }

  /** Building pair by pair keeps the dict well formed. */
  lemma {:induction false} GroupPairsValid<V>(ps: seq<(string, V)>)
    ensures Valid(GroupPairs(ps))
    decreases |ps|
  {
    if ps != [] {
      GroupPairsValid(ps[..|ps| - 1]);
    }
  }

  /** The list under `k` is exactly the values paired with `k`, in order; `k` is a key iff it has one. */
  lemma {:induction false} GroupPairsLists<V>(ps: seq<(string, V)>, k: string)
    ensures k in GroupPairs(ps).lists <==> ValuesOf(ps, k) != []
    ensures k in GroupPairs(ps).lists ==> GroupPairs(ps).lists[k] == ValuesOf(ps, k)
    decreases |ps|
  {
    if ps != [] {
      GroupPairsLists(ps[..|ps| - 1], k);
    }
  }

  /** The keys are the names in order of first appearance. */
  lemma {:induction false} GroupPairsKeys<V>(ps: seq<(string, V)>)
    ensures GroupPairs(ps).keys == FirstSeen(NamesOf(ps))
    decreases |ps|
  {
    if ps != [] {
      var init := ps[..|ps| - 1];
      GroupPairsKeys(init);
      GroupPairsValid(init);
      assert NamesOf(ps)[..|NamesOf(ps)| - 1] == NamesOf(init);
    }
  }

  lemma {:induction false} SumFrame<V>(keys: seq<string>, lists: map<string, seq<V>>, k: string, l: seq<V>)
    requires k !in keys
    ensures SumLengths(keys, lists[k := l]) == SumLengths(keys, lists)
    decreases |keys|
  {
    if keys != [] {
      SumFrame(keys[..|keys| - 1], lists, k, l);
    }
  }

  lemma {:induction false} SumBump<V>(keys: seq<string>, lists: map<string, seq<V>>, k: string, v: V)
    requires NoDuplicates(keys) && k in keys && k in lists
    ensures SumLengths(keys, lists[k := lists[k] + [v]]) == SumLengths(keys, lists) + 1
    decreases |keys|
  {
    var init := keys[..|keys| - 1];
    if keys[|keys| - 1] == k {
      assert k !in init;
      SumFrame(init, lists, k, lists[k] + [v]);
    } else {
      assert k in init;
      SumBump(init, lists, k, v);
    }
  }

  /** No pair is lost or duplicated: the list lengths add up to the number of pairs. */
  lemma {:induction false} GroupPairsTotal<V>(ps: seq<(string, V)>)
    ensures SumLengths(GroupPairs(ps).keys, GroupPairs(ps).lists) == |ps|
    decreases |ps|
  {
    if ps != [] {
      var init := ps[..|ps| - 1];
      var g := GroupPairs(init);
      var (k, v) := ps[|ps| - 1];
      GroupPairsTotal(init);
      GroupPairsValid(init);
      if k in g.lists {
        SumBump(g.keys, g.lists, k, v);
      } else {
        assert (g.keys + [k])[..|g.keys|] == g.keys;
        SumFrame(g.keys, g.lists, k, [v]);
      }
    }
  }

  /** In a well-formed dict, each entry names a key and reports the length of its list. */
  lemma CountsAgree<V>(g: Groups<V>, e: (string, nat))
    requires Valid(g) && e in Counts(g)
    ensures e.0 in g.lists && e.1 == |g.lists[e.0]|
  {
  }

  /** Every key of a well-formed dict has its entry. */
  lemma KeyHasCount<V>(g: Groups<V>, k: string)
    requires Valid(g) && k in g.lists
    ensures (k, |g.lists[k]|) in Counts(g)
  {
    var i :| 0 <= i < |g.keys| && g.keys[i] == k;
    assert Counts(g)[i] == (k, |g.lists[k]|);
  }

  /** One `(name, len(list))` entry per key, in key order: what the leaderboards sort. */
  function Counts<V>(g: Groups<V>): (r: seq<(string, nat)>)
    ensures |r| == |g.keys|
    ensures forall i :: 0 <= i < |r| ==> r[i].0 == g.keys[i]
  {
    seq(|g.keys|, i requires 0 <= i < |g.keys| =>
      (g.keys[i], if g.keys[i] in g.lists then |g.lists[g.keys[i]]| else 0))
  }
}
