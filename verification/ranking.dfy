/**
 * `sorted(d, key=lambda k: len(d[k]), reverse=True)` on the leaderboard dictionaries of
 * helpers/tools.py. Python's sort is stable, and `reverse=True` keeps equal keys in their
 * original order, so entries come by non-increasing count with ties in key order.
 */
module Ranking {
  import opened Seqs

  /** A leaderboard entry: a name and the length of its list. */
  type Entry = (string, nat)

  /** Insert `e` before the first entry whose count is not larger than its own. */
  function InsertByCount(e: Entry, s: seq<Entry>): seq<Entry>
    decreases |s|
  {
    if s == [] || s[0].1 <= e.1 then [e] + s else [s[0]] + InsertByCount(e, s[1..])
  }

  /** The stable sort by count, largest first. */
  function SortByCountDesc(es: seq<Entry>): seq<Entry>
    decreases |es|
  {
    if es == [] then [] else InsertByCount(es[0], SortByCountDesc(es[1..]))
  }

  ghost predicate NonIncreasing(s: seq<Entry>) {
    forall i, j :: 0 <= i < j < |s| ==> s[i].1 >= s[j].1
  }

  /** The entries with count `n`, in their order in `s`. */
  function WithCount(n: nat, s: seq<Entry>): (r: seq<Entry>)
    ensures forall e :: e in r <==> e in s && e.1 == n
    decreases |s|
  {
    if s == [] then [] else (if s[0].1 == n then [s[0]] else []) + WithCount(n, s[1..])
  }

  /** Insertion adds `e` and loses nothing. */
  lemma {:induction false} InsertByCountPerm(e: Entry, s: seq<Entry>)
    ensures multiset(InsertByCount(e, s)) == multiset(s) + multiset{e}
    decreases |s|
  {
    if s != [] && s[0].1 > e.1 {
      var rest := InsertByCount(e, s[1..]);
      InsertByCountPerm(e, s[1..]);
      assert s == [s[0]] + s[1..];
      assert InsertByCount(e, s) == [s[0]] + rest;
      assert multiset([s[0]] + rest) == multiset{s[0]} + multiset(rest);
    }
  }

  /** Insertion into a list ranked by non-increasing count keeps it ranked. */
  lemma {:induction false} InsertByCountSorted(e: Entry, s: seq<Entry>)
    requires NonIncreasing(s)
    ensures NonIncreasing(InsertByCount(e, s))
    decreases |s|
  {
    var r := InsertByCount(e, s);
    if s == [] || s[0].1 <= e.1 {
      assert r == [e] + s;
      forall i, j | 0 <= i < j < |r| ensures r[i].1 >= r[j].1 {
        if i == 0 {
          assert r[j] == s[j - 1];
        } else {
          assert r[i] == s[i - 1] && r[j] == s[j - 1];
        }
      }
    } else {
      var tail := s[1..];
      var rest := InsertByCount(e, tail);
      assert NonIncreasing(tail) by {
        forall i, j | 0 <= i < j < |tail| ensures tail[i].1 >= tail[j].1 {
          assert tail[i] == s[i + 1] && tail[j] == s[j + 1];
        }
      }
      InsertByCountSorted(e, tail);
      assert r == [s[0]] + rest;
      // the head of `rest` is `e` or the head of `tail`, both ranked below s[0]
      assert rest[0] == e || rest[0] == tail[0];
      assert rest[0].1 <= s[0].1;
      forall i, j | 0 <= i < j < |r| ensures r[i].1 >= r[j].1 {
        if i == 0 {
          assert r[j] == rest[j - 1];
          assert rest[0].1 >= rest[j - 1].1;
        } else {
          assert r[i] == rest[i - 1] && r[j] == rest[j - 1];
        }
      }
    }
  }

  lemma {:induction false} InsertByCountStable(e: Entry, s: seq<Entry>, n: nat)
    ensures WithCount(n, InsertByCount(e, s)) == (if e.1 == n then [e] else []) + WithCount(n, s)
    decreases |s|
  {
    if s == [] || s[0].1 <= e.1 {
      assert InsertByCount(e, s) == [e] + s;
      assert ([e] + s)[1..] == s;
    } else {
      var tail := s[1..];
      var rest := InsertByCount(e, tail);
      InsertByCountStable(e, tail, n);
      var wt := WithCount(n, tail);
      assert InsertByCount(e, s) == [s[0]] + rest;
      assert ([s[0]] + rest)[1..] == rest;
      assert WithCount(n, s) == (if s[0].1 == n then [s[0]] else []) + wt;
      if s[0].1 == n {
        // the entry being inserted ranks below s[0], so it has another count
        assert e.1 != n;
        assert WithCount(n, rest) == wt;
      } else if e.1 == n {
        assert WithCount(n, rest) == [e] + wt;
        assert WithCount(n, s) == wt;
      } else {
        assert WithCount(n, rest) == wt;
        assert WithCount(n, s) == wt;
      }
    }
  }

  /** The leaderboard order: counts never increase, and the entries are those given, each once. */
  lemma {:induction false} SortByCountDescSorted(es: seq<Entry>)
    ensures NonIncreasing(SortByCountDesc(es))
    ensures multiset(SortByCountDesc(es)) == multiset(es)
    decreases |es|
  {
    if es != [] {
      SortByCountDescSorted(es[1..]);
      InsertByCountSorted(es[0], SortByCountDesc(es[1..]));
      InsertByCountPerm(es[0], SortByCountDesc(es[1..]));
      assert es == [es[0]] + es[1..];
    }
  }

  /** Stability: the entries sharing any one count keep their original relative order. */
  lemma {:induction false} SortByCountDescStable(es: seq<Entry>, n: nat)
    ensures WithCount(n, SortByCountDesc(es)) == WithCount(n, es)
    decreases |es|
  {
    if es != [] {
      SortByCountDescStable(es[1..], n);
      InsertByCountStable(es[0], SortByCountDesc(es[1..]), n);
      assert es == [es[0]] + es[1..];
    }
  }

  /** The first entry of the leaderboard has the largest count. */
  lemma TopIsMaximal(es: seq<Entry>, e: Entry)
    requires e in es
    ensures SortByCountDesc(es) != [] && SortByCountDesc(es)[0].1 >= e.1
  {
    SortByCountDescSorted(es);
    var r := SortByCountDesc(es);
    assert e in multiset(r);
    var j :| 0 <= j < |r| && r[j] == e;
  }
}
