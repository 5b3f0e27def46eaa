/**
 * Review activity of helpers/tools.py: the review comments written inside a look-back
 * window, grouped by author (`get_pull_reviewers_days_ago`, identical in tools/tools.py),
 * and the pull requests waiting on each requested reviewer (`get_reviwer_debt`).
 * The clock is the parameter `now`; the comments of each pull request, which the source
 * fetches from the host, are passed in as one list per pull request.
 */
module ReviewActivity {
  import opened Seqs
  import opened Records
  import opened Grouping

  const SecondsPerDay: int := 86400

  /** `datetime.utcnow() + timedelta(days=-days)`, in seconds. */
  function WindowStart(now: int, days: int): int {
    now - days * SecondsPerDay
  }

  /** A comment is kept unless it is older than the window start. */
  function Kept(start: int): Comment -> bool {
    (c: Comment) => c.createdAt >= start
  }

  function KeptFrom(start: int, author: string): Comment -> bool {
    (c: Comment) => c.createdAt >= start && c.author == author
  }

  /** `(author, comment)` for every comment not older than `start`, in order. */
  function AuthorPairs(start: int, cs: seq<Comment>): seq<(string, Comment)>
    decreases |cs|
  {
    if cs == [] then []
    else
      var c := cs[|cs| - 1];
      AuthorPairs(start, cs[..|cs| - 1]) + (if c.createdAt < start then [] else [(c.author, c)])
  }

  function Authors(cs: seq<Comment>): seq<string>
    decreases |cs|
  {
    if cs == [] then [] else Authors(cs[..|cs| - 1]) + [cs[|cs| - 1].author]
  }

  /** The `authors` dict that `get_pull_reviewers_days_ago` returns, as a specification. */
  function CommentsByAuthor(now: int, days: int, comments: seq<seq<Comment>>): Groups<Comment> {
    GroupPairs(AuthorPairs(WindowStart(now, days), Flatten(comments)))
  }

  lemma {:induction false} AuthorPairsValues(start: int, cs: seq<Comment>, a: string)
    ensures ValuesOf(AuthorPairs(start, cs), a) == Filter(KeptFrom(start, a), cs)
    decreases |cs|
  {
    if cs != [] {
      var init := cs[..|cs| - 1];
      var c := cs[|cs| - 1];
      AuthorPairsValues(start, init, a);
      ValuesOfAppend(AuthorPairs(start, init), if c.createdAt < start then [] else [(c.author, c)], a);
    }
  }

  lemma {:induction false} AuthorPairsNames(start: int, cs: seq<Comment>)
    ensures NamesOf(AuthorPairs(start, cs)) == Authors(Filter(Kept(start), cs))
    decreases |cs|
  {
    if cs != [] {
      var init := cs[..|cs| - 1];
      var c := cs[|cs| - 1];
      AuthorPairsNames(start, init);
      if c.createdAt < start {
        assert AuthorPairs(start, cs) == AuthorPairs(start, init);
        assert Filter(Kept(start), cs) == Filter(Kept(start), init);
      } else {
        var ps := AuthorPairs(start, cs);
        assert ps[..|ps| - 1] == AuthorPairs(start, init);
        var kept := Filter(Kept(start), cs);
        assert kept[..|kept| - 1] == Filter(Kept(start), init);
      }
    }
  }

  lemma {:induction false} AuthorPairsCount(start: int, cs: seq<Comment>)
    ensures |AuthorPairs(start, cs)| == |Filter(Kept(start), cs)|
    decreases |cs|
  {
    if cs != [] {
      AuthorPairsCount(start, cs[..|cs| - 1]);
    }
  }

  /**
   * Each author's list is exactly that author's comments not older than `now - days`,
   * in the order the pull requests and their comments were visited; an author is a key
   * iff at least one of their comments is that recent.
   */
  lemma CommentsByAuthorLists(now: int, days: int, comments: seq<seq<Comment>>, a: string)
    ensures var g := CommentsByAuthor(now, days, comments);
            var mine := Filter(KeptFrom(WindowStart(now, days), a), Flatten(comments));
            (a in g.lists <==> mine != []) && (a in g.lists ==> g.lists[a] == mine)
  {
    var ps := AuthorPairs(WindowStart(now, days), Flatten(comments));
    GroupPairsLists(ps, a);
    AuthorPairsValues(WindowStart(now, days), Flatten(comments), a);
  }

  /** Every comment in the dict is recent enough and sits under its own author. */
  lemma CommentsByAuthorInWindow(now: int, days: int, comments: seq<seq<Comment>>)
    ensures var g := CommentsByAuthor(now, days, comments);
            forall a | a in g.lists ::
              forall c | c in g.lists[a] :: c.createdAt >= now - days * SecondsPerDay && c.author == a
  {
    var g := CommentsByAuthor(now, days, comments);
    forall a | a in g.lists
      ensures forall c | c in g.lists[a] :: c.createdAt >= now - days * SecondsPerDay && c.author == a
    {
      CommentsByAuthorLists(now, days, comments, a);
    }
  }

  /**
   * Nothing recent is dropped or counted twice: the list lengths add up to the number of
   * comments not older than the window start, and the authors appear in first-comment order.
   */
  lemma CommentsByAuthorTotal(now: int, days: int, comments: seq<seq<Comment>>)
    ensures var g := CommentsByAuthor(now, days, comments);
            var kept := Filter(Kept(WindowStart(now, days)), Flatten(comments));
            SumLengths(g.keys, g.lists) == |kept| && g.keys == FirstSeen(Authors(kept))
  {
    var start := WindowStart(now, days);
    var ps := AuthorPairs(start, Flatten(comments));
    GroupPairsTotal(ps);
    AuthorPairsCount(start, Flatten(comments));
    GroupPairsKeys(ps);
    AuthorPairsNames(start, Flatten(comments));
  }

  /** Visiting one more comment files it under its author, unless it is older than `start`. */
  lemma FileComment(start: int, seen: seq<Comment>, c: Comment)
    ensures GroupPairs(AuthorPairs(start, seen + [c]))
         == if c.createdAt < start then GroupPairs(AuthorPairs(start, seen))
            else Add(GroupPairs(AuthorPairs(start, seen)), c.author, c)
  {
    var pairs := AuthorPairs(start, seen);
    assert (seen + [c])[..|seen|] == seen;
    if c.createdAt < start {
      assert AuthorPairs(start, seen + [c]) == pairs + [] == pairs;
    } else {
      assert AuthorPairs(start, seen + [c]) == pairs + [(c.author, c)];
      assert (pairs + [(c.author, c)])[..|pairs|] == pairs;
    }
  }

  /** `get_pull_reviewers_days_ago`: visit every comment of every pull request and file the recent ones. */
  method PullReviewersDaysAgo(now: int, days: int, comments: seq<seq<Comment>>) returns (authors: Groups<Comment>)
    ensures authors == CommentsByAuthor(now, days, comments)
  {
    authors := Groups([], map[]);
    var startTime := now - days * SecondsPerDay;
    assert comments[..0] == [];
    for i := 0 to |comments|
      invariant authors == GroupPairs(AuthorPairs(startTime, Flatten(comments[..i])))
    {
      var pullComments := comments[i];
      ghost var before := Flatten(comments[..i]);
      assert before + pullComments[..0] == before;
      for j := 0 to |pullComments|
        invariant authors == GroupPairs(AuthorPairs(startTime, before + pullComments[..j]))
      {
        var comment := pullComments[j];
        ghost var seen := before + pullComments[..j];
        assert before + pullComments[..j + 1] == seen + [comment] by {
          PrefixSnoc(before, pullComments, j);
        }
        assert GroupPairs(AuthorPairs(startTime, seen + [comment]))
            == if comment.createdAt < startTime then authors else Add(authors, comment.author, comment) by {
          FileComment(startTime, seen, comment);
        }
        if comment.createdAt < startTime {
          continue;
        }
        var author := comment.author;
        CreateThenAppendIsAdd(authors, author, comment);
        if author !in authors.lists {
          authors := Put(authors, author, []);
        }
        authors := Put(authors, author, authors.lists[author] + [comment]);
      }
      assert pullComments[..|pullComments|] == pullComments;
      assert Flatten(comments[..i + 1]) == before + pullComments by {
        FlattenSnoc(comments, i);
      }
    }
    assert comments[..|comments|] == comments;
  }

  // ------------------------------------------------------------- reviewer debt

  /** `(reviewer, number)` for every entry of `reviewers`, in order. */
  function PairsWith(reviewers: seq<string>, number: int): seq<(string, int)>
    decreases |reviewers|
  {
    if reviewers == [] then []
    else PairsWith(reviewers[..|reviewers| - 1], number) + [(reviewers[|reviewers| - 1], number)]
  }

  /** One `(reviewer, pull number)` pair per requested-reviewer entry, pull requests in order. */
  function DebtPairs(pulls: seq<Pull>): seq<(string, int)>
    decreases |pulls|
  {
    if pulls == [] then []
    else
      var p := pulls[|pulls| - 1];
      DebtPairs(pulls[..|pulls| - 1]) + PairsWith(p.reviewers, p.number)
  }

  /** The `reviewers` dict that `get_reviwer_debt` returns, as a specification. */
  function ReviewerDebt(pulls: seq<Pull>): Groups<int> {
    GroupPairs(DebtPairs(pulls))
  }

  function HasReviewers(): Pull -> bool {
    (p: Pull) => p.reviewers != []
  }

  function Requests(reviewer: string): Pull -> bool {
    (p: Pull) => reviewer in p.reviewers
  }

  /** The numbers of the pull requests, in order. */
  function Numbers(pulls: seq<Pull>): seq<int>
    decreases |pulls|
  {
    if pulls == [] then [] else Numbers(pulls[..|pulls| - 1]) + [pulls[|pulls| - 1].number]
  }

  /** Pull requests without requested reviewers contribute nothing to the debt. */
  lemma {:induction false} DebtIgnoresUnrequestedPulls(pulls: seq<Pull>)
    ensures DebtPairs(Filter(HasReviewers(), pulls)) == DebtPairs(pulls)
    decreases |pulls|
  {
    if pulls != [] {
      var init := pulls[..|pulls| - 1];
      var p := pulls[|pulls| - 1];
      DebtIgnoresUnrequestedPulls(init);
      var kept := Filter(HasReviewers(), pulls);
      if p.reviewers != [] {
        assert kept[..|kept| - 1] == Filter(HasReviewers(), init);
      } else {
        assert kept == Filter(HasReviewers(), init);
        assert DebtPairs(pulls) == DebtPairs(init);
      }
    }
  }

  /** `n`, `k` times. */
  function Repeat(n: int, k: nat): (r: seq<int>)
    ensures |r| == k && forall i :: 0 <= i < k ==> r[i] == n
  {
    seq(k, _ => n)
  }

  /** What one pull request adds to `reviewer`'s debt: its number once per time it lists them. */
  function OwedBy(reviewer: string): Pull -> seq<int> {
    (p: Pull) => Repeat(p.number, multiset(p.reviewers)[reviewer])
  }

  /** How many times `reviewer` is listed as requested, over all the pull requests. */
  function TimesRequested(reviewer: string, pulls: seq<Pull>): nat
    decreases |pulls|
  {
    if pulls == [] then 0
    else TimesRequested(reviewer, pulls[..|pulls| - 1]) + multiset(pulls[|pulls| - 1].reviewers)[reviewer]
  }

  /** One pull request files its number under `r` once for every entry `r` of its reviewers. */
  lemma {:induction false} PairsWithCopies(reviewers: seq<string>, number: int, r: string)
    ensures ValuesOf(PairsWith(reviewers, number), r) == Repeat(number, multiset(reviewers)[r])
    decreases |reviewers|
  {
    if reviewers != [] {
      var init, x := reviewers[..|reviewers| - 1], reviewers[|reviewers| - 1];
      PairsWithCopies(init, number, r);
      PairsWithSnoc(reviewers, number, r);
      CountSnoc(reviewers, r);
      if x == r {
        RepeatSnoc(number, multiset(init)[r]);
      } else {
        assert Repeat(number, multiset(init)[r]) + [] == Repeat(number, multiset(init)[r]);
      }
    }
  }

  lemma PairsWithSnoc(reviewers: seq<string>, number: int, r: string)
    requires reviewers != []
    ensures ValuesOf(PairsWith(reviewers, number), r)
         == ValuesOf(PairsWith(reviewers[..|reviewers| - 1], number), r)
            + (if reviewers[|reviewers| - 1] == r then [number] else [])
  {
    var ps := PairsWith(reviewers, number);
    assert ps[..|ps| - 1] == PairsWith(reviewers[..|reviewers| - 1], number);
    assert ps[|ps| - 1] == (reviewers[|reviewers| - 1], number);
  }

  lemma CountSnoc(s: seq<string>, r: string)
    requires s != []
    ensures multiset(s)[r] == multiset(s[..|s| - 1])[r] + (if s[|s| - 1] == r then 1 else 0)
  {
    assert s == s[..|s| - 1] + [s[|s| - 1]];
    assert multiset(s) == multiset(s[..|s| - 1]) + multiset{s[|s| - 1]};
  }

  lemma RepeatSnoc(n: int, k: nat)
    ensures Repeat(n, k) + [n] == Repeat(n, k + 1)
  {
  }

  /** In a duplicate-free list every name is listed at most once. */
  lemma {:induction false} NoDuplicatesCount(s: seq<string>, r: string)
    requires NoDuplicates(s)
    ensures multiset(s)[r] == if r in s then 1 else 0
    decreases |s|
  {
    if s != [] {
      var init, x := s[..|s| - 1], s[|s| - 1];
      assert NoDuplicates(init) by {
        forall i, j | 0 <= i < j < |init| ensures init[i] != init[j] {
          assert init[i] == s[i] && init[j] == s[j];
        }
      }
      NoDuplicatesCount(init, r);
      assert s == init + [x];
      assert multiset(s) == multiset(init) + multiset{x};
      InSnoc(s, r);
    }
  }

  lemma PairsWithValues(reviewers: seq<string>, number: int, r: string)
    requires NoDuplicates(reviewers)
    ensures ValuesOf(PairsWith(reviewers, number), r) == if r in reviewers then [number] else []
  {
    PairsWithCopies(reviewers, number, r);
    NoDuplicatesCount(reviewers, r);
    if r in reviewers {
      assert Repeat(number, 1) == [number];
    }
  }

  /**
   * A reviewer's debt, in general: each pull request's number once per time it lists the
   * reviewer, pull requests in order.
   */
  lemma {:induction false} DebtOfReviewerOwed(pulls: seq<Pull>, r: string)
    ensures ValuesOf(DebtPairs(pulls), r) == FlatMap(OwedBy(r), pulls)
    ensures |FlatMap(OwedBy(r), pulls)| == TimesRequested(r, pulls)
    decreases |pulls|
  {
    if pulls != [] {
      var init := pulls[..|pulls| - 1];
      var p := pulls[|pulls| - 1];
      DebtOfReviewerOwed(init, r);
      ValuesOfAppend(DebtPairs(init), PairsWith(p.reviewers, p.number), r);
      PairsWithCopies(p.reviewers, p.number, r);
      assert FlatMap(OwedBy(r), pulls) == FlatMap(OwedBy(r), init) + OwedBy(r)(p);
    }
  }

  /** Someone is requested at all iff some pull request lists them. */
  lemma {:induction false} TimesRequestedPositive(r: string, pulls: seq<Pull>)
    ensures TimesRequested(r, pulls) > 0 <==> exists p :: p in pulls && r in p.reviewers
    decreases |pulls|
  {
    if pulls != [] {
      var init, p := pulls[..|pulls| - 1], pulls[|pulls| - 1];
      TimesRequestedPositive(r, init);
      assert multiset(p.reviewers)[r] > 0 <==> r in p.reviewers;
      if exists q :: q in pulls && r in q.reviewers {
        var q :| q in pulls && r in q.reviewers;
        InSnoc(pulls, q);
      }
      if exists q :: q in init && r in q.reviewers {
        var q :| q in init && r in q.reviewers;
        InSnoc(pulls, q);
      }
      assert p in pulls;
    }
  }

  /**
   * The debt table, in general: a reviewer is a key iff some pull request lists them, their
   * list is each requesting pull request's number once per listing, and its length is the
   * number of times they are listed.
   */
  lemma ReviewerDebtOwed(pulls: seq<Pull>, r: string)
    ensures var g := ReviewerDebt(pulls);
            (r in g.lists <==> exists p :: p in pulls && r in p.reviewers)
            && (r in g.lists ==> g.lists[r] == FlatMap(OwedBy(r), pulls) && |g.lists[r]| == TimesRequested(r, pulls))
  {
    GroupPairsLists(DebtPairs(pulls), r);
    DebtOfReviewerOwed(pulls, r);
    TimesRequestedPositive(r, pulls);
  }

  /** With duplicate-free reviewer lists, the times requested are the requesting pull requests. */
  lemma {:induction false} TimesRequestedDistinct(r: string, pulls: seq<Pull>)
    requires forall p :: p in pulls ==> NoDuplicates(p.reviewers)
    ensures TimesRequested(r, pulls) == |Filter(Requests(r), pulls)|
    decreases |pulls|
  {
    if pulls != [] {
      var init, p := pulls[..|pulls| - 1], pulls[|pulls| - 1];
      assert p in pulls;
      forall q | q in init ensures NoDuplicates(q.reviewers) {
        InSnoc(pulls, q);
      }
      TimesRequestedDistinct(r, init);
      NoDuplicatesCount(p.reviewers, r);
      assert pulls == init + [p];
      FilterAppend(Requests(r), init, [p]);
      FilterSingleton(Requests(r), p);
    }
  }

  /**
   * When no pull request lists a reviewer twice, a reviewer's debt is the numbers of the
   * pull requests that request them, in pull-request order.
   */
  lemma {:induction false} DebtOfReviewer(pulls: seq<Pull>, r: string)
    requires forall p :: p in pulls ==> NoDuplicates(p.reviewers)
    ensures ValuesOf(DebtPairs(pulls), r) == Numbers(Filter(Requests(r), pulls))
    decreases |pulls|
  {
    if pulls != [] {
      var init := pulls[..|pulls| - 1];
      var p := pulls[|pulls| - 1];
      assert p in pulls;
      DebtOfReviewer(init, r);
      ValuesOfAppend(DebtPairs(init), PairsWith(p.reviewers, p.number), r);
      PairsWithValues(p.reviewers, p.number, r);
      var kept := Filter(Requests(r), pulls);
      if r in p.reviewers {
        assert kept[..|kept| - 1] == Filter(Requests(r), init);
        assert kept[|kept| - 1] == p;
      } else {
        assert kept == Filter(Requests(r), init);
        assert ValuesOf(DebtPairs(pulls), r) == ValuesOf(DebtPairs(init), r);
      }
    }
  }

  /**
   * The debt table: with duplicate-free reviewer lists, a reviewer is a key iff some pull
   * request requests them, and then their count is the number of such pull requests.
   */
  lemma ReviewerDebtCount(pulls: seq<Pull>, r: string)
    requires forall p :: p in pulls ==> NoDuplicates(p.reviewers)
    ensures var g := ReviewerDebt(pulls);
            (r in g.lists <==> exists p :: p in pulls && r in p.reviewers)
            && (r in g.lists ==> |g.lists[r]| == |Filter(Requests(r), pulls)|)
  {
    ReviewerDebtOwed(pulls, r);
    TimesRequestedDistinct(r, pulls);
  }

  lemma {:induction false} NumbersLength(pulls: seq<Pull>)
    ensures |Numbers(pulls)| == |pulls|
    decreases |pulls|
  {
    if pulls != [] {
      NumbersLength(pulls[..|pulls| - 1]);
    }
  }

  /** A reviewer listed twice on one pull request owes it twice. */
  lemma DuplicateRequestCountsTwice(p: Pull)
    requires p.number == 7 && p.reviewers == ["ann", "ann"]
    ensures ReviewerDebt([p]).lists["ann"] == [7, 7]
  {
    var one: (string, int) := ("ann", 7);
    assert [p][..0] == [];
    assert DebtPairs([p]) == PairsWith(p.reviewers, 7);
    assert p.reviewers[..1] == ["ann"];
    assert PairsWith(p.reviewers, 7) == PairsWith(["ann"], 7) + [one];
    assert ["ann"][..0] == [];
    assert PairsWith(["ann"], 7) == [one];
    ValuesOfAppend([one], [one], "ann");
    assert [one][..0] == [];
    assert ValuesOf([one], "ann") == [7];
    GroupPairsLists(DebtPairs([p]), "ann");
  }

  /** `get_reviwer_debt`: visit every requested reviewer of every pull request and file the pull's number. */
  method GetReviewerDebt(pulls: seq<Pull>) returns (reviewers: Groups<int>)
    ensures reviewers == ReviewerDebt(pulls)
  {
    reviewers := Groups([], map[]);
    for i := 0 to |pulls|
      invariant reviewers == GroupPairs(DebtPairs(pulls[..i]))
    {
      var pull := pulls[i];
      var pullId := pull.number;
      var requested := pull.reviewers;
      ghost var before := DebtPairs(pulls[..i]);
      assert before + PairsWith(requested[..0], pullId) == before;
      for j := 0 to |requested|
        invariant reviewers == GroupPairs(before + PairsWith(requested[..j], pullId))
      {
        var reviewer := requested[j];
        GroupPairsValid(before + PairsWith(requested[..j], pullId));
        assert requested[..j + 1][..j] == requested[..j];
        assert before + PairsWith(requested[..j + 1], pullId)
            == (before + PairsWith(requested[..j], pullId)) + [(reviewer, pullId)];
        if reviewer in reviewers.lists && reviewers.lists[reviewer] != [] {
          reviewers := Put(reviewers, reviewer, reviewers.lists[reviewer] + [pullId]);
        } else {
          reviewers := Put(reviewers, reviewer, [pullId]);
        }
      }
      assert requested[..|requested|] == requested;
      assert pulls[..i + 1][..i] == pulls[..i];
    }
    assert pulls[..|pulls|] == pulls;
  }
}
