/**
 * The three Slack sections of helpers/tools.py: the open pull requests with their age and
 * the reviewers they wait on, the review-comment leaderboard of the look-back window and
 * the reviewer-debt leaderboard. The clock is the parameter `now` (seconds); the emoji
 * that `get_random_emoji()` picks for the debt line at position `i` is `emojiAt(i)`.
 */
module Digest {
  import opened Text
  import opened Seqs
  import opened Records
  import opened Grouping
  import opened Ranking
  import opened ReviewActivity

  /** The line that closes the two leaderboard sections. */
  const SectionTail: string := "\n============\n"

  // ------------------------------------------------------------ open pulls

  /** The framed title of the open pull-request section, with the number of pull requests. */
  function OpenPullsBanner(count: nat): string {
    "======================\n    Open PRs _*" + NatToString(count) + "*_\n======================\n\n"
  }

  /** The header of helpers/tools.py: a space and two line breaks before the banner. */
  function OpenPullsHead(count: nat): string {
    " \n\n" + OpenPullsBanner(count)
  }

  /** `(utcnow() - created_at).days`: the whole days elapsed, rounded down. */
  function AgeInDays(now: int, createdAt: int): (d: int)
    ensures d * SecondsPerDay <= now - createdAt < d * SecondsPerDay + SecondsPerDay
    ensures now >= createdAt ==> d >= 0
  {
    (now - createdAt) / SecondsPerDay
  }

  function Mentions(reviewers: seq<string>): seq<string> {
    seq(|reviewers|, i requires 0 <= i < |reviewers| => "@" + reviewers[i])
  }

  /** The `waiting on` note: the requested reviewers as `@login`s, or nothing when there are none. */
  function WaitingOn(reviewers: seq<string>): (w: string)
    ensures w == "" <==> reviewers == []
    ensures reviewers != [] ==> IsPrefix(" | waiting on @" + reviewers[0], w)
  {
    var mentioned := Join(", ", Mentions(reviewers));
    if reviewers != [] then
      JoinStartsWithFirst(", ", Mentions(reviewers));
      assert IsPrefix(" | waiting on " + ("@" + reviewers[0]), " | waiting on " + mentioned + ", ");
      " | waiting on " + mentioned + ", "
    else ""
  }

  /** The template `'#{3} `{4} days` <{0}|{1}> {5} - by {2}'` filled in. */
  function LineTemplate(url: string, title: string, creator: string, number: int, age: int, waitingOn: string): string {
    "#" + IntToString(number) + " `" + IntToString(age) + " days` <" + url + "|" + title + "> " + waitingOn + " - by " + creator
  }

  /** One pull request: number, age, link, waiting-on note and author. */
  function PullLine(now: int, p: Pull): string {
    LineTemplate(p.url, p.title, p.login, p.number, AgeInDays(now, p.createdAt), WaitingOn(p.reviewers))
  }

  function PullLineAt(now: int): Pull -> string {
    (p: Pull) => PullLine(now, p)
  }

  /** One line per pull request, in order. */
  function PullLines(now: int, pulls: seq<Pull>): seq<string> {
    Map(PullLineAt(now), pulls)
  }

  /** `get_open_pulls_section`: the header with the count, then one line per pull request. */
  method OpenPullsSection(now: int, pulls: seq<Pull>) returns (section: string)
    ensures section == OpenPullsHead(|pulls|) + Join("\n", PullLines(now, pulls))
  {
    var sectionHead := OpenPullsHead(|pulls|);
    var lines: seq<string> := [];
    for i := 0 to |pulls|
      invariant lines == PullLines(now, pulls[..i])
    {
      var pull := pulls[i];
      var pullAge := (now - pull.createdAt) / SecondsPerDay;
      var waitingOn := "";
      if pull.reviewers != [] {
        var requestedReviewers := Join(", ", Mentions(pull.reviewers));
        waitingOn := " | waiting on " + requestedReviewers + ", ";
      }
      assert pullAge == AgeInDays(now, pull.createdAt);
      assert waitingOn == WaitingOn(pull.reviewers);
      var line := LineTemplate(pull.url, pull.title, pull.login, pull.number, pullAge, waitingOn);
      assert line == PullLine(now, pull);
      MapSnoc(PullLineAt(now), pulls, i);
      lines := lines + [line];
    }
    assert pulls[..|pulls|] == pulls;
    section := sectionHead + Join("\n", lines);
  }

  /** No line break in any text of the pull request that its line shows. */
  ghost predicate OneLineFields(p: Pull) {
    '\n' !in p.url && '\n' !in p.title && '\n' !in p.login
    && forall r :: r in p.reviewers ==> '\n' !in r
  }

  lemma IntToStringOneLine(i: int)
    ensures '\n' !in IntToString(i)
  {
    if i < 0 {
      NatToStringDigits(-i);
    } else {
      NatToStringDigits(i);
    }
  }

  lemma PullLineOneLine(now: int, p: Pull)
    requires OneLineFields(p)
    ensures '\n' !in PullLine(now, p)
  {
    IntToStringOneLine(p.number);
    IntToStringOneLine(AgeInDays(now, p.createdAt));
    var ms := Mentions(p.reviewers);
    forall i | 0 <= i < |ms| ensures '\n' !in ms[i] {
      assert p.reviewers[i] in p.reviewers;
    }
    JoinAvoids(", ", ms, '\n');
  }

  /**
   * The body of the open-PR section splits back into exactly one line per pull request,
   * in order, as long as the texts it shows hold no line break.
   */
  lemma OpenPullsOneLineEach(now: int, pulls: seq<Pull>)
    requires pulls != []
    requires forall p :: p in pulls ==> OneLineFields(p)
    ensures Split(Join("\n", PullLines(now, pulls)), '\n') == PullLines(now, pulls)
    ensures |Split(Join("\n", PullLines(now, pulls)), '\n')| == |pulls|
  {
    var lines := PullLines(now, pulls);
    forall i | 0 <= i < |lines| ensures '\n' !in lines[i] {
      assert pulls[i] in pulls;
      PullLineOneLine(now, pulls[i]);
    }
    SplitJoin(lines, '\n');
  }

  lemma WaitingOnTwoReviewers()
    ensures WaitingOn(["alice", "bob"]) == " | waiting on @alice, @bob, "
  {
    var ms := Mentions(["alice", "bob"]);
    assert |ms| == 2 && ms[0] == "@alice" && ms[1] == "@bob";
    assert ms == ["@alice", "@bob"];
    assert ms[1..] == ["@bob"];
    assert Join(", ", ms) == "@alice, @bob";
  }

  // ----------------------------------------------------------- leaderboards

  /**
   * The order `sorted(d, key=lambda k: len(d[k]), reverse=True)` gives the keys of a
   * well-formed dict: each key once with the length of its list, largest first, keys with
   * equal lengths in insertion order, and the first key's list at least as long as any.
   */
  lemma Leaderboard<V>(g: Groups<V>)
    requires Valid(g)
    ensures var board := SortByCountDesc(Counts(g));
      && NonIncreasing(board)
      && |board| == |g.keys|
      && (forall i :: 0 <= i < |board| ==> board[i].0 in g.lists && board[i].1 == |g.lists[board[i].0]|)
      && (forall k :: k in g.lists ==> (k, |g.lists[k]|) in board)
      && (forall n: nat :: WithCount(n, board) == WithCount(n, Counts(g)))
      && (forall k :: k in g.lists ==> board[0].1 >= |g.lists[k]|)
  {
    var counts := Counts(g);
    var board := SortByCountDesc(counts);
    SortByCountDescSorted(counts);
    assert |board| == |multiset(board)| == |multiset(counts)| == |counts|;
    forall i | 0 <= i < |board|
      ensures board[i].0 in g.lists && board[i].1 == |g.lists[board[i].0]|
    {
      assert board[i] in multiset(counts);
      CountsAgree(g, board[i]);
    }
    forall k | k in g.lists ensures (k, |g.lists[k]|) in board && board[0].1 >= |g.lists[k]| {
      KeyHasCount(g, k);
      assert (k, |g.lists[k]|) in multiset(board);
      TopIsMaximal(counts, (k, |g.lists[k]|));
    }
    forall n: nat ensures WithCount(n, board) == WithCount(n, counts) {
      SortByCountDescStable(counts, n);
    }
  }

  // ------------------------------------------------------ CR contributions

  function ContributionHead(days: int): string {
    "\n ======================\n    CR Contributions _*" + IntToString(days) + "*_ days\n======================\n\n"
  }

  /** The first author gets the trophy line, every other one the ninja line. */
  function ContributionLine(index: nat, e: Entry): string {
    if index == 0 then ":trophy:: :fire:*" + e.0 + "*:fire: added _" + NatToString(e.1) + "_ review comments\n"
    else ":ninja:: *" + e.0 + "* added _" + NatToString(e.1) + "_ review comments"
  }

  /**
   * Only the leader's line carries a line break, as its last character, which leaves a blank
   * line after it in the posted section; every other line is a single line.
   */
  lemma ContributionLineBreak(index: nat, e: Entry)
    requires '\n' !in e.0
    ensures var line := ContributionLine(index, e);
            && ('\n' in line <==> index == 0)
            && (index == 0 ==> line[|line| - 1] == '\n' && '\n' !in line[..|line| - 1])
  {
    NatToStringDigits(e.1);
    var line := ContributionLine(index, e);
    if index == 0 {
      var body := ":trophy:: :fire:*" + e.0 + "*:fire: added _" + NatToString(e.1) + "_ review comments";
      assert line == body + "\n";
      assert line[..|line| - 1] == body;
    }
  }

  function ContributionLines(board: seq<Entry>): seq<string> {
    seq(|board|, i requires 0 <= i < |board| => ContributionLine(i, board[i]))
  }

  lemma ContributionLinesSnoc(board: seq<Entry>, i: nat)
    requires i < |board|
    ensures ContributionLines(board[..i + 1]) == ContributionLines(board[..i]) + [ContributionLine(i, board[i])]
  {
  }

  /** The authors of the window, ranked by the number of comments they wrote in it. */
  function ContributionBoard(now: int, days: int, comments: seq<seq<Comment>>): seq<Entry> {
    SortByCountDesc(Counts(CommentsByAuthor(now, days, comments)))
  }

  /** `get_review_contribution_section`: header, one line per ranked author, closing line. */
  method ReviewContributionSection(now: int, days: int, comments: seq<seq<Comment>>) returns (section: string)
    ensures section == ContributionHead(days) + Join("\n", ContributionLines(ContributionBoard(now, days, comments))) + SectionTail
  {
    var sectionHead := ContributionHead(days);
    var authors := PullReviewersDaysAgo(now, days, comments);
    var sortedAuthors := SortByCountDesc(Counts(authors));
    var lines: seq<string> := [];
    for index := 0 to |sortedAuthors|
      invariant lines == ContributionLines(sortedAuthors[..index])
    {
      var (author, count) := sortedAuthors[index];
      var line;
      if index == 0 {
        line := ":trophy:: :fire:*" + author + "*:fire: added _" + NatToString(count) + "_ review comments\n";
      } else {
        line := ":ninja:: *" + author + "* added _" + NatToString(count) + "_ review comments";
      }
      assert line == ContributionLine(index, sortedAuthors[index]);
      ContributionLinesSnoc(sortedAuthors, index);
      lines := lines + [line];
    }
    assert sortedAuthors[..|sortedAuthors|] == sortedAuthors;
    section := sectionHead + Join("\n", lines) + SectionTail;
  }

  /**
   * Each ranked author appears once, with the number of their comments inside the window,
   * and the board runs from the most active author down.
   */
  lemma ContributionBoardCounts(now: int, days: int, comments: seq<seq<Comment>>)
    ensures var board := ContributionBoard(now, days, comments);
      && NonIncreasing(board)
      && forall i :: 0 <= i < |board| ==>
           board[i].1 == |Filter(KeptFrom(WindowStart(now, days), board[i].0), Flatten(comments))| > 0
  {
    var g := CommentsByAuthor(now, days, comments);
    var board := ContributionBoard(now, days, comments);
    assert Valid(g) by { GroupPairsValid(AuthorPairs(WindowStart(now, days), Flatten(comments))); }
    assert NonIncreasing(board) by { Leaderboard(g); }
    forall i | 0 <= i < |board|
      ensures board[i].1 == |Filter(KeptFrom(WindowStart(now, days), board[i].0), Flatten(comments))| > 0
    {
      assert board[i].0 in g.lists && board[i].1 == |g.lists[board[i].0]| by { Leaderboard(g); }
      CommentsByAuthorLists(now, days, comments, board[i].0);
    }
  }

  /** Only the top line of the contribution board carries the trophy. */
  lemma TrophyOnlyFirst(index: nat, e: Entry)
    ensures IsPrefix(":trophy:", ContributionLine(index, e)) <==> index == 0
  {
    var line := ContributionLine(index, e);
    if index == 0 {
      assert line[..8] == ":trophy:";
    } else {
      assert line[1] == 'n';
      assert ":trophy:"[1] == 't';
    }
  }

  // ---------------------------------------------------------------- CR debt

  const DebtHead: string := "\n ======================\n    CR debt\n======================\n\n"

  /** The first reviewer gets the bell line, every other one a line led by a random emoji. */
  function DebtLine(index: nat, e: Entry, emoji: string): string {
    if index == 0 then ":bell:: :scream:*" + e.0 + "*:scream: has _" + NatToString(e.1) + "_ pending PRs to approve\n"
    else emoji + ": *" + e.0 + "* has _" + NatToString(e.1) + "_ pending PRs to approve"
  }

  const BellPrefix: string := ":bell:: :scream:*"

  /** The bell text has no `": *"` anywhere, not even cut short by its end. */
  lemma BellPrefixHasNoColonSpaceStar(j: nat)
    requires j < |BellPrefix|
    ensures !(BellPrefix[j] == ':' && (j + 1 < |BellPrefix| ==> BellPrefix[j + 1] == ' ')
              && (j + 2 < |BellPrefix| ==> BellPrefix[j + 2] == '*'))
  {
  }

  /** Only the top line of the debt board carries the bell, whatever emoji the later lines draw. */
  lemma BellOnlyFirst(index: nat, e: Entry, emoji: string)
    requires !IsPrefix(BellPrefix, emoji)
    ensures IsPrefix(BellPrefix, DebtLine(index, e, emoji)) <==> index == 0
  {
    var line := DebtLine(index, e, emoji);
    if index == 0 {
      assert line[..17] == BellPrefix;
    } else {
      var j := |emoji|;
      if j >= 17 {
        assert line[..17] == emoji[..17];
      } else {
        assert line[j] == ':' && line[j + 1] == ' ' && line[j + 2] == '*';
        BellPrefixHasNoColonSpaceStar(j);
      }
    }
  }

  /**
   * Only the first debtor's line carries a line break, as its last character; the others are
   * single lines as long as their emoji is.
   */
  lemma DebtLineBreak(index: nat, e: Entry, emoji: string)
    requires '\n' !in e.0 && '\n' !in emoji
    ensures var line := DebtLine(index, e, emoji);
            && ('\n' in line <==> index == 0)
            && (index == 0 ==> line[|line| - 1] == '\n' && '\n' !in line[..|line| - 1])
  {
    NatToStringDigits(e.1);
    var line := DebtLine(index, e, emoji);
    if index == 0 {
      var body := ":bell:: :scream:*" + e.0 + "*:scream: has _" + NatToString(e.1) + "_ pending PRs to approve";
      assert line == body + "\n";
      assert line[..|line| - 1] == body;
    }
  }

  function DebtLines(board: seq<Entry>, emojiAt: nat -> string): seq<string> {
    seq(|board|, i requires 0 <= i < |board| => DebtLine(i, board[i], emojiAt(i)))
  }

  lemma DebtLinesSnoc(board: seq<Entry>, emojiAt: nat -> string, i: nat)
    requires i < |board|
    ensures DebtLines(board[..i + 1], emojiAt) == DebtLines(board[..i], emojiAt) + [DebtLine(i, board[i], emojiAt(i))]
  {
  }

  /** The requested reviewers, ranked by the number of pull-request requests they owe. */
  function DebtBoard(pulls: seq<Pull>): seq<Entry> {
    SortByCountDesc(Counts(ReviewerDebt(pulls)))
  }

  /** `get_reviewers_debt_section`: header, one line per ranked reviewer, closing line. */
  method ReviewersDebtSection(pulls: seq<Pull>, emojiAt: nat -> string) returns (section: string)
    ensures section == DebtHead + Join("\n", DebtLines(DebtBoard(pulls), emojiAt)) + SectionTail
  {
    var lines: seq<string> := [];
    var reviewersDebt := GetReviewerDebt(pulls);
    var sortedReviewersDebt := SortByCountDesc(Counts(reviewersDebt));
    for index := 0 to |sortedReviewersDebt|
      invariant lines == DebtLines(sortedReviewersDebt[..index], emojiAt)
    {
      var (requestedReviewer, debt) := sortedReviewersDebt[index];
      var line;
      if index == 0 {
        line := ":bell:: :scream:*" + requestedReviewer + "*:scream: has _" + NatToString(debt) + "_ pending PRs to approve\n";
      } else {
        line := emojiAt(index) + ": *" + requestedReviewer + "* has _" + NatToString(debt) + "_ pending PRs to approve";
      }
      assert line == DebtLine(index, sortedReviewersDebt[index], emojiAt(index));
      DebtLinesSnoc(sortedReviewersDebt, emojiAt, index);
      lines := lines + [line];
    }
    assert sortedReviewersDebt[..|sortedReviewersDebt|] == sortedReviewersDebt;
    section := DebtHead + Join("\n", lines) + SectionTail;
  }

  /**
   * The debt board names every requested reviewer, with the number of times they are
   * listed as requested, largest debt first.
   */
  lemma DebtBoardCounts(pulls: seq<Pull>)
    ensures var board := DebtBoard(pulls);
      && NonIncreasing(board)
      && (forall i :: 0 <= i < |board| ==> board[i].1 == TimesRequested(board[i].0, pulls) > 0)
      && (forall p, r :: p in pulls && r in p.reviewers ==> exists i :: 0 <= i < |board| && board[i].0 == r)
  {
    var g := ReviewerDebt(pulls);
    var board := DebtBoard(pulls);
    assert Valid(g) by { GroupPairsValid(DebtPairs(pulls)); }
    assert NonIncreasing(board) by { Leaderboard(g); }
    forall i | 0 <= i < |board|
      ensures board[i].1 == TimesRequested(board[i].0, pulls) > 0
    {
      assert board[i].0 in g.lists && board[i].1 == |g.lists[board[i].0]| by { Leaderboard(g); }
      ReviewerDebtOwed(pulls, board[i].0);
    }
    forall p, r | p in pulls && r in p.reviewers
      ensures exists i :: 0 <= i < |board| && board[i].0 == r
    {
      ReviewerDebtOwed(pulls, r);
      assert (r, |g.lists[r]|) in board by { Leaderboard(g); }
      var i :| 0 <= i < |board| && board[i] == (r, |g.lists[r]|);
    }
  }
}
