/**
 * Per-repository selection of helpers/tools.py (`fetch_repository_pulls`, identical in
 * tools/tools.py): keep the open pull requests, restricted to the author allow-list when
 * that list is non-empty, in the order the host lists them.
 */
module Selection {
  import opened Text
  import opened Seqs
  import opened Records

  /** The keep condition: open, and written by an allowed author (any author when the list is empty). */
  predicate IsSelected(usernames: seq<string>, p: Pull) {
    p.state == "open" && (usernames == [] || Lower(p.login) in usernames)
  }

  function Selected(usernames: seq<string>): Pull -> bool {
    p => IsSelected(usernames, p)
  }

  function Open(): Pull -> bool {
    (p: Pull) => p.state == "open"
  }

  function ByAuthor(usernames: seq<string>): Pull -> bool {
    (p: Pull) => Lower(p.login) in usernames
  }

  /** The pull requests that `fetch_repository_pulls` keeps, as a specification. */
  function SelectedPulls(usernames: seq<string>, listed: seq<Pull>): (r: seq<Pull>)
    ensures forall p :: p in r <==> p in listed && p.state == "open"
                                    && (usernames == [] || Lower(p.login) in usernames)
    ensures IsSubsequence(r, listed)
  {
    FilterIsSubsequence(Selected(usernames), listed);
    Filter(Selected(usernames), listed)
  }

  /** Selection keeps source order: selecting from two listings in a row is selecting from each. */
  lemma SelectedPullsAppend(usernames: seq<string>, a: seq<Pull>, b: seq<Pull>)
    ensures SelectedPulls(usernames, a + b) == SelectedPulls(usernames, a) + SelectedPulls(usernames, b)
  {
    FilterAppend(Selected(usernames), a, b);
  }

  /** With no author allow-list, every open pull request is kept, whoever wrote it. */
  lemma NoAllowListKeepsEveryOpenPull(listed: seq<Pull>)
    requires forall p :: p in listed ==> p.state == "open"
    ensures SelectedPulls([], listed) == listed
  {
    FilterAll(Selected([]), listed);
  }

  /** `fetch_repository_pulls`: the loop that appends each kept pull request. */
  method FetchRepositoryPulls(usernames: seq<string>, listed: seq<Pull>) returns (pulls: seq<Pull>)
    ensures pulls == SelectedPulls(usernames, listed)
  {
    pulls := [];
    for i := 0 to |listed|
      invariant pulls == Filter(Selected(usernames), listed[..i])
    {
      var pull := listed[i];
      assert listed[..i + 1] == listed[..i] + [pull];
      if pull.state == "open" && (usernames == [] || Lower(pull.login) in usernames) {
        pulls := pulls + [pull];
      }
    }
    assert listed[..|listed|] == listed;
  }

  /**
   * Keeping the open pull requests first and then applying the allow-list when one is given,
   * as slack_pull_reminder.py does, selects the same pull requests in the same order.
   */
  lemma TwoStageSelection(usernames: seq<string>, listed: seq<Pull>)
    ensures (if usernames == [] then Filter(Open(), listed) else Filter(ByAuthor(usernames), Filter(Open(), listed)))
         == SelectedPulls(usernames, listed)
  {
    if usernames == [] {
      FilterExt(Open(), Selected(usernames), listed);
    } else {
      FilterCompose(Open(), ByAuthor(usernames), Selected(usernames), listed);
    }
  }
}
