/**
 * pull-request-reminder.py, the first revision of the reminder: every repository of the
 * organization is checked, its open pull requests whose title does not mention "doppins"
 * (in any case) become one line each, and the lines are posted when there is at least one.
 * The host's listing of repositories and pull requests is the parameter `repos`; the
 * environment, which the script reads when it is loaded, is the parameter `env`.
 */
module PrReminder {
  import opened Text
  import opened Seqs
  import opened Records
  import opened RuleEngine
  import opened Selection
  import opened Notify
  import SlackReminder

  /** The fixed title deny-list. */
  const IgnoreWords: seq<string> := ["doppins"]

  /** The greeting; the line continuation in the literal joins its first two lines. */
  const InitialMessage: string := "Hi! There's a few open pull requests you should take a look at:\n\n"

  /** `check_repository`: the open pull requests, in listing order. */
  function CheckRepository(r: Repository): (ps: seq<Pull>)
    ensures forall p :: p in ps <==> p in r.pulls && p.state == "open"
    ensures IsSubsequence(ps, r.pulls)
  {
    FilterIsSubsequence(Open(), r.pulls);
    Filter(Open(), r.pulls)
  }

  function LowerAll(words: seq<string>): seq<string> {
    seq(|words|, i requires 0 <= i < |words| => Lower(words[i]))
  }

  lemma DenyListIsLowered()
    ensures LowerAll(IgnoreWords) == IgnoreWords
  {
    assert IsLowered("doppins");
    LoweredIsFixed("doppins");
  }

  /** `is_valid_title`: the deny word and the title are both lower-cased before the search. */
  function IsValidTitle(title: string): (b: bool)
    ensures !b <==> Occurs("doppins", Lower(title))
  {
    DenyListIsLowered();
    !AnyOccurs(LowerAll(IgnoreWords), Lower(title))
  }

  /** The verdict does not depend on the case of the title. */
  lemma TitleCaseIsIrrelevant(title: string)
    ensures IsValidTitle(Lower(title)) == IsValidTitle(title)
  {
    LowerIsLowered(title);
    LoweredIsFixed(Lower(title));
  }

  /** The newer script, given the same deny-list, judges every title the same way. */
  lemma SameVerdict(title: string)
    ensures SlackReminder.IsValidTitle(IgnoreWords, title) == IsValidTitle(title)
  {
    DenyListIsLowered();
  }

  /** A title that spells the word in capitals is rejected too. */
  lemma CapitalizedDoppinsIsRejected()
    ensures !IsValidTitle("[DOPPINS] Upgrade lodash")
  {
    var low := Lower("[DOPPINS] Upgrade lodash");
    assert low[1] == 'd' && low[2] == 'o' && low[3] == 'p' && low[4] == 'p';
    assert low[5] == 'i' && low[6] == 'n' && low[7] == 's';
    assert low[1..8] == "doppins";
    assert IsPrefix("doppins", low[1..]);
    assert Occurs("doppins", low[1..]);
  }

  /** The template `'*[{0}/{1}]* <{2}|{3} - by {4}>'` for one pull request. */
  function FormatLine(owner: string, repository: string, p: Pull): string {
    "*[" + owner + "/" + repository + "]* <" + p.url + "|" + p.title + " - by " + p.login + ">"
  }

  /** The lines `format_pull_requests` produces: one per pull request with a valid title, in order. */
  function FormattedLines(owner: string, repository: string, pulls: seq<Pull>): (lines: seq<string>)
    ensures |lines| <= |pulls|
    decreases |pulls|
  {
    if pulls == [] then []
    else
      var p := pulls[|pulls| - 1];
      FormattedLines(owner, repository, pulls[..|pulls| - 1]) + (if IsValidTitle(p.title) then [FormatLine(owner, repository, p)] else [])
  }

  /** A line is produced exactly for each pull request with a valid title. */
  lemma {:induction false} FormattedLinesSpec(owner: string, repository: string, pulls: seq<Pull>, line: string)
    ensures line in FormattedLines(owner, repository, pulls)
        <==> exists p :: p in pulls && IsValidTitle(p.title) && line == FormatLine(owner, repository, p)
    decreases |pulls|
  {
    if pulls != [] {
      var init, p := pulls[..|pulls| - 1], pulls[|pulls| - 1];
      FormattedLinesSpec(owner, repository, init, line);
      var tail := if IsValidTitle(p.title) then [FormatLine(owner, repository, p)] else [];
      assert FormattedLines(owner, repository, pulls) == FormattedLines(owner, repository, init) + tail;
      if exists q :: q in pulls && IsValidTitle(q.title) && line == FormatLine(owner, repository, q) {
        var q :| q in pulls && IsValidTitle(q.title) && line == FormatLine(owner, repository, q);
        InSnoc(pulls, q);
      }
      if exists q :: q in init && IsValidTitle(q.title) && line == FormatLine(owner, repository, q) {
        var q :| q in init && IsValidTitle(q.title) && line == FormatLine(owner, repository, q);
        InSnoc(pulls, q);
      }
      assert p in pulls;
    }
  }

  /** `format_pull_requests`: append one line per pull request with a valid title. */
  method FormatPullRequests(pullRequests: seq<Pull>, owner: string, repository: string) returns (lines: seq<string>)
    ensures lines == FormattedLines(owner, repository, pullRequests)
  {
    lines := [];
    for i := 0 to |pullRequests|
      invariant lines == FormattedLines(owner, repository, pullRequests[..i])
    {
      var pull := pullRequests[i];
      assert pullRequests[..i + 1][..i] == pullRequests[..i];
      if IsValidTitle(pull.title) {
        var creator := pull.login;
        var line := "*[" + owner + "/" + repository + "]* <" + pull.url + "|" + pull.title + " - by " + creator + ">";
        lines := lines + [line];
      }
    }
    assert pullRequests[..|pullRequests|] == pullRequests;
  }

  function RepositoryLinesOf(owner: string): Repository -> seq<string> {
    (r: Repository) => FormattedLines(owner, r.name, CheckRepository(r))
  }

  /** The lines of the whole organization: each repository's lines, repository after repository. */
  function OrganizationLines(owner: string, repos: seq<Repository>): seq<string> {
    FlatMap(RepositoryLinesOf(owner), repos)
  }

  /**
   * A line is posted exactly for an open pull request with a valid title in some repository
   * of the organization; the line is its template filled with that repository's name.
   */
  lemma OrganizationLinesSpec(owner: string, repos: seq<Repository>, line: string)
    ensures line in OrganizationLines(owner, repos)
        <==> exists r :: r in repos
                         && exists p :: p in r.pulls && p.state == "open" && IsValidTitle(p.title)
                                        && line == FormatLine(owner, r.name, p)
  {
    FlatMapMember(RepositoryLinesOf(owner), repos, line);
    forall r | r in repos
      ensures line in RepositoryLinesOf(owner)(r)
              <==> exists p :: p in r.pulls && p.state == "open" && IsValidTitle(p.title)
                               && line == FormatLine(owner, r.name, p)
    {
      FormattedLinesSpec(owner, r.name, CheckRepository(r), line);
    }
  }

  /** `check_organization`: every repository is checked, with no allow-list, and its lines appended. */
  method CheckOrganization(organizationName: string, repos: seq<Repository>) returns (lines: seq<string>)
    ensures lines == OrganizationLines(organizationName, repos)
  {
    lines := [];
    for i := 0 to |repos|
      invariant lines == OrganizationLines(organizationName, repos[..i])
    {
      var repository := repos[i];
      FlatMapSnoc(RepositoryLinesOf(organizationName), repos, i);
      var uncheckedPulls := CheckRepository(repository);
      var repositoryLines := FormatPullRequests(uncheckedPulls, organizationName, repository.name);
      lines := lines + repositoryLines;
    }
    assert repos[..|repos|] == repos;
  }

  /**
   * `main`, with the settings the script reads when it is loaded: a missing SLACK_API_TOKEN,
   * GITHUB_API_TOKEN or ORGANIZATION stops it before anything is checked.
   */
  method RunReminder(env: map<string, string>, repos: seq<Repository>, ack: Ack) returns (outcome: RunOutcome)
    ensures !("SLACK_API_TOKEN" in env && "GITHUB_API_TOKEN" in env && "ORGANIZATION" in env) ==> outcome.Aborted?
    ensures "SLACK_API_TOKEN" in env && "GITHUB_API_TOKEN" in env && "ORGANIZATION" in env ==>
              outcome == Dispatch(InitialMessage, OrganizationLines(env["ORGANIZATION"], repos), ack)
  {
    if "SLACK_API_TOKEN" !in env {
      return Aborted("KeyError: 'SLACK_API_TOKEN'");
    }
    if "GITHUB_API_TOKEN" !in env {
      return Aborted("KeyError: 'GITHUB_API_TOKEN'");
    }
    if "ORGANIZATION" !in env {
      return Aborted("KeyError: 'ORGANIZATION'");
    }
    var lines := CheckOrganization(env["ORGANIZATION"], repos);
    if lines != [] {
      var text := InitialMessage + Join("\n", lines);
      outcome := Posted(text, SendOutcome(ack));
    } else {
      outcome := Skipped;
    }
  }

  // ------------------------------------------------ agreement with the newer script

  lemma {:induction false} FormattedLinesAsRecords(owner: string, name: string, ps: seq<Pull>)
    ensures FormattedLines(owner, name, ps)
         == SlackReminder.FormatAll(owner, Filter(SlackReminder.HasValidTitle(), SlackReminder.ToRecords(name, IgnoreWords, ps)))
    decreases |ps|
  {
    if ps != [] {
      var init, p := ps[..|ps| - 1], ps[|ps| - 1];
      FormattedLinesAsRecords(owner, name, init);
      var rec := SlackReminder.ToRecord(name, IgnoreWords, p);
      var before := SlackReminder.ToRecords(name, IgnoreWords, init);
      SlackReminder.ToRecordsSnoc(name, IgnoreWords, ps);
      FilterAppend(SlackReminder.HasValidTitle(), before, [rec]);
      FilterSingleton(SlackReminder.HasValidTitle(), rec);
      var tail := if rec.hasValidTitle then [rec] else [];
      SlackReminder.FormatAllAppend(owner, Filter(SlackReminder.HasValidTitle(), before), tail);
      SameVerdict(p.title);
      assert SlackReminder.FormatAll(owner, tail)
          == if IsValidTitle(p.title) then [FormatLine(owner, name, p)] else [];
    }
  }

  /** Both scripts fill the same template: the line of a pull request is the line of its record. */
  lemma SameTemplate(owner: string, name: string, p: Pull)
    ensures SlackReminder.FormatPullRequest(owner, SlackReminder.ToRecord(name, IgnoreWords, p)) == FormatLine(owner, name, p)
  {
  }

  /**
   * With every repository in REPOSITORIES, no author allow-list and "doppins" as the only
   * deny word, slack_pull_reminder.py (read with its lists flattened) posts the same lines
   * as this script.
   */
  lemma ScriptsAgree(owner: string, repositories: seq<string>, repos: seq<Repository>)
    requires forall r :: r in repos ==> Lower(r.name) in repositories
    ensures OrganizationLines(owner, repos) == SlackReminder.OrganizationPulls(owner, repositories, IgnoreWords, [], repos)
  {
    forall r | r in repos
      ensures RepositoryLinesOf(owner)(r) == SlackReminder.RepositoryLinesOf(owner, repositories, IgnoreWords, [])(r)
    {
      SlackReminder.FetchRecords(IgnoreWords, [], r);
      NoAllowListIsOpenFilter(r.pulls);
      FormattedLinesAsRecords(owner, r.name, CheckRepository(r));
    }
    FlatMapExt(RepositoryLinesOf(owner), SlackReminder.RepositoryLinesOf(owner, repositories, IgnoreWords, []), repos);
  }

  lemma NoAllowListIsOpenFilter(listed: seq<Pull>)
    ensures SelectedPulls([], listed) == Filter(Open(), listed)
  {
    FilterExt(Selected([]), Open(), listed);
  }
}
