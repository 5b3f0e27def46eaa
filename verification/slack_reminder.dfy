/**
 * slack_pull_reminder.py: the organization's repositories are filtered by the REPOSITORIES
 * allow-list, each one's open pull requests (optionally only those of allowed authors)
 * become `PullRequest` records, the records with a valid title become one line each, and
 * the lines are posted to Slack when there is at least one. The host's listing of
 * repositories and pull requests is the parameter `repos`.
 */
module SlackReminder {
  import opened Wrappers
  import opened Text
  import opened Seqs
  import opened Records
  import opened RuleEngine
  import opened Selection
  import opened Settings
  import opened Notify

  /** The `PullRequest` named tuple. */
  datatype PullRequest = PullRequest(
    repositoryName: string,
    pull: Pull,
    creator: string,
    url: string,
    title: string,
    hasValidTitle: bool)

  // ------------------------------------------------------------- selection

  /** `_is_required_fetch`: the repository's lower-cased name is in the allow-list. */
  predicate IsRequiredFetch(repositories: seq<string>, r: Repository) {
    Lower(r.name) in repositories
  }

  function Required(repositories: seq<string>): Repository -> bool {
    (r: Repository) => IsRequiredFetch(repositories, r)
  }

  /**
   * The allow-list as configured: an unset or empty REPOSITORIES selects no repository at all,
   * and otherwise a repository is selected iff one of the comma-separated entries, lower-cased
   * and stripped, is its lower-cased name.
   */
  lemma RequiredFetchFollowsConfig(v: Option<string>, r: Repository)
    ensures IsRequiredFetch(ParseList(v), r)
        <==> v.Some? && v.value != ""
             && exists piece :: piece in Split(v.value, ',') && Strip(Lower(piece)) == Lower(r.name)
  {
    if v.Some? && v.value != "" {
      var pieces := Split(v.value, ',');
      assert ParseList(v) == Map(Normalize, pieces);
      MapMember(Normalize, pieces, Lower(r.name));
    }
  }

  /** The entry `" API"` lower-cases and strips to `api`. */
  lemma PaddedUpperCaseEntryNormalizes()
    ensures Strip(Lower(" API")) == "api"
  {
    assert Lower(" API") == " api" by {
      var low := Lower(" API");
      assert low[0] == ' ' && low[1] == 'a' && low[2] == 'p' && low[3] == 'i';
    }
    assert IsSpace(' ') && !IsSpace('a') && !IsSpace('i');
    assert TrimStart(" api") == TrimStart("api") by {
      assert " api"[0] == ' ' && " api"[1..] == "api";
    }
    assert TrimStart("api") == "api" by {
      assert "api"[0] == 'a';
    }
    assert TrimEnd("api") == "api" by {
      assert "api"[2] == 'i';
    }
  }

  /** `REPOSITORIES=" API"` selects the repository `api`: entries are lower-cased and stripped. */
  lemma PaddedUpperCaseEntrySelects()
    ensures IsRequiredFetch(ParseList(Some(" API")), Repository("api", []))
  {
    assert Split(" API", ',') == [" API"] by {
      assert Join([','], [" API"]) == " API";
      SplitJoin([" API"], ',');
    }
    assert Lower("api") == "api" by {
      assert IsLowered("api");
      LoweredIsFixed("api");
    }
    PaddedUpperCaseEntryNormalizes();
    assert " API" in Split(" API", ',');
    RequiredFetchFollowsConfig(Some(" API"), Repository("api", []));
  }

  /** `_is_valid_title`: no deny-listed word is a substring of the lower-cased title. */
  function IsValidTitle(ignoreWords: seq<string>, title: string): (b: bool)
    ensures !b <==> exists w :: w in ignoreWords && Occurs(w, Lower(title))
    ensures ignoreWords == [] ==> b
  {
    !AnyOccurs(ignoreWords, Lower(title))
  }

  /** The record `return_obj` builds for one pull request of repository `name`. */
  function ToRecord(name: string, ignoreWords: seq<string>, p: Pull): PullRequest {
    PullRequest(name, p, p.login, p.url, p.title, IsValidTitle(ignoreWords, p.title))
  }

  function ToRecords(name: string, ignoreWords: seq<string>, ps: seq<Pull>): seq<PullRequest> {
    seq(|ps|, i requires 0 <= i < |ps| => ToRecord(name, ignoreWords, ps[i]))
  }

  lemma ToRecordsSnoc(name: string, ignoreWords: seq<string>, ps: seq<Pull>)
    requires ps != []
    ensures ToRecords(name, ignoreWords, ps)
         == ToRecords(name, ignoreWords, ps[..|ps| - 1]) + [ToRecord(name, ignoreWords, ps[|ps| - 1])]
  {
  }

  function PullsOf(rs: seq<PullRequest>): seq<Pull> {
    seq(|rs|, i requires 0 <= i < |rs| => rs[i].pull)
  }

  /**
   * `fetch_repository_pulls` of slack_pull_reminder.py: the open pull requests, then, when an
   * author allow-list is given, those of allowed authors; one record each, in listing order.
   */
  function FetchRepositoryPulls(ignoreWords: seq<string>, usernames: seq<string>, r: Repository): (rs: seq<PullRequest>)
    ensures |rs| <= |r.pulls|
    ensures forall pr :: pr in rs ==>
              && pr.repositoryName == r.name && pr.pull in r.pulls && pr.pull.state == "open"
              && pr.title == pr.pull.title && pr.url == pr.pull.url && pr.creator == pr.pull.login
              && pr.hasValidTitle == IsValidTitle(ignoreWords, pr.title)
  {
    var openPullRequests := Filter(Open(), r.pulls);
    var kept := if usernames == [] then openPullRequests else Filter(ByAuthor(usernames), openPullRequests);
    assert forall p :: p in kept ==> p in r.pulls && p.state == "open";
    ToRecords(r.name, ignoreWords, kept)
  }

  /** The records carry exactly the pull requests the helpers revision selects, in the same order. */
  lemma FetchSelectsLikeHelpers(ignoreWords: seq<string>, usernames: seq<string>, r: Repository)
    ensures PullsOf(FetchRepositoryPulls(ignoreWords, usernames, r)) == SelectedPulls(usernames, r.pulls)
  {
    TwoStageSelection(usernames, r.pulls);
  }

  // ------------------------------------------------------------- formatting

  /** `format_pull_request`: `*[owner/repo]* <url|title - by creator>`. */
  function FormatPullRequest(owner: string, pr: PullRequest): string {
    "*[" + owner + "/" + pr.repositoryName + "]* <" + pr.url + "|" + pr.title + " - by " + pr.creator + ">"
  }

  function FormatAll(owner: string, prs: seq<PullRequest>): (lines: seq<string>)
    ensures |lines| == |prs|
  {
    seq(|prs|, i requires 0 <= i < |prs| => FormatPullRequest(owner, prs[i]))
  }

  lemma FormatAllAppend(owner: string, a: seq<PullRequest>, b: seq<PullRequest>)
    ensures FormatAll(owner, a + b) == FormatAll(owner, a) + FormatAll(owner, b)
  {
  }

  function HasValidTitle(): PullRequest -> bool {
    (pr: PullRequest) => pr.hasValidTitle
  }

  /** The lines one repository contributes: none unless it is required, else its valid-title records. */
  function RepositoryLines(owner: string, repositories: seq<string>, ignoreWords: seq<string>,
                           usernames: seq<string>, r: Repository): seq<string>
  {
    if IsRequiredFetch(repositories, r) then
      FormatAll(owner, Filter(HasValidTitle(), FetchRepositoryPulls(ignoreWords, usernames, r)))
    else []
  }

  function RepositoryLinesOf(owner: string, repositories: seq<string>, ignoreWords: seq<string>,
                             usernames: seq<string>): Repository -> seq<string>
  {
    (r: Repository) => RepositoryLines(owner, repositories, ignoreWords, usernames, r)
  }

  /**
   * `fetch_organization_pulls` with the per-repository lists flattened: the lines of the
   * required repositories, repository after repository, each in listing order.
   */
  function OrganizationPulls(owner: string, repositories: seq<string>, ignoreWords: seq<string>,
                             usernames: seq<string>, repos: seq<Repository>): seq<string>
  {
    FlatMap(RepositoryLinesOf(owner, repositories, ignoreWords, usernames), repos)
  }

  /** Repositories are reported in listing order: the lines of two listings in a row are each one's lines. */
  lemma OrganizationPullsAppend(owner: string, repositories: seq<string>, ignoreWords: seq<string>,
                                usernames: seq<string>, a: seq<Repository>, b: seq<Repository>)
    ensures OrganizationPulls(owner, repositories, ignoreWords, usernames, a + b)
         == OrganizationPulls(owner, repositories, ignoreWords, usernames, a)
            + OrganizationPulls(owner, repositories, ignoreWords, usernames, b)
  {
    FlatMapAppend(RepositoryLinesOf(owner, repositories, ignoreWords, usernames), a, b);
  }

  /** The records are those of the pull requests the helpers revision selects. */
  lemma FetchRecords(ignoreWords: seq<string>, usernames: seq<string>, r: Repository)
    ensures FetchRepositoryPulls(ignoreWords, usernames, r) == ToRecords(r.name, ignoreWords, SelectedPulls(usernames, r.pulls))
  {
    TwoStageSelection(usernames, r.pulls);
  }

  lemma FormatValidRecords(owner: string, name: string, ignoreWords: seq<string>, ps: seq<Pull>, line: string)
    ensures line in FormatAll(owner, Filter(HasValidTitle(), ToRecords(name, ignoreWords, ps)))
        <==> exists p :: p in ps && IsValidTitle(ignoreWords, p.title)
                         && line == FormatPullRequest(owner, ToRecord(name, ignoreWords, p))
  {
    var records := ToRecords(name, ignoreWords, ps);
    var valid := Filter(HasValidTitle(), records);
    var lines := FormatAll(owner, valid);
    if line in lines {
      var k :| 0 <= k < |lines| && lines[k] == line;
      assert valid[k] in valid;
      assert valid[k] in records;
      var j :| 0 <= j < |records| && records[j] == valid[k];
      assert ps[j] in ps;
    }
    if exists p :: p in ps && IsValidTitle(ignoreWords, p.title)
                   && line == FormatPullRequest(owner, ToRecord(name, ignoreWords, p)) {
      var p :| p in ps && IsValidTitle(ignoreWords, p.title)
               && line == FormatPullRequest(owner, ToRecord(name, ignoreWords, p));
      var j :| 0 <= j < |ps| && ps[j] == p;
      assert records[j] in records;
      assert records[j] in valid;
      var k :| 0 <= k < |valid| && valid[k] == records[j];
      assert lines[k] == line;
    }
  }

  /**
   * A line comes from a repository exactly when the repository is required and one of its
   * selected pull requests has a valid title; the line is that pull request's format.
   */
  lemma RepositoryLinesSpec(owner: string, repositories: seq<string>, ignoreWords: seq<string>,
                            usernames: seq<string>, r: Repository, line: string)
    ensures line in RepositoryLines(owner, repositories, ignoreWords, usernames, r)
        <==> IsRequiredFetch(repositories, r)
             && exists p :: p in SelectedPulls(usernames, r.pulls) && IsValidTitle(ignoreWords, p.title)
                            && line == FormatPullRequest(owner, ToRecord(r.name, ignoreWords, p))
  {
    FetchRecords(ignoreWords, usernames, r);
    FormatValidRecords(owner, r.name, ignoreWords, SelectedPulls(usernames, r.pulls), line);
  }

  /** Nothing is reported when REPOSITORIES is unset or empty, whatever the organization holds. */
  lemma NoRepositoriesNoLines(owner: string, ignoreWords: seq<string>, usernames: seq<string>,
                              repos: seq<Repository>)
    ensures OrganizationPulls(owner, [], ignoreWords, usernames, repos) == []
  {
    FlatMapNothing(RepositoryLinesOf(owner, [], ignoreWords, usernames), repos);
  }

  /**
   * A line is reported exactly when some listed repository is required and one of its
   * selected pull requests has a valid title; the line is that pull request's format.
   */
  lemma OrganizationPullsSpec(owner: string, repositories: seq<string>, ignoreWords: seq<string>,
                              usernames: seq<string>, repos: seq<Repository>, line: string)
    ensures line in OrganizationPulls(owner, repositories, ignoreWords, usernames, repos)
        <==> exists r :: r in repos && line in RepositoryLines(owner, repositories, ignoreWords, usernames, r)
    ensures forall r :: r in repos ==>
              (line in RepositoryLines(owner, repositories, ignoreWords, usernames, r)
               <==> IsRequiredFetch(repositories, r)
                    && exists p :: p in SelectedPulls(usernames, r.pulls) && IsValidTitle(ignoreWords, p.title)
                                   && line == FormatPullRequest(owner, ToRecord(r.name, ignoreWords, p)))
  {
    FlatMapMember(RepositoryLinesOf(owner, repositories, ignoreWords, usernames), repos, line);
    forall r | r in repos
      ensures line in RepositoryLines(owner, repositories, ignoreWords, usernames, r)
              <==> IsRequiredFetch(repositories, r)
                   && exists p :: p in SelectedPulls(usernames, r.pulls) && IsValidTitle(ignoreWords, p.title)
                                  && line == FormatPullRequest(owner, ToRecord(r.name, ignoreWords, p))
    {
      RepositoryLinesSpec(owner, repositories, ignoreWords, usernames, r, line);
    }
  }

  /** A record keeps its pull request, its repository name and the verdict on its title. */
  lemma ToRecordsKeepPulls(name: string, ignoreWords: seq<string>, ps: seq<Pull>)
    ensures PullsOf(ToRecords(name, ignoreWords, ps)) == ps
    ensures forall pr :: pr in ToRecords(name, ignoreWords, ps) ==>
              pr.repositoryName == name && pr.hasValidTitle == IsValidTitle(ignoreWords, pr.title)
  {
  }

  /** A pull request whose texts hold no line break is reported on a line of its own. */
  lemma FormatPullRequestOneLine(owner: string, pr: PullRequest)
    requires '\n' !in owner && '\n' !in pr.repositoryName && '\n' !in pr.url
    requires '\n' !in pr.title && '\n' !in pr.creator
    ensures '\n' !in FormatPullRequest(owner, pr)
  {
  }

  // ------------------------------------------------- the code as written

  /** What Python reports when `.has_valid_title` is read on a list. */
  const ListHasNoValidTitle: string := "'list' object has no attribute 'has_valid_title'"

  /**
   * `fetch_organization_pulls` as written: `open_prs` holds one list of records per required
   * repository, and the second comprehension reads `.has_valid_title` on each of those lists,
   * which raises as soon as there is one.
   */
  function OrganizationPullsAsWritten(owner: string, repositories: seq<string>, ignoreWords: seq<string>,
                                      usernames: seq<string>, repos: seq<Repository>): (r: Result<seq<string>, string>)
    ensures r.Success? <==> forall x :: x in repos ==> !IsRequiredFetch(repositories, x)
    ensures r.Success? ==> r.value == []
  {
    var required := Filter(Required(repositories), repos);
    var openPrs := seq(|required|, i requires 0 <= i < |required| => FetchRepositoryPulls(ignoreWords, usernames, required[i]));
    if openPrs == [] then
      assert forall x :: x in repos && IsRequiredFetch(repositories, x) ==> x in required;
      Success([])
    else
      assert required[0] in required;
      Failure(ListHasNoValidTitle)
  }

  /** Where the code as written does not raise, it agrees with the flattened reading. */
  lemma AsWrittenAgreesWhenNothingRequired(owner: string, repositories: seq<string>, ignoreWords: seq<string>,
                                           usernames: seq<string>, repos: seq<Repository>)
    requires OrganizationPullsAsWritten(owner, repositories, ignoreWords, usernames, repos).Success?
    ensures OrganizationPullsAsWritten(owner, repositories, ignoreWords, usernames, repos).value
         == OrganizationPulls(owner, repositories, ignoreWords, usernames, repos)
  {
    NothingRequiredNoLines(owner, repositories, ignoreWords, usernames, repos);
  }

  lemma NothingRequiredNoLines(owner: string, repositories: seq<string>, ignoreWords: seq<string>,
                                usernames: seq<string>, repos: seq<Repository>)
    requires forall x :: x in repos ==> !IsRequiredFetch(repositories, x)
    ensures OrganizationPulls(owner, repositories, ignoreWords, usernames, repos) == []
  {
    FlatMapNothing(RepositoryLinesOf(owner, repositories, ignoreWords, usernames), repos);
  }

  /**
   * REPOSITORIES=api and an organization whose only repository, "api", has no pull request:
   * the code as written raises although there is nothing to report; the flattened reading
   * reports nothing.
   */
  lemma RequiredRepositoryRaises()
    ensures OrganizationPullsAsWritten("acme", ["api"], [], [], [Repository("api", [])]).Failure?
    ensures OrganizationPulls("acme", ["api"], [], [], [Repository("api", [])]) == []
  {
    var api := Repository("api", []);
    assert Lower("api") == "api";
    assert IsRequiredFetch(["api"], api);
    assert api in [api];
    assert [api][..0] == [];
    assert Filter(HasValidTitle(), FetchRepositoryPulls([], [], api)) == [];
  }

  // --------------------------------------------------------------------- cli

  /** The lines `cli` would post, read from the environment. */
  function CliLines(env: map<string, string>, repos: seq<Repository>): seq<string>
    requires "ORGANIZATION" in env
  {
    OrganizationPulls(env["ORGANIZATION"], ParseList(Lookup(env, "REPOSITORIES")),
                      ParseList(Lookup(env, "IGNORE_WORDS")), ParseList(Lookup(env, "USERNAMES")), repos)
  }

  /**
   * `cli`: build the configuration, collect the lines, post them when there is one.
   * A required variable that was never set makes the run stop where its attribute is read.
   */
  method Cli(env: map<string, string>, repos: seq<Repository>, ack: Ack) returns (outcome: RunOutcome)
    ensures !("GITHUB_API_TOKEN" in env && "ORGANIZATION" in env) ==> outcome.Aborted?
    ensures "GITHUB_API_TOKEN" in env && "ORGANIZATION" in env ==>
              if CliLines(env, repos) == [] then outcome == Skipped
              else if "SLACK_API_TOKEN" !in env then outcome.Aborted?
              else outcome == Dispatch(SlackInitialMessage, CliLines(env, repos), ack)
  {
    var config := new Config(env);
    if config.githubApiToken.None? {
      return Aborted("'Config' object has no attribute 'GITHUB_API_TOKEN'");
    }
    if config.githubOrganization.None? {
      return Aborted("'Config' object has no attribute 'GITHUB_ORGANIZATION'");
    }
    var lines := OrganizationPulls(config.githubOrganization.value, config.repositories,
                                   config.ignoreWords, config.usernames, repos);
    if lines != [] {
      if config.slackApiToken.None? {
        return Aborted("'Config' object has no attribute 'SLACK_API_TOKEN'");
      }
      var text := config.slackInitialMessage + Join("\n", lines);
      outcome := Posted(text, SendOutcome(ack));
    } else {
      outcome := Skipped;
    }
  }
}
