/**
 * Configuration read from the environment: the comma-list rule shared by every revision
 * (helpers/tools.py:7-15, slack_pull_reminder.py:40-53) and the `Config` object of
 * slack_pull_reminder.py, whose loaders set its attributes one by one. The environment
 * is a parameter.
 */
module Settings {
  import opened Wrappers
  import opened Text
  import opened Seqs
  import RuleEngine

  /** `os.environ.get(name)`. */
  function Lookup(env: map<string, string>, name: string): (r: Option<string>)
    ensures r.Some? <==> name in env
  {
    if name in env then Some(env[name]) else None
  }

  /** `[i.lower().strip() for i in v.split(',')] if v else []`. */
  function ParseList(v: Option<string>): (r: seq<string>)
    ensures v.None? || v.value == "" ==> r == []
    ensures v.Some? && v.value != "" ==> |r| == Count(',', v.value) + 1
  {
    if v.None? || v.value == "" then [] else Map(Normalize, Split(v.value, ','))
  }

  /** `i.lower().strip()`: one piece of the list. */
  function Normalize(piece: string): string {
    Strip(Lower(piece))
  }

  /** An entry is lower-case, has no surrounding whitespace and no comma. */
  ghost predicate IsNormalEntry(e: string) {
    ',' !in e && IsLowered(e) && Strip(e) == e
  }

  lemma NormalizedPiece(piece: string)
    requires ',' !in piece
    ensures IsNormalEntry(Strip(Lower(piece)))
  {
    var low := Lower(piece);
    var e := Strip(low);
    LowerIsLowered(piece);
    LowerKeepsOtherChars(piece, ',');
    StripIdempotent(low);
    forall c | c in e ensures LowerChar(c) == c && c != ',' {
      StripKeepsChars(low, c);
    }
  }

  /** Every parsed entry is normal: lower-cased, stripped and free of commas. */
  lemma ParsedEntriesAreNormal(v: Option<string>)
    ensures forall e :: e in ParseList(v) ==> IsNormalEntry(e)
  {
    if v.Some? && v.value != "" {
      var pieces := Split(v.value, ',');
      forall i | 0 <= i < |pieces| ensures IsNormalEntry(ParseList(v)[i]) {
        NormalizedPiece(pieces[i]);
      }
    }
  }

  /** A list of normal entries written back as a comma list parses to itself. */
  lemma ReparseNormal(p: seq<string>)
    requires Join(",", p) != ""
    requires forall e :: e in p ==> IsNormalEntry(e)
    ensures ParseList(Some(Join(",", p))) == p
  {
    assert p != [];
    forall i | 0 <= i < |p| ensures ',' !in p[i] {
      assert p[i] in p;
    }
    SplitJoin(p, ',');
    var pieces := Split(Join(",", p), ',');
    assert pieces == p;
    var q := ParseList(Some(Join(",", p)));
    assert |q| == |p|;
    forall i | 0 <= i < |p| ensures q[i] == p[i] {
      assert p[i] in p;
      assert IsNormalEntry(p[i]);
      LoweredIsFixed(p[i]);
    }
  }

  /** Only the empty list and the list of one empty entry join to the empty string. */
  lemma JoinEmpty(p: seq<string>)
    requires Join(",", p) == ""
    ensures p == [] || p == [""]
  {
  }

  /**
   * Parsing is idempotent: writing the parsed list back as a comma list and parsing it again
   * gives the same list, except that a lone blank entry (a variable of only spaces) becomes `[]`.
   */
  lemma ParseListIdempotent(v: Option<string>)
    ensures ParseList(Some(Join(",", ParseList(v)))) == ParseList(v)
            || (ParseList(v) == [""] && ParseList(Some(Join(",", ParseList(v)))) == [])
  {
    var p := ParseList(v);
    if Join(",", p) != "" {
      ParsedEntriesAreNormal(v);
      ReparseNormal(p);
    } else {
      JoinEmpty(p);
    }
  }

  /** `IGNORE_LABELS` of helpers/tools.py: the parsed list, or `["wip"]` when the variable is unset or empty. */
  function IgnoreLabels(v: Option<string>): (r: seq<string>)
    ensures v.None? || v.value == "" ==> r == RuleEngine.DefaultIgnoreLabels
    ensures v.Some? && v.value != "" ==> r == ParseList(v) && r != []
  {
    if v.None? || v.value == "" then RuleEngine.DefaultIgnoreLabels else ParseList(v)
  }

  const SlackPostUrl: string := "https://slack.com/api/chat.postMessage"
  const DefaultSlackChannel: string := "#general"

  /** The greeting of slack_pull_reminder.py, including the indentation its triple-quoted literal keeps. */
  const SlackInitialMessage: string :=
    "        Hi! There's a few open pull requests you should take a         look at:\n\n        "

  /**
   * `Config`: attributes set one by one by two loaders. A required variable that is missing
   * leaves its attribute unset (`None`): the source builds a `ConfigError` but never raises it.
   */
  class Config {
    var slackApiToken: Option<string>
    var slackPostUrl: string
    var slackChannel: string
    var slackInitialMessage: string
    var githubApiToken: Option<string>
    var githubOrganization: Option<string>
    var ignoreWords: seq<string>
    var repositories: seq<string>
    var usernames: seq<string>

    constructor (env: map<string, string>)
      ensures slackApiToken == Lookup(env, "SLACK_API_TOKEN")
      ensures slackPostUrl == SlackPostUrl
      ensures slackChannel == (if "SLACK_CHANNEL" in env then env["SLACK_CHANNEL"] else DefaultSlackChannel)
      ensures slackInitialMessage == SlackInitialMessage
      ensures githubApiToken == Lookup(env, "GITHUB_API_TOKEN")
      ensures githubOrganization ==
                (if "GITHUB_API_TOKEN" in env then Lookup(env, "ORGANIZATION") else None)
      ensures ignoreWords == ParseList(Lookup(env, "IGNORE_WORDS"))
      ensures repositories == ParseList(Lookup(env, "REPOSITORIES"))
      ensures usernames == ParseList(Lookup(env, "USERNAMES"))
    {
      slackApiToken, githubApiToken, githubOrganization := None, None, None;
      slackPostUrl, slackChannel, slackInitialMessage := "", "", "";
      ignoreWords, repositories, usernames := [], [], [];
      new;
      LoadSlackConfigs(env);
      LoadGithubConfigs(env);
    }

    /** `_load_slack_configs`. */
    method LoadSlackConfigs(env: map<string, string>)
      modifies this
      ensures slackApiToken == (if "SLACK_API_TOKEN" in env then Some(env["SLACK_API_TOKEN"]) else old(slackApiToken))
      ensures slackPostUrl == SlackPostUrl
      ensures slackChannel == (if "SLACK_CHANNEL" in env then env["SLACK_CHANNEL"] else DefaultSlackChannel)
      ensures slackInitialMessage == SlackInitialMessage
      ensures githubApiToken == old(githubApiToken) && githubOrganization == old(githubOrganization)
      ensures ignoreWords == old(ignoreWords) && repositories == old(repositories) && usernames == old(usernames)
    {
      if "SLACK_API_TOKEN" in env {
        slackApiToken := Some(env["SLACK_API_TOKEN"]);
      }
      slackPostUrl := SlackPostUrl;
      slackChannel := if "SLACK_CHANNEL" in env then env["SLACK_CHANNEL"] else DefaultSlackChannel;
      slackInitialMessage := SlackInitialMessage;
    }

    /** `_load_github_configs`: a missing GITHUB_API_TOKEN also skips ORGANIZATION, as both sit in one `try`. */
    method LoadGithubConfigs(env: map<string, string>)
      modifies this
      ensures githubApiToken == (if "GITHUB_API_TOKEN" in env then Some(env["GITHUB_API_TOKEN"]) else old(githubApiToken))
      ensures githubOrganization ==
                (if "GITHUB_API_TOKEN" in env && "ORGANIZATION" in env then Some(env["ORGANIZATION"])
                 else old(githubOrganization))
      ensures ignoreWords == ParseList(Lookup(env, "IGNORE_WORDS"))
      ensures repositories == ParseList(Lookup(env, "REPOSITORIES"))
      ensures usernames == ParseList(Lookup(env, "USERNAMES"))
      ensures slackApiToken == old(slackApiToken) && slackPostUrl == old(slackPostUrl)
      ensures slackChannel == old(slackChannel) && slackInitialMessage == old(slackInitialMessage)
    {
      var words := ParseList(Lookup(env, "IGNORE_WORDS"));
      var names := ParseList(Lookup(env, "REPOSITORIES"));
      var authors := ParseList(Lookup(env, "USERNAMES"));
      if "GITHUB_API_TOKEN" in env {
        githubApiToken := Some(env["GITHUB_API_TOKEN"]);
        if "ORGANIZATION" in env {
          githubOrganization := Some(env["ORGANIZATION"]);
        }
      }
      ignoreWords, repositories, usernames := words, names, authors;
    }
  }
}
