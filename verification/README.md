# slack-pull-reminder, modelled in Dafny

slack-pull-reminder reads an organization's open pull requests from the code host and posts
a digest to a Slack channel. This project models its decision logic:

- the rule engine that drops a pull request whose title holds a deny-listed word or whose
  labels hold a deny-listed label;
- the per-repository selection of open pull requests, with an optional author allow-list;
- the comment window that files recent review comments by author;
- the reviewer-debt table;
- the stable ranking by count that orders both leaderboards;
- the three digest sections: open pull requests, CR contributions and CR debt;
- the comma-list settings and the `Config` object;
- the two one-line-per-pull-request reminder scripts and their send-if-non-empty rule;
- the webhook handler for review requests.

Every call into the code host (`login`, `organization`, `repositories()`, `pull_requests()`,
`review_comments()`) is replaced by a parameter holding what it would list. Repositories,
pull requests and comments are plain values (`Records`). The clock `datetime.utcnow()` is a
parameter `now`, in seconds. The environment is a parameter `env: map<string, string>`. The
answer of the Slack API is a parameter `ack` (`Notify.Ack`).

The model has one module per component:

| module | file | models |
|---|---|---|
| `Text` | text.dfy | ASCII `str.lower`, `strip`, `split`, `join`, substring search, integer rendering |
| `Seqs` | seqs.dfy | comprehensions: filter, map and flatten, kept in source order |
| `Records` | records.dfy | pull requests, review comments, repositories |
| `RuleEngine` | rules.dfy | `contains_ignore_word`, `contains_ignore_label`, `is_valid_pull` |
| `Settings` | settings.dfy | the comma-list parse, `IGNORE_LABELS`, the `Config` class |
| `Selection` | selection.dfy | `fetch_repository_pulls` of helpers/tools.py |
| `Grouping` | grouping.dfy | a dict of lists, with keys in insertion order |
| `ReviewActivity` | activity.dfy | `get_pull_reviewers_days_ago`, `get_reviwer_debt` |
| `Ranking` | ranking.dfy | `sorted(d, key=len, reverse=True)`, a stable sort |
| `Digest` | digest.dfy | the three `get_*_section` builders of helpers/tools.py |
| `Legacy` | legacy.dfy | the open pull-request section of tools/tools.py |
| `Notify` | notify.dfy | the ok/error decision of a Slack post, and send-if-non-empty |
| `SlackReminder` | slack_reminder.dfy | `GitHubDataProvider` and `cli` of slack_pull_reminder.py |
| `PrReminder` | pr_reminder.dfy | pull-request-reminder.py |
| `GhEvents` | gh_events.dfy | `gh_event_handler`, `review_requested_handler` |

tools/tools.py is an earlier revision of helpers/tools.py. Its settings, rule engine,
selection, comment window and contribution section are the same code, so the same members
model both files. The model table cites both where that matters. The open pull-request
section differs only in its first line; `Legacy` holds that difference. That revision has no
reviewer debt.

In three places the code does something other than what its setting names or the natural
reading of the feature suggest. The model follows the code:

- `REPOSITORIES` reads like an optional filter, but an unset or empty value selects no
  repository at all in slack_pull_reminder.py, not every repository;
- `IGNORE_LABELS` is lower-cased like the other lists, but label names are compared with it
  character for character, without case folding;
- the debt table reads like a count of pull requests per reviewer, but a reviewer listed twice
  on one pull request owes that pull request twice.

Loops that build lists and dictionaries in place are methods whose loop invariants tie the
partial result to a specification function. These methods include:

- `Selection.FetchRepositoryPulls`;
- `ReviewActivity.PullReviewersDaysAgo` and `ReviewActivity.GetReviewerDebt`;
- the section builders;
- `PrReminder.FormatPullRequests` and `PrReminder.CheckOrganization`.

Lemmas then prove what the source promises about those functions. `Settings.Config` is a
class whose loaders set its fields in place.

## Model

| member | source | states |
|---|---|---|
| Text.OccursIff | helpers/tools.py:81 | `needle in hay` holds exactly when `needle` occurs at some index of `hay` |
| Text.LowerIsLowered | helpers/tools.py:79 | a lower-cased title holds no upper-case ASCII letter |
| Text.LoweredIsFixed | slack_pull_reminder.py:42 | lower-casing a string that is already lower-case changes nothing |
| Text.Split | slack_pull_reminder.py:42 | `split(",")` gives one piece more than there are commas, and no piece holds a comma |
| Text.JoinSplit | slack_pull_reminder.py:42 | joining the pieces of `split(sep)` with `sep` gives back the input |
| Text.SplitJoin | slack_pull_reminder.py:42 | splitting a join of comma-free parts gives back the parts |
| Text.TrimStart | slack_pull_reminder.py:42 | `lstrip` keeps a suffix of the input that does not start with a blank, and every character it drops is a blank |
| Text.TrimEnd | slack_pull_reminder.py:42 | `rstrip` keeps a prefix of the input that does not end with a blank, and every character it drops is a blank |
| Text.StripIsSlice | slack_pull_reminder.py:42 | `strip` returns a contiguous slice of its input |
| Text.StripIdempotent | slack_pull_reminder.py:42 | stripping twice is stripping once |
| Text.NatToStringDigits | helpers/tools.py:124 | a rendered count is a non-empty run of decimal digits |
| Text.NatToStringValue | helpers/tools.py:145 | a rendered count reads back as the count, and a positive count has no leading zero |
| Text.IntToStringValue | helpers/tools.py:124 | a rendered pull number starts with a minus sign exactly when it is negative; the digits that follow (or the whole rendering, for a non-negative number) are decimal digits that read back as its magnitude |
| Settings.Lookup | slack_pull_reminder.py:40 | `os.environ.get(name)` is set exactly when the name is in the environment |
| Settings.ParseList | slack_pull_reminder.py:40-53 | an unset or empty variable gives `[]`; otherwise a value with k commas gives k+1 entries |
| Settings.ParsedEntriesAreNormal | slack_pull_reminder.py:42 | every parsed entry is lower-case, has no surrounding blanks and no comma |
| Settings.ReparseNormal | slack_pull_reminder.py:40-53 | normal entries written as a comma list parse back to themselves |
| Settings.ParseListIdempotent | slack_pull_reminder.py:40-53 | re-parsing a parsed list, written back with commas, gives the same list, except that a lone blank entry becomes `[]` |
| Settings.IgnoreLabels | helpers/tools.py:10-12 | `IGNORE_LABELS` is `["wip"]` when the variable is unset or empty, and otherwise the non-empty parsed list; tools/tools.py:11-13 is the same code |
| Settings.Config.constructor | slack_pull_reminder.py:13-15 | after both loaders, each attribute holds its variable, its default or the parsed list; a missing required variable leaves its attribute unset, and a missing GITHUB_API_TOKEN also leaves the organization unset |
| Settings.Config.LoadSlackConfigs | slack_pull_reminder.py:17-30 | sets the token when present, the fixed post URL, the channel or `#general`, and the greeting; the GitHub attributes are unchanged |
| Settings.Config.LoadGithubConfigs | slack_pull_reminder.py:32-53 | sets the token, and the organization only when both GITHUB_API_TOKEN and ORGANIZATION are present; sets the three parsed lists; the Slack attributes are unchanged |
| RuleEngine.AnyOccurs | helpers/tools.py:80-84 | the search loop answers true exactly when some deny word is a substring |
| RuleEngine.ContainsIgnoreWord | helpers/tools.py:78-84 | true iff some deny word occurs in the lower-cased title; never true for an empty deny list; tools/tools.py:79-85 is the same code |
| RuleEngine.ContainsIgnoreLabel | helpers/tools.py:72-76 | true iff some deny-listed label is one of the labels, compared exactly; never true without labels; tools/tools.py:73-77 is the same code |
| RuleEngine.IsValidPull | helpers/tools.py:60-69 | a pull request is rejected iff the title check or the label check fires; a title hit rejects whatever the labels are; tools/tools.py:61-70 is the same code |
| RuleEngine.LabelsAreCaseSensitive | helpers/tools.py:72-76 | a label `WIP` escapes the default deny-list, and a label `wip` is caught |
| RuleEngine.WipTitleCases | helpers/tools.py:60-69 | "WIP: refactor auth" passes the default label list without labels, and is rejected by the title word `wip` or by the label `wip` |
| Selection.SelectedPulls | helpers/tools.py:21-27 | the kept pull requests are exactly the open ones by an allowed author (any author when the allow-list is empty), as a subsequence of the listing |
| Selection.FetchRepositoryPulls | helpers/tools.py:21-27 | the append loop returns exactly `SelectedPulls`; tools/tools.py:22-28 is the same code |
| Selection.SelectedPullsAppend | helpers/tools.py:23-25 | selecting from two listings in a row is selecting from each, in order |
| Selection.NoAllowListKeepsEveryOpenPull | helpers/tools.py:24 | with no allow-list, a listing of open pull requests is kept whole |
| Selection.TwoStageSelection | slack_pull_reminder.py:101-114 | filtering on `open` first and then on the allow-list (when non-empty) selects what the one-pass loop selects |
| Grouping.CreateThenAppendIsAdd | helpers/tools.py:49-52 | `if k not in d: d[k] = []` followed by `d[k].append(v)` is adding `v` under `k` |
| Grouping.GroupPairsValid | helpers/tools.py:38-52 | the dict built pair by pair lists each key once, has exactly its keys in the key list, and holds no empty list |
| Grouping.GroupPairsLists | helpers/tools.py:49-52 | a name is a key iff some pair carries it, and its list is the values paired with it, in order |
| Grouping.GroupPairsKeys | helpers/tools.py:49-51 | the keys are the names in order of first appearance |
| Grouping.GroupPairsTotal | helpers/tools.py:52 | the list lengths add up to the number of pairs filed |
| Grouping.Counts | helpers/tools.py:135 | one `(key, len)` entry per key, in the order of the keys (dict insertion order), which is the order the stable sort starts from |
| Grouping.KeyHasCount | helpers/tools.py:135 | every key appears among the entries with the length of its list |
| ReviewActivity.FileComment | helpers/tools.py:44-52 | one more comment leaves the dict unchanged when it is older than the window start, and otherwise is appended under its author |
| ReviewActivity.PullReviewersDaysAgo | helpers/tools.py:37-55 | the nested loops build exactly `CommentsByAuthor`, the grouping of the in-window comments; tools/tools.py:38-56 is the same code |
| ReviewActivity.CommentsByAuthorLists | helpers/tools.py:37-55 | an author is a key iff they wrote an in-window comment, and their list is their in-window comments in encounter order |
| ReviewActivity.CommentsByAuthorInWindow | helpers/tools.py:45-46 | every filed comment is at or after `now - days`, and is filed under its own author |
| ReviewActivity.CommentsByAuthorTotal | helpers/tools.py:41-52 | the list lengths sum to the number of in-window comments, and the authors come in order of first comment |
| ReviewActivity.GetReviewerDebt | helpers/tools.py:93-105 | the nested loops build exactly `ReviewerDebt`, one pull number per requested-reviewer entry |
| ReviewActivity.DebtIgnoresUnrequestedPulls | helpers/tools.py:85-91 | pull requests without requested reviewers contribute nothing |
| ReviewActivity.PairsWithCopies | helpers/tools.py:99-103 | one pull request files its number under a reviewer once for every time its reviewer list names them |
| ReviewActivity.DebtOfReviewerOwed | helpers/tools.py:93-105 | for any reviewer lists, a reviewer's values are, pull request by pull request in order, its number repeated once per listing of the reviewer, and their count is `TimesRequested`, the number of times any pull request lists them |
| ReviewActivity.TimesRequestedPositive | helpers/tools.py:99-103 | a reviewer is requested a positive number of times iff some pull request lists them |
| ReviewActivity.ReviewerDebtOwed | helpers/tools.py:93-105 | for any reviewer lists, a reviewer is a key iff some pull request lists them, and their list is their owed numbers, of length `TimesRequested` |
| ReviewActivity.TimesRequestedDistinct | helpers/tools.py:99-103 | with duplicate-free reviewer lists, the times a reviewer is requested is the number of pull requests requesting them |
| ReviewActivity.PairsWithValues | helpers/tools.py:99-103 | on a duplicate-free reviewer list, a reviewer gets the pull number once if listed, else nothing; the special case of `PairsWithCopies` |
| ReviewActivity.DebtOfReviewer | helpers/tools.py:93-105 | with duplicate-free reviewer lists, a reviewer's values are the numbers of the pull requests requesting them, in order |
| ReviewActivity.ReviewerDebtCount | helpers/tools.py:93-105 | with duplicate-free reviewer lists, a reviewer is a key iff some pull request requests them, and their count is the number of such pull requests; derived from `ReviewerDebtOwed` |
| ReviewActivity.DuplicateRequestCountsTwice | helpers/tools.py:99-103 | a reviewer listed twice on pull request 7 owes `[7, 7]` |
| Ranking.InsertByCountPerm | helpers/tools.py:135 | inserting adds the entry and loses nothing |
| Ranking.InsertByCountSorted | helpers/tools.py:135 | inserting into a list ranked by non-increasing count keeps it ranked |
| Ranking.InsertByCountStable | helpers/tools.py:135 | inserting places the new entry ahead of the entries that share its count, and keeps their order |
| Ranking.SortByCountDescSorted | helpers/tools.py:135 | the sort returns the same entries by non-increasing count |
| Ranking.SortByCountDescStable | helpers/tools.py:154 | entries with equal counts keep their original (dict key) order, as `sorted(..., reverse=True)` does |
| Ranking.TopIsMaximal | helpers/tools.py:135 | the first entry has the largest count |
| Digest.AgeInDays | helpers/tools.py:115 | the age in days is the floor of the elapsed seconds over 86400, and is non-negative for a past creation time |
| Digest.WaitingOn | helpers/tools.py:116-121 | the waiting-on clause is empty iff there are no requested reviewers, and otherwise starts with ` \| waiting on @` and the first reviewer |
| Digest.WaitingOnTwoReviewers | helpers/tools.py:117-121 | reviewers alice and bob give ` \| waiting on @alice, @bob, ` |
| Digest.OpenPullsSection | helpers/tools.py:107-129 | the section is the header with `len(pulls)`, then one line per pull request, in order, joined by line breaks |
| Digest.PullLineOneLine | helpers/tools.py:124 | `PullLine`, the line of one pull request, holds no line break when the pull request's fields hold none |
| Digest.OpenPullsOneLineEach | helpers/tools.py:127-129 | splitting the section body at line breaks gives back the pull-request lines, one per pull request |
| Digest.Leaderboard | helpers/tools.py:135 | the ranked dict lists every key once with the length of its list, by non-increasing count, stable on ties, and the top entry has the longest list |
| Digest.ReviewContributionSection | helpers/tools.py:131-147 | the section is the header with `days`, one line per author of the ranked board, and the closing line; tools/tools.py:112-131 is the same code |
| Digest.ContributionBoardCounts | helpers/tools.py:134-145 | the contribution board runs by non-increasing count, and each count is the author's number of in-window comments, never zero |
| Digest.TrophyOnlyFirst | helpers/tools.py:140-143 | a line starts with the trophy iff it is the first |
| Digest.ContributionLineBreak | helpers/tools.py:140-145 | of the lines `ContributionLine` gives, only the leader's holds a line break, as its last character, which leaves a blank line after it |
| Digest.ReviewersDebtSection | helpers/tools.py:149-167 | the section is the header, one line per reviewer of the ranked debt board, and the closing line |
| Digest.DebtBoardCounts | helpers/tools.py:153-165 | for any reviewer lists, the debt board runs by non-increasing count, each count is the positive number of times any pull request lists that reviewer, and every requested reviewer is on it |
| Digest.BellOnlyFirst | helpers/tools.py:160-163 | a debt line starts with the bell iff it is the first, whatever emoji the later lines draw, as long as that emoji does not itself start with the bell prefix |
| Digest.DebtLineBreak | helpers/tools.py:160-165 | of the lines `DebtLine` gives, only the first debtor's holds a line break, as its last character |
| Legacy.OpenPullsSection | tools/tools.py:87-110 | the earlier section is its own header with `len(pulls)`, then the same one line per pull request |
| Notify.SendOutcome | slack_pull_reminder.py:142-144 | the post fails iff the answer's `ok` is false, and then with exactly its `error` |
| Notify.Dispatch | slack_pull_reminder.py:152-155 | something is posted iff there is a line; the text starts with the greeting; the outcome is the send outcome |
| Notify.PostedTextCarriesLines | slack_pull_reminder.py:153-154 | the text after the greeting splits back into the lines |
| Notify.NothingToReport | slack_pull_reminder.py:153 | no lines, no post |
| Notify.ChannelNotFound | slack_pull_reminder.py:143-144 | a refused post fails with the error Slack gave |
| SlackReminder.RequiredFetchFollowsConfig | slack_pull_reminder.py:84-85 | `IsRequiredFetch` holds iff REPOSITORIES is set and non-empty and one of its comma pieces, stripped and lower-cased, is the repository's lower-cased name |
| SlackReminder.PaddedUpperCaseEntryNormalizes | slack_pull_reminder.py:42 | the entry ` API` normalizes to `api` |
| SlackReminder.PaddedUpperCaseEntrySelects | slack_pull_reminder.py:84-85 | REPOSITORIES=` API`, lower-cased and stripped at line 42, requires the repository `api` |
| SlackReminder.IsValidTitle | slack_pull_reminder.py:119-125 | a title is invalid iff some deny word occurs in it lower-cased; every title is valid without deny words |
| SlackReminder.FetchRepositoryPulls | slack_pull_reminder.py:87-114 | at most one record per listed pull request; each record is an open pull request of the repository, carries the repository name, the pull request's title, URL and author, and `has_valid_title` of its title |
| SlackReminder.FetchSelectsLikeHelpers | slack_pull_reminder.py:101-114 | the records carry exactly the pull requests that helpers/tools.py selects, in the same order |
| SlackReminder.FetchRecords | slack_pull_reminder.py:88-99 | the records are one `return_obj` record per selected pull request |
| SlackReminder.ToRecordsKeepPulls | slack_pull_reminder.py:88-99 | `ToRecords` keeps each pull request, in order, and each record carries the repository name and the verdict on its own title |
| SlackReminder.FormatValidRecords | slack_pull_reminder.py:116-117 | a line is formatted iff it is `*[owner/repo]* <url\|title - by creator>` of a pull request with a valid title |
| SlackReminder.FormatPullRequestOneLine | slack_pull_reminder.py:116-117 | `FormatPullRequest` gives a line without a line break when the owner and the record's texts hold none |
| SlackReminder.RepositoryLinesSpec | slack_pull_reminder.py:72-82 | a repository contributes a line iff it is required and one of its selected pull requests has a valid title, and the line is that pull request's format |
| SlackReminder.OrganizationPullsSpec | slack_pull_reminder.py:72-82 | a line is in `OrganizationPulls` iff some listed repository contributes it, that is, the repository is required and one of its selected pull requests with a valid title formats to it |
| SlackReminder.OrganizationPullsAppend | slack_pull_reminder.py:72-82 | repositories are reported in listing order |
| SlackReminder.NoRepositoriesNoLines | slack_pull_reminder.py:84-85 | with no repository allow-list, nothing is reported |
| SlackReminder.NothingRequiredNoLines | slack_pull_reminder.py:72-76 | when no listed repository is required, nothing is reported |
| SlackReminder.OrganizationPullsAsWritten | slack_pull_reminder.py:72-82 | the code as written succeeds iff no repository is required, and then reports nothing |
| SlackReminder.AsWrittenAgreesWhenNothingRequired | slack_pull_reminder.py:72-82 | where the code as written succeeds, it agrees with the flattened reading |
| SlackReminder.RequiredRepositoryRaises | slack_pull_reminder.py:78-82 | one required repository with no pull requests makes the code as written raise, while the flattened reading reports nothing |
| SlackReminder.Cli | slack_pull_reminder.py:147-155 | without GITHUB_API_TOKEN or ORGANIZATION the run stops; otherwise nothing is sent without lines, a run with lines stops without SLACK_API_TOKEN, and else the greeting and the lines are posted |
| PrReminder.CheckRepository | pull-request-reminder.py:20-22 | exactly the open pull requests, as a subsequence of the listing |
| PrReminder.DenyListIsLowered | pull-request-reminder.py:7 | the fixed deny list is already lower-case |
| PrReminder.IsValidTitle | pull-request-reminder.py:25-31 | a title is invalid iff `doppins` occurs in it lower-cased |
| PrReminder.TitleCaseIsIrrelevant | pull-request-reminder.py:26-28 | lower-casing a title first does not change the verdict |
| PrReminder.CapitalizedDoppinsIsRejected | pull-request-reminder.py:25-31 | "[DOPPINS] Upgrade lodash" is rejected |
| PrReminder.SameVerdict | pull-request-reminder.py:25-31 | this script and slack_pull_reminder.py judge every title alike given the same deny list |
| PrReminder.FormattedLines | pull-request-reminder.py:34-44 | there are never more lines than pull requests |
| PrReminder.FormattedLinesSpec | pull-request-reminder.py:34-44 | a line is produced iff it is `*[owner/repo]* <url\|title - by creator>` of a pull request with a valid title |
| PrReminder.SameTemplate | pull-request-reminder.py:40-41 | `FormatLine` fills the template exactly as slack_pull_reminder.py's `FormatPullRequest` does for the pull request's record |
| PrReminder.FormatPullRequests | pull-request-reminder.py:34-44 | the append loop returns exactly `FormattedLines` |
| PrReminder.CheckOrganization | pull-request-reminder.py:47-57 | the loop returns every repository's lines, repository after repository, with no repository filter |
| PrReminder.OrganizationLinesSpec | pull-request-reminder.py:47-57 | a line is in `OrganizationLines` iff some repository has an open pull request with a valid title whose template, filled with that repository's name, is the line |
| PrReminder.RunReminder | pull-request-reminder.py:75-79 | a missing SLACK_API_TOKEN, GITHUB_API_TOKEN or ORGANIZATION stops the script; otherwise it posts the greeting and the lines iff there is a line |
| PrReminder.FormattedLinesAsRecords | pull-request-reminder.py:34-44 | the lines are the newer script's formatted valid-title records for the same pull requests |
| PrReminder.ScriptsAgree | pull-request-reminder.py:47-57 | with every repository allowed, no author list and the same deny list, both scripts report the same lines |
| PrReminder.NoAllowListIsOpenFilter | pull-request-reminder.py:20-22 | `check_repository` selects what helpers/tools.py selects without an allow-list |
| GhEvents.ReviewRequestedHandler | helpers/gh_events.py:14-35 | the handler builds a message iff the action is one of the two review-request actions, and the message ends with the pull request's link |
| GhEvents.RequestNamesSender | helpers/gh_events.py:29-30 | a review request's message starts with the sender's login |
| GhEvents.RemovalIsPhraseThenLink | helpers/gh_events.py:31-32 | a removal always yields a message: the fixed phrase `You are removed as a reviewer for PR `, then exactly the pull request's link |
| GhEvents.GhEventHandler | helpers/gh_events.py:4-9 | an event is handled iff its action is `review_requested` or `review_request_removed` |
| GhEvents.DispatchOnlyHandledActions | helpers/gh_events.py:4-9 | whatever is logged is the handler's message, and every ignored action would have hit the handler's unbound message |
| GhEvents.PullStringExample | helpers/gh_events.py:27 | pull request 42 "Fix" at `u` renders as `[#42: Fix](u)` |
| GhEvents.RequestMessageExample | helpers/gh_events.py:29-30 | carol's request logs `carol requested you to CR [#42: Fix](u)` |
| GhEvents.RemovalMessageExample | helpers/gh_events.py:31-32 | the removal logs `You are removed as a reviewer for PR [#42: Fix](u)` |
| GhEvents.PullStringNumber | helpers/gh_events.py:27 | `PullString` opens with `[#` and the pull number's digits up to the first `:`, which read back as the number, and ends with the link to the pull request's address |

## Left out

- Network I/O is not modelled. This covers `requests.post` in both send functions, the payload they build, and helpers/message.py. The Slack answer is the parameter `ack`; only its ok/error decision is modelled.
- The code host client (github3) is not modelled. Its listings are parameters, and `fetch_pull_comments` is the per-pull-request comment lists handed to `PullReviewersDaysAgo`.
- `datetime.utcnow()` is the parameter `now`. Timestamps are whole seconds, and the removal of time zones is not modelled.
- `get_random_emoji` is random and its module is not part of this model. It is the parameter `emojiAt`, the emoji for each rank.
- `.encode('utf-8')` of the title (helpers/tools.py:113, tools/tools.py:93) is not modelled. Under Python 3 it would render as `b'...'`; the model renders the title as text.
- Logging is not modelled: every `logger` call, helpers/logger.py, and the logged reminder of helpers/gh_events.py:35. `GhEvents.GhEventHandler` returns the message that would be logged.
- Text is ASCII only. `Lower` folds `A`-`Z`, and `Strip` removes ASCII blanks; Unicode case folding and Unicode whitespace are not modelled.
- Python 3 consumes the `map` object at helpers/tools.py:64 when `in` searches it at helpers/tools.py:74. A second deny-listed label could then miss a label that the first search passed. The model reads labels as a list, as under Python 2, for both revisions.
- `ConfigError` is built but never raised (slack_pull_reminder.py:22, 38). A missing required variable leaves its attribute unset (`None`). The run stops where that attribute is first read.
- Default arguments are not modelled: `days = 1` of `get_pull_reviewers_days_ago` and `get_review_contribution_section` (helpers/tools.py:37, 131; tools/tools.py:38, 112) and `owner=""` of `format_pull_request` (slack_pull_reminder.py:116). The model takes them as ordinary parameters, so a call that omits one is the same member called with `1` or `""`.
- Missing keys in a webhook event are not modelled. Every event carries all the fields the handler reads.
- app.py, helpers/config.py and setup.py are not part of this model. They are web glue, a second reading of the same environment, and packaging.
- SlackReminder.Cli: uses the flattened `OrganizationPulls` rather than the code as written. The code as written raises as soon as one repository is required; see Findings.

## Findings

| source | as written | input that shows it | evidently intended | confidence | as-written member | corrected member |
|---|---|---|---|---|---|---|
| slack_pull_reminder.py:72-82 | `open_prs` holds one list of records per required repository, and the second comprehension reads `.has_valid_title` on each of those lists, which raises `AttributeError` | REPOSITORIES=api and an organization whose only repository `api` has no pull request | flatten the per-repository lists, then format the records with a valid title | not executed | SlackReminder.OrganizationPullsAsWritten, SlackReminder.RequiredRepositoryRaises | SlackReminder.OrganizationPulls, SlackReminder.OrganizationPullsSpec, SlackReminder.RepositoryLinesSpec |
