/**
 * tools/tools.py, the earlier revision of helpers/tools.py. Its rule engine, selection,
 * comment window and contribution section are the same code and are modelled once
 * (RuleEngine, Selection, ReviewActivity, Digest); it has no reviewer debt. What differs is
 * the first line of the open pull-request section, which starts with a line break rather
 * than a space and two line breaks.
 */
module Legacy {
  import opened Text
  import opened Seqs
  import opened Records
  import opened ReviewActivity
  import Digest

  /** The earlier header: a line break and a space before the shared banner. */
  function OpenPullsHead(count: nat): string {
    "\n " + Digest.OpenPullsBanner(count)
  }

  /** `get_open_pulls_section` of tools/tools.py: the earlier header, then one line per pull request. */
  method OpenPullsSection(now: int, pulls: seq<Pull>) returns (section: string)
    ensures section == OpenPullsHead(|pulls|) + Join("\n", Digest.PullLines(now, pulls))
  {
    var sectionHead := OpenPullsHead(|pulls|);
    var lines: seq<string> := [];
    for i := 0 to |pulls|
      invariant lines == Digest.PullLines(now, pulls[..i])
    {
      var pull := pulls[i];
      var pullAge := (now - pull.createdAt) / SecondsPerDay;
      var waitingOn := "";
      if pull.reviewers != [] {
        var requestedReviewers := Join(", ", Digest.Mentions(pull.reviewers));
        waitingOn := " | waiting on " + requestedReviewers + ", ";
      }
      assert pullAge == Digest.AgeInDays(now, pull.createdAt);
      assert waitingOn == Digest.WaitingOn(pull.reviewers);
      var line := Digest.LineTemplate(pull.url, pull.title, pull.login, pull.number, pullAge, waitingOn);
      assert line == Digest.PullLine(now, pull);
      MapSnoc(Digest.PullLineAt(now), pulls, i);
      lines := lines + [line];
    }
    assert pulls[..|pulls|] == pulls;
    section := sectionHead + Join("\n", lines);
  }
}
