/**
 * The last step of both reminder scripts: post the digest to Slack only when there is at
 * least one line, and turn Slack's answer into success or an error carrying Slack's own
 * error string (`send` / `send_to_slack`, `cli` / `main`). The HTTP request itself is not
 * modelled; Slack's JSON answer is the parameter `ack`.
 */
module Notify {
  import opened Wrappers
  import opened Text

  /** The fields of Slack's JSON answer that the scripts read. */
  datatype Ack = Ack(ok: bool, error: string)

  /** What one run of a script ends with. */
  datatype RunOutcome =
    | Skipped                                    // no line: nothing is posted
    | Posted(text: string, sent: Outcome<string>) // the digest was posted; `sent` is the answer's verdict
    | Aborted(reason: string)                    // the script stops before posting (a missing setting)

  /** `if not answer['ok']: raise Exception(answer['error'])`. */
  function SendOutcome(ack: Ack): (r: Outcome<string>)
    ensures r.Fail? <==> !ack.ok
    ensures r.Fail? ==> r.error == ack.error
  {
    if !ack.ok then Fail(ack.error) else Pass
  }

  /** Post `initial` followed by the lines joined with line breaks, but only if there is a line. */
  function Dispatch(initial: string, lines: seq<string>, ack: Ack): (r: RunOutcome)
    ensures !r.Aborted?
    ensures r.Posted? <==> lines != []
    ensures r.Posted? ==> IsPrefix(initial, r.text) && r.sent == SendOutcome(ack)
  {
    if lines != [] then Posted(initial + Join("\n", lines), SendOutcome(ack)) else Skipped
  }

  /**
   * The posted text is the greeting followed by the lines: cutting the greeting off and
   * splitting at line breaks gives back exactly the lines, when none holds a line break.
   */
  lemma PostedTextCarriesLines(initial: string, lines: seq<string>, ack: Ack)
    requires lines != []
    requires forall i :: 0 <= i < |lines| ==> '\n' !in lines[i]
    ensures var r := Dispatch(initial, lines, ack);
            r.Posted? && Split(r.text[|initial|..], '\n') == lines
  {
    var r := Dispatch(initial, lines, ack);
    assert r.text[|initial|..] == Join("\n", lines);
    SplitJoin(lines, '\n');
  }

  /** With no line to report, nothing is posted, whatever Slack would have answered. */
  lemma NothingToReport(initial: string, ack: Ack)
    ensures Dispatch(initial, [], ack) == Skipped
  {
  }

  /** Slack refusing the post with `channel_not_found` fails the run with that very error. */
  lemma ChannelNotFound(initial: string, lines: seq<string>)
    requires lines != []
    ensures Dispatch(initial, lines, Ack(false, "channel_not_found")).sent == Fail("channel_not_found")
  {
  }
}
