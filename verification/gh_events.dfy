/**
 * helpers/gh_events.py: a code-host webhook event about review requests becomes a reminder
 * text for the reviewer concerned. Only the two review-request actions reach the handler;
 * the text is only logged, since the call that would send it is commented out.
 */
module GhEvents {
  import opened Wrappers
  import opened Text

  /** The fields of the event's `pull_request` object that the handler reads. */
  datatype PullRef = PullRef(number: int, url: string, title: string)

  /** A webhook event: its action, pull request, requested reviewer's login and sender's login. */
  datatype Event = Event(action: string, pullRequest: PullRef, requestedReviewer: string, sender: string)

  /** What `gh_event_handler` does with an event. */
  datatype Handled = Ignored | Logged(message: string)

  const ReviewRequested: string := "review_requested"
  const ReviewRequestRemoved: string := "review_request_removed"

  /** What a removal message says before the link. */
  const RemovalPhrase: string := "You are removed as a reviewer for PR "

  /** `'[#{0}: {1}]({2})'`: a Markdown link to the pull request. */
  function PullString(p: PullRef): string {
    "[#" + IntToString(p.number) + ": " + p.title + "](" + p.url + ")"
  }

  /**
   * The link text opens with the pull request's number, which reads back from the digits
   * between "[#" and the first ':'; the link target is the pull request's address.
   */
  lemma PullStringNumber(p: PullRef)
    requires p.number >= 0
    ensures var s, k := PullString(p), |NatToString(p.number)|;
            && IsPrefix("[#", s) && 2 + k < |s| && s[2 + k] == ':'
            && (forall j :: 2 <= j < 2 + k ==> '0' <= s[j] <= '9')
            && DigitsValue(s[2..2 + k]) == p.number
            && IsSuffix("](" + p.url + ")", s)
  {
    NatToStringDigits(p.number);
    NatToStringValue(p.number);
    LinkShape(NatToString(p.number), p.title, p.url);
  }

  /** The shape of a link `[#<digits>: <title>](<url>)`. */
  lemma LinkShape(digits: string, title: string, url: string)
    requires forall c :: c in digits ==> '0' <= c <= '9'
    ensures var s := "[#" + digits + ": " + title + "](" + url + ")";
            && IsPrefix("[#", s) && 2 + |digits| < |s| && s[2..2 + |digits|] == digits && s[2 + |digits|] == ':'
            && (forall j :: 2 <= j < 2 + |digits| ==> '0' <= s[j] <= '9')
            && IsSuffix("](" + url + ")", s)
  {
    var s := "[#" + digits + ": " + title + "](" + url + ")";
    var rest := ": " + title + "](" + url + ")";
    assert s == "[#" + digits + rest;
    forall j | 2 <= j < 2 + |digits|
      ensures '0' <= s[j] <= '9'
    {
      assert s[j] == digits[j - 2];
      assert digits[j - 2] in digits;
    }
    var tail := "](" + url + ")";
    assert s == ("[#" + digits + ": " + title) + tail;
  }

  /**
   * `review_requested_handler`: the reminder text for the two review-request actions; any other
   * action leaves `reminder_message` unbound, which Python reports when it is logged.
   */
  function ReviewRequestedHandler(e: Event): (r: Result<string, string>)
    ensures r.Success? <==> e.action == ReviewRequested || e.action == ReviewRequestRemoved
    ensures r.Success? ==> IsSuffix(PullString(e.pullRequest), r.value)
  {
    var pullStr := PullString(e.pullRequest);
    if e.action == ReviewRequested then
      var message := e.sender + " requested you to CR " + pullStr;
      assert message[|message| - |pullStr|..] == pullStr;
      Success(message)
    else if e.action == ReviewRequestRemoved then
      var message := RemovalPhrase + pullStr;
      assert message[|message| - |pullStr|..] == pullStr;
      Success(message)
    else Failure("UnboundLocalError: local variable 'reminder_message' referenced before assignment")
  }

  /** A review request names its sender first. */
  lemma RequestNamesSender(e: Event)
    requires e.action == ReviewRequested
    ensures ReviewRequestedHandler(e).Success? && IsPrefix(e.sender, ReviewRequestedHandler(e).value)
  {
    var message := ReviewRequestedHandler(e).value;
    assert message == e.sender + (" requested you to CR " + PullString(e.pullRequest));
    assert message[..|e.sender|] == e.sender;
  }

  /** A removal names no one: it is the fixed phrase, then exactly the link. */
  lemma RemovalIsPhraseThenLink(e: Event)
    requires e.action == ReviewRequestRemoved
    ensures ReviewRequestedHandler(e).Success?
    ensures var message := ReviewRequestedHandler(e).value;
            IsPrefix(RemovalPhrase, message) && message[|RemovalPhrase|..] == PullString(e.pullRequest)
  {
    var message := ReviewRequestedHandler(e).value;
    assert message == RemovalPhrase + PullString(e.pullRequest);
    assert message[..|RemovalPhrase|] == RemovalPhrase;
  }

  /** `s` ends with `t`. */
  predicate IsSuffix(t: string, s: string) {
    |t| <= |s| && s[|s| - |t|..] == t
  }

  /** `gh_event_handler`: hand review-request events to the handler, ignore every other action. */
  function GhEventHandler(e: Event): (h: Handled)
    ensures h.Logged? <==> e.action == ReviewRequested || e.action == ReviewRequestRemoved
  {
    if e.action == ReviewRequested || e.action == ReviewRequestRemoved then
      Logged(ReviewRequestedHandler(e).value)
    else Ignored
  }

  /** The dispatcher never reaches the handler's unbound-message path: whatever it logs, the handler produced. */
  lemma DispatchOnlyHandledActions(e: Event)
    ensures GhEventHandler(e).Logged? ==> ReviewRequestedHandler(e) == Success(GhEventHandler(e).message)
    ensures GhEventHandler(e).Ignored? ==> ReviewRequestedHandler(e).Failure?
  {
  }

  lemma FortyTwo()
    ensures IntToString(42) == "42"
  {
    assert NatToString(4) == "4";
    assert NatToString(42) == NatToString(4) + [DigitChar(2)];
  }

  /** The link of pull request 42, "Fix", at "u". */
  lemma PullStringExample()
    ensures PullString(PullRef(42, "u", "Fix")) == "[#42: Fix](u)"
  {
    FortyTwo();
    assert "[#" + "42" + ": " + "Fix" + "](" + "u" + ")" == "[#42: Fix](u)";
  }

  /** Carol asks for a review of pull request 42: the sender's login, the fixed phrase, the link. */
  lemma RequestMessageExample(e: Event)
    requires e == Event(ReviewRequested, PullRef(42, "u", "Fix"), "dave", "carol")
    ensures GhEventHandler(e) == Logged("carol" + " requested you to CR " + "[#42: Fix](u)")
  {
    PullStringExample();
  }

  /** The removal message for the same pull request: the fixed phrase, then the link. */
  lemma RemovalMessageExample(e: Event)
    requires e == Event(ReviewRequestRemoved, PullRef(42, "u", "Fix"), "dave", "carol")
    ensures GhEventHandler(e) == Logged("You are removed as a reviewer for PR " + "[#42: Fix](u)")
  {
    PullStringExample();
  }
}
