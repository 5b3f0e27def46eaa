/**
 * The rule engine of helpers/tools.py (and of the identical code in tools/tools.py):
 * a pull request is rejected when a deny-listed word occurs in its lower-cased title
 * or when a deny-listed label is one of its label names.
 */
module RuleEngine {
  import opened Text
  import opened Records

  /** The label deny-list used when IGNORE_LABELS is unset or empty. */
  const DefaultIgnoreLabels: seq<string> := ["wip"]

  /** Some word of `words` is a substring of `text`. */
  function AnyOccurs(words: seq<string>, text: string): (r: bool)
    ensures r <==> exists w :: w in words && Occurs(w, text)
    decreases |words|
  {
    if words == [] then false
    else
      var rest := AnyOccurs(words[1..], text);
      assert rest ==> exists w :: w in words && Occurs(w, text);
      assert (exists w :: w in words && Occurs(w, text)) ==> (Occurs(words[0], text) || rest);
      Occurs(words[0], text) || rest
  }

  /** `contains_ignore_word`: some deny-listed word is a substring of the lower-cased title. */
  function ContainsIgnoreWord(ignoreWords: seq<string>, title: string): (r: bool)
    ensures r <==> exists w :: w in ignoreWords && Occurs(w, Lower(title))
    ensures ignoreWords == [] ==> !r
  {
    AnyOccurs(ignoreWords, Lower(title))
  }

  /** `contains_ignore_label`: some deny-listed label is, character for character, one of the labels. */
  function ContainsIgnoreLabel(ignoreLabels: seq<string>, labels: seq<string>): (r: bool)
    ensures r <==> exists l :: l in ignoreLabels && l in labels
    ensures labels == [] ==> !r
    decreases |ignoreLabels|
  {
    if ignoreLabels == [] then false
    else
      assert ignoreLabels == [ignoreLabels[0]] + ignoreLabels[1..];
      ignoreLabels[0] in labels || ContainsIgnoreLabel(ignoreLabels[1..], labels)
  }

  /** `is_valid_pull`: the title check runs first, then the label check; either one rejects. */
  function IsValidPull(ignoreWords: seq<string>, ignoreLabels: seq<string>, p: Pull): (r: bool)
    ensures !r <==> (exists w :: w in ignoreWords && Occurs(w, Lower(p.title)))
                    || (exists l :: l in ignoreLabels && l in p.labels)
    ensures ContainsIgnoreWord(ignoreWords, p.title) ==> !r
  {
    if ContainsIgnoreWord(ignoreWords, p.title) then false
    else if ContainsIgnoreLabel(ignoreLabels, p.labels) then false
    else true
  }

  /** Labels are compared without case folding: a label spelled "WIP" escapes the default deny-list. */
  lemma LabelsAreCaseSensitive()
    ensures !ContainsIgnoreLabel(DefaultIgnoreLabels, ["WIP"])
    ensures ContainsIgnoreLabel(DefaultIgnoreLabels, ["bug", "wip"])
  {
    assert "wip" != "WIP";
    assert "wip" in ["bug", "wip"];
  }

  /**
   * A draft titled "WIP: refactor auth" with no labels passes when no title words are
   * configured, even under the default label deny-list; it is rejected once "wip" is a
   * title word, or once it carries the "wip" label.
   */
  lemma WipTitleCases(p: Pull)
    requires p.title == "WIP: refactor auth"
    ensures p.labels == [] ==> IsValidPull([], DefaultIgnoreLabels, p)
    ensures !IsValidPull(["wip"], [], p)
    ensures p.labels == ["wip"] ==> !IsValidPull([], DefaultIgnoreLabels, p)
  {
    assert Lower(p.title)[..3] == "wip";
    assert Occurs("wip", Lower(p.title));
    assert "wip" in ["wip"];
  }
}
