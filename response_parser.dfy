/**
 * `mapCategoryToType` and `parseAnalysisResponse`: the raw issues returned by
 * the analyze client become located findings over the analysed content.
 */
module ResponseParser {
  import opened Wrappers
  import opened JsString
  import opened Editor

  /**
   * One element of the issue array as the parser sees it. A `None` text or
   * category stands for a property that is absent (`undefined`); an element
   * that is not an object has every property absent.
   */
  datatype RawIssue = RawIssue(text: Option<string>, category: Option<string>, suggestion: string)

  /** The decoded JSON payload: an array of issues, or any other JSON value. */
  datatype Payload = IssueArray(issues: seq<RawIssue>) | NotAnArray

  /** `mapCategoryToType`; an absent category matches no case and takes the default. */
  function MapCategoryToType(category: Option<string>): (k: Kind)
    ensures k == Assumption <==> category == Some("CAPABILITY_ASSUMPTION")
    ensures k == Technical <==> category == Some("UNDERSPECIFIED_PARAMETERS")
    ensures category == Some("AMBIGUOUS_INSTRUCTION") || category == Some("CONFLICTING_DIRECTIVES")
      ==> k == Ambiguity
  {
    match category
    case Some("CAPABILITY_ASSUMPTION") => Assumption
    case Some("AMBIGUOUS_INSTRUCTION") => Ambiguity
    case Some("CONFLICTING_DIRECTIVES") => Ambiguity
    case Some("UNDERSPECIFIED_PARAMETERS") => Technical
    case _ => Ambiguity
  }

  /** The explanation the parser writes for every finding of a category. */
  function Explanation(k: Kind): string
  {
    "This " + k.Name() + " issue might cause misalignment between your intent and the LLM's interpretation."
  }

  /**
   * The finding for one issue whose text is `text`: `start` is the first
   * occurrence of the text in the content, 0 when there is none; `end` is
   * `start + length` computed from the unclamped index, then clamped at 0.
   */
  function Locate(content: string, text: string, issue: RawIssue): (a: Analysis)
    ensures a.text == text && a.suggestion == issue.suggestion
    ensures a.kind == MapCategoryToType(issue.category) && a.explanation == Explanation(a.kind)
    ensures Occurs(content, text) ==>
      a.start == IndexOf(content, text) && 0 <= a.start <= a.end <= |content|
      && content[a.start..a.end] == text
    ensures !Occurs(content, text) ==>
      |text| >= 1 && a.start == 0 && a.end == |text| - 1
  {
    var start := IndexOf(content, text);
    var end := start + |text|;
    assert |text| == 0 ==> OccursAt(content, text, 0);
    assert start >= 0 ==> start + |text| <= |content| && content[start..end] == text;
    var kind := MapCategoryToType(issue.category);
    Analysis(if start >= 0 then start else 0, if end >= 0 then end else 0,
             kind, text, issue.suggestion, Explanation(kind))
  }

  /** Every issue has a text. */
  predicate AllHaveText(issues: seq<RawIssue>)
  {
    forall i :: 0 <= i < |issues| ==> issues[i].text.Some?
  }

  /**
   * The `map` over the issues. Reading the length of an absent text throws,
   * which abandons the whole map: the result is `None` then.
   */
  function MapIssues(content: string, issues: seq<RawIssue>): (r: Option<seq<Analysis>>)
    ensures r.Some? <==> AllHaveText(issues)
    ensures r.Some? ==> |r.value| == |issues|
    ensures r.Some? ==>
      forall i :: 0 <= i < |issues| ==> r.value[i] == Locate(content, issues[i].text.value, issues[i])
  {
    if issues == [] then Some([])
    else if issues[0].text.None? then None
    else
      var rest := MapIssues(content, issues[1..]);
      if rest.None? then
        assert !AllHaveText(issues) by {
          var j :| 0 <= j < |issues[1..]| && issues[1..][j].text.None?;
          assert issues[j + 1].text.None?;
        }
        None
      else
        var head := Locate(content, issues[0].text.value, issues[0]);
        assert forall i :: 1 <= i < |issues| ==> issues[i] == issues[1..][i - 1];
        Some([head] + rest.value)
  }

  /**
   * `parseAnalysisResponse`: a payload that is not an array gives no
   * findings; otherwise one finding per issue, in order; any issue without a
   * text makes the result empty (the `catch` branch).
   */
  function ParseAnalysisResponse(content: string, payload: Payload): (found: seq<Analysis>)
    ensures payload.NotAnArray? ==> found == []
    ensures payload.IssueArray? && !AllHaveText(payload.issues) ==> found == []
    ensures payload.IssueArray? && AllHaveText(payload.issues) ==>
      |found| == |payload.issues|
      && forall i :: 0 <= i < |found| ==>
           found[i] == Locate(content, payload.issues[i].text.value, payload.issues[i])
  {
    match payload
    case NotAnArray => []
    case IssueArray(issues) =>
      match MapIssues(content, issues)
      case Some(found) => found
      case None => []
  }

  /**
   * The worked example: the text "vague" in "this is vague wording", with
   * category AMBIGUOUS_INSTRUCTION, is found at [8, 13) as an ambiguity.
   */
  lemma VagueWordingExample()
    ensures var found := ParseAnalysisResponse("this is vague wording",
        IssueArray([RawIssue(Some("vague"), Some("AMBIGUOUS_INSTRUCTION"), "S")]));
      |found| == 1 && found[0].start == 8 && found[0].end == 13
      && found[0].kind == Ambiguity && found[0].suggestion == "S" && found[0].text == "vague"
  {
    var content := "this is vague wording";
    assert OccursAt(content, "vague", 8);
    forall i | 0 <= i < 8 ensures !OccursAt(content, "vague", i) {
      assert content[i] != 'v';
    }
  }
}
