/**
 * The heuristic that flags subjective wording in the event description:
 * five patterns, each an alternation of literal phrases, tried in order
 * until one matches.
 */
module Objectivity {
  import opened Text

  /**
   * The five pattern groups: absolute frequency, intent, certainty,
   * reading other people's minds, and persecution.
   */
  const SubjectivePatterns: seq<seq<string>> := [
    ["总是", "从来", "永远", "一直都", "每次都"],
    ["故意", "有意", "成心"],
    ["就是", "明显", "显然", "肯定"],
    ["他觉得", "她认为", "他们以为"],
    ["针对我", "为了气我", "看不起我"]
  ]

  /** The fixed hint shown while the event description is flagged. */
  const Hint: string := "检测到主观描述。试着用\"发生了什么\"代替\"ta为什么这样做\""

  /** `pattern.test(text)` for a pattern that is an alternation of literal phrases. */
  predicate Test(pattern: seq<string>, text: string) {
    exists j | 0 <= j < |pattern| :: Contains(text, pattern[j])
  }

  /** The text contains at least one phrase of one of the five groups. */
  ghost predicate Subjective(text: string) {
    exists k, j :: 0 <= k < |SubjectivePatterns| && 0 <= j < |SubjectivePatterns[k]|
      && Contains(text, SubjectivePatterns[k][j])
  }

  /** Tries the groups in order and stops at the first one that matches. */
  method CheckObjectivity(text: string) returns (flagged: bool)
    ensures flagged <==> Subjective(text)
  {
    var k := 0;
    while k < |SubjectivePatterns|
      invariant 0 <= k <= |SubjectivePatterns|
      invariant forall k' :: 0 <= k' < k ==> !Test(SubjectivePatterns[k'], text)
    {
      if Test(SubjectivePatterns[k], text) {
        return true;
      }
      k := k + 1;
    }
    return false;
  }

  /** Appending or prepending text never clears the flag. */
  lemma SubjectiveInContext(before: string, text: string, after: string)
    requires Subjective(text)
    ensures Subjective(before + text + after)
  {
    var k, j :| 0 <= k < |SubjectivePatterns| && 0 <= j < |SubjectivePatterns[k]|
      && Contains(text, SubjectivePatterns[k][j]);
    ContainsInContext(before, text, after, SubjectivePatterns[k][j]);
  }

  /** The counter-example in the step-2 hint is flagged (it says 故意). */
  lemma HintCounterExampleFlagged()
    ensures Subjective("同事故意针对我，看不起我的能力")
  {
    var text := "同事故意针对我，看不起我的能力";
    assert OccursAt(text, SubjectivePatterns[1][0], 2);
  }

  /** "He always targets me" is flagged (it says 总是). */
  lemma AlwaysTargetsMeFlagged()
    ensures Subjective("他总是针对我")
  {
    assert OccursAt("他总是针对我", SubjectivePatterns[0][0], 1);
  }

  /** The first character of every phrase of every group. */
  const PhraseInitials: set<char> :=
    {'总', '从', '永', '一', '每', '故', '有', '成', '就', '明', '显', '肯', '他', '她', '针', '为', '看'}

  /** A text that uses no phrase's first character is not flagged. */
  lemma NoInitialsNotSubjective(text: string)
    requires forall i :: 0 <= i < |text| ==> text[i] !in PhraseInitials
    ensures !Subjective(text)
  {
    forall k, j, i | 0 <= k < |SubjectivePatterns| && 0 <= j < |SubjectivePatterns[k]|
      && 0 <= i <= |text| - |SubjectivePatterns[k][j]|
      ensures !OccursAt(text, SubjectivePatterns[k][j], i)
    {
      var p := SubjectivePatterns[k][j];
      assert |p| > 0 && p[0] in PhraseInitials;
      assert i + |p| <= |text| ==> text[i..i + |p|][0] == text[i];
    }
  }

  /**
   * A neutral sentence that uses 有 (in 没有) without saying 有意 is not
   * flagged: no phrase occurs at any position.
   */
  lemma NotAdoptedNotFlagged()
    ensures !Subjective("同事在会议上没有采纳我的方案")
  {
    var text := "同事在会议上没有采纳我的方案";
    forall k, j, i | 0 <= k < |SubjectivePatterns| && 0 <= j < |SubjectivePatterns[k]|
      && 0 <= i <= |text| - |SubjectivePatterns[k][j]|
      ensures !OccursAt(text, SubjectivePatterns[k][j], i)
    {
      var p := SubjectivePatterns[k][j];
      assert |p| >= 2;
      assert text[i..i + |p|][0] == text[i] && text[i..i + |p|][1] == text[i + 1];
    }
  }

  /** The example in the step-2 hint is not flagged. */
  lemma HintExampleNotFlagged()
    ensures !Subjective("同事当着大家的面否定了我的方案")
  {
    var text := "同事当着大家的面否定了我的方案";
    assert forall i :: 0 <= i < |text| ==> text[i] !in PhraseInitials;
    NoInitialsNotSubjective(text);
  }
}
