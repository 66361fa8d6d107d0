/**
 * The document one run of the five-step workflow fills in (`emotionData`),
 * and the pure rules the step handlers apply to it: the emotion-tag toggle,
 * the gates on the forward buttons, the list of emotions sent for analysis,
 * the merge of the analysis result, and the stamping of a saved record.
 */
module Session {
  import opened Wrappers
  import opened Text

  datatype ActionItem = ActionItem(action: string, effect: string)

  datatype EmotionData = EmotionData(
    emotions: seq<string>,
    customEmotion: string,
    event: string,
    need: string,
    uncontrollable: seq<string>,
    controllable: seq<string>,
    actions: seq<ActionItem>,
    minAction: string,
    timestamp: Option<int>)

  /** The three fields the analysis service fills in. */
  datatype AnalysisResult = AnalysisResult(
    uncontrollable: seq<string>,
    controllable: seq<string>,
    actions: seq<ActionItem>)

  /** What is sent to the analysis service. */
  datatype AnalysisRequest = AnalysisRequest(emotions: seq<string>, event: string, need: string)

  /** The emotion tags offered at step 1. */
  const Catalog: seq<string> := [
    "生气", "愤怒", "不安", "焦虑", "恐惧", "难过", "委屈",
    "失落", "羞愧", "嫉妒", "孤独", "无助", "烦躁"
  ]

  const MaxSelected := 3
  /** The custom-emotion input's `maxLength`. */
  const MaxCustomLength := 10

  /** The document a new or reset session starts from. */
  const Empty := EmotionData([], "", "", "", [], [], [], "", None)

  predicate NoDuplicates(s: seq<string>) {
    forall i, j :: 0 <= i < j < |s| ==> s[i] != s[j]
  }

  /** At most three distinct catalog tags. */
  predicate SelectionValid(s: seq<string>) {
    |s| <= MaxSelected && NoDuplicates(s) && forall i :: 0 <= i < |s| ==> s[i] in Catalog
  }

  /** What holds of the live document at every step: a valid selection, a short custom label, no timestamp. */
  predicate DataValid(d: EmotionData) {
    SelectionValid(d.emotions) && |d.customEmotion| <= MaxCustomLength && d.timestamp == None
  }

  /** Putting a new element in front keeps a list free of duplicates. */
  lemma ConsNoDuplicates(x: string, t: seq<string>)
    requires x !in t && NoDuplicates(t)
    ensures NoDuplicates([x] + t)
  {
    var s := [x] + t;
    forall i, j | 0 <= i < j < |s| ensures s[i] != s[j] {
      if i == 0 { assert s[j] == t[j - 1]; } else { assert s[i] == t[i - 1] && s[j] == t[j - 1]; }
    }
  }

  /** Putting a new element at the end keeps a list free of duplicates. */
  lemma SnocNoDuplicates(t: seq<string>, x: string)
    requires x !in t && NoDuplicates(t)
    ensures NoDuplicates(t + [x])
  {
    var s := t + [x];
    forall i, j | 0 <= i < j < |s| ensures s[i] != s[j] {
      assert s[i] == t[i];
      if j < |t| { assert s[j] == t[j]; }
    }
  }

  /** `s.filter(e => e !== x)`. */
  function Without(s: seq<string>, x: string): (r: seq<string>)
    ensures forall y :: y in r <==> y in s && y != x
    ensures multiset(r) == multiset(s)[x := 0]
    ensures |r| <= |s|
  {
    if s == [] then []
    else
      var rest := Without(s[1..], x);
      assert s == [s[0]] + s[1..];
      if s[0] == x then rest else [s[0]] + rest
  }

  /** Filtering keeps a list free of duplicates. */
  lemma {:induction false} WithoutNoDuplicates(s: seq<string>, x: string)
    requires NoDuplicates(s)
    ensures NoDuplicates(Without(s, x))
  {
    if s != [] {
      WithoutNoDuplicates(s[1..], x);
      if s[0] != x {
        assert s[0] !in s[1..];
        ConsNoDuplicates(s[0], Without(s[1..], x));
      }
    }
  }

  /** Filtering works element by element. */
  lemma {:induction false} WithoutDistributes(a: seq<string>, b: seq<string>, x: string)
    ensures Without(a + b, x) == Without(a, x) + Without(b, x)
  {
    if a == [] {
      assert a + b == b;
    } else {
      assert (a + b)[0] == a[0] && (a + b)[1..] == a[1..] + b;
      WithoutDistributes(a[1..], b, x);
    }
  }

  /** In a list without duplicates, filtering out an element removes exactly its one position. */
  lemma WithoutAt(s: seq<string>, i: int)
    requires NoDuplicates(s) && 0 <= i < |s|
    ensures Without(s, s[i]) == s[..i] + s[i + 1..]
  {
    var x := s[i];
    var before, after := s[..i], s[i + 1..];
    assert s == (before + [x]) + after;
    NotBeforeOrAfter(s, i);
    calc {
      Without(s, x);
      { WithoutDistributes(before + [x], after, x); }
      Without(before + [x], x) + Without(after, x);
      { WithoutAppend(before, x); }
      Without(before, x) + Without(after, x);
      { WithoutAbsent(before, x); WithoutAbsent(after, x); }
      before + after;
    }
  }

  /** The element at `i` of a duplicate-free list occurs neither before nor after `i`. */
  lemma NotBeforeOrAfter(s: seq<string>, i: int)
    requires NoDuplicates(s) && 0 <= i < |s|
    ensures s[i] !in s[..i] && s[i] !in s[i + 1..]
  {
    var before, after := s[..i], s[i + 1..];
    forall k | 0 <= k < |before| ensures before[k] != s[i] { assert before[k] == s[k]; }
    forall k | 0 <= k < |after| ensures after[k] != s[i] { assert after[k] == s[i + 1 + k]; }
  }

  /** Filtering out an absent element changes nothing. */
  lemma {:induction false} WithoutAbsent(s: seq<string>, x: string)
    requires x !in s
    ensures Without(s, x) == s
  {
    if s != [] {
      WithoutAbsent(s[1..], x);
    }
  }

  /** Filtering out `x` from a list that ends with `x` drops that last element too. */
  lemma {:induction false} WithoutAppend(s: seq<string>, x: string)
    ensures Without(s + [x], x) == Without(s, x)
  {
    if s == [] {
      assert [] + [x] == [x];
    } else {
      assert (s + [x])[1..] == s[1..] + [x];
      WithoutAppend(s[1..], x);
    }
  }

  /**
   * The click handler of an emotion tag at step 1: afterwards the tag is
   * selected exactly when it was not and there was room for it, and every
   * other tag keeps its state.
   */
  function Toggled(emotions: seq<string>, name: string): (r: seq<string>)
    ensures name in r <==> name !in emotions && |emotions| < MaxSelected
    ensures forall y :: y != name ==> (y in r <==> y in emotions)
    ensures |emotions| <= MaxSelected ==> |r| <= MaxSelected
  {
    if name in emotions then Without(emotions, name)
    else if |emotions| < MaxSelected then emotions + [name]
    else emotions
  }

  /** Toggling a catalog tag keeps the selection at most three distinct catalog tags. */
  lemma ToggleKeepsSelectionValid(emotions: seq<string>, name: string)
    requires SelectionValid(emotions) && name in Catalog
    ensures SelectionValid(Toggled(emotions, name))
  {
    if name in emotions {
      var r := Without(emotions, name);
      WithoutNoDuplicates(emotions, name);
      ToggleCases(emotions, name);
      forall i | 0 <= i < |r| ensures r[i] in Catalog {
        assert r[i] in emotions;
      }
    } else if |emotions| < MaxSelected {
      SnocNoDuplicates(emotions, name);
    }
  }

  /**
   * The three cases of the toggle: a selected tag is removed and nothing
   * else, an unselected one is appended while fewer than three are
   * selected, and otherwise nothing happens.
   */
  lemma ToggleCases(emotions: seq<string>, name: string)
    requires NoDuplicates(emotions)
    ensures name in emotions ==>
      var r := Toggled(emotions, name);
      |r| == |emotions| - 1 && name !in r && multiset(r) == multiset(emotions) - multiset{name}
    ensures name !in emotions && |emotions| < MaxSelected ==> Toggled(emotions, name) == emotions + [name]
    ensures name !in emotions && |emotions| >= MaxSelected ==> Toggled(emotions, name) == emotions
  {
    if name in emotions {
      var r := Without(emotions, name);
      assert multiset(emotions)[name] == 1 by { NoDuplicatesCountsOne(emotions, name); }
      assert |r| == |multiset(r)|;
    }
  }

  lemma {:induction false} NoDuplicatesCountsOne(s: seq<string>, x: string)
    requires NoDuplicates(s) && x in s
    ensures multiset(s)[x] == 1
  {
    assert s == [s[0]] + s[1..];
    if s[0] == x {
      assert x !in s[1..];
    } else {
      NoDuplicatesCountsOne(s[1..], x);
    }
  }

  /** Clicking an unselected tag twice restores the selection. */
  lemma ToggleTwiceRestores(emotions: seq<string>, name: string)
    requires name !in emotions && |emotions| < MaxSelected
    ensures Toggled(Toggled(emotions, name), name) == emotions
  {
    var added := emotions + [name];
    assert Toggled(emotions, name) == added;
    WithoutAbsent(emotions, name);
    assert Without(added, name) == Without(emotions, name) by { WithoutAppend(emotions, name); }
  }

  /** The gate of the step-1 button: a tag is selected or the custom label is non-empty (untrimmed). */
  predicate CanLeaveNaming(d: EmotionData) {
    |d.emotions| >= 1 || d.customEmotion != ""
  }

  /** The gate of the step-2 button: the event is non-blank after trimming. */
  predicate CanLeaveEvent(d: EmotionData) {
    Trim(d.event) != ""
  }

  /** The gate of the analysis button: the need is non-blank and no analysis is in flight. */
  predicate CanAnalyze(d: EmotionData, analyzing: bool) {
    Trim(d.need) != "" && !analyzing
  }

  /** The event gate opens exactly when some character of the event is not whitespace. */
  lemma EventGateIff(d: EmotionData)
    ensures CanLeaveEvent(d) <==> exists i :: 0 <= i < |d.event| && !IsWhitespace(d.event[i])
  {
    TrimEmptyIff(d.event);
  }

  /** The naming gate does not trim: a custom label of one space opens it, an event of one space does not open its gate. */
  lemma BlankLabelOpensNamingGate()
    ensures CanLeaveNaming(Empty.(customEmotion := " "))
    ensures !CanLeaveEvent(Empty.(event := " "))
  {
    TrimEmptyIff(" ");
  }

  /** The emotions named in the request: the tags, then the custom label if non-empty. */
  function AllEmotions(d: EmotionData): (r: seq<string>)
    ensures |r| == |d.emotions| + (if d.customEmotion == "" then 0 else 1)
    ensures r[..|d.emotions|] == d.emotions
    ensures d.customEmotion != "" ==> r[|r| - 1] == d.customEmotion
  {
    if d.customEmotion != "" then d.emotions + [d.customEmotion] else d.emotions
  }

  /** The request body built from the document. */
  function RequestFor(d: EmotionData): (req: AnalysisRequest)
    ensures req.emotions == AllEmotions(d)
    ensures req.event == d.event && req.need == d.need
    ensures DataValid(d) ==> |req.emotions| <= MaxSelected + 1
  {
    AnalysisRequest(AllEmotions(d), d.event, d.need)
  }

  /** The document after a successful analysis: the three result lists replaced, nothing else touched. */
  function Merge(d: EmotionData, res: AnalysisResult): (r: EmotionData)
    ensures r.uncontrollable == res.uncontrollable && r.controllable == res.controllable
      && r.actions == res.actions
    ensures r.(uncontrollable := d.uncontrollable, controllable := d.controllable, actions := d.actions) == d
    ensures DataValid(d) ==> DataValid(r)
  {
    d.(uncontrollable := res.uncontrollable, controllable := res.controllable, actions := res.actions)
  }

  /**
   * The merge overwrites the three lists rather than appending to them:
   * a second merge leaves no trace of the first.
   */
  lemma MergeLastWins(d: EmotionData, first: AnalysisResult, second: AnalysisResult)
    ensures Merge(Merge(d, first), second) == Merge(d, second)
  {
  }

  /** The record written on save: the document with its timestamp set. */
  function Stamped(d: EmotionData, now: int): (r: EmotionData)
    ensures r.timestamp == Some(now)
    ensures r.(timestamp := d.timestamp) == d
  {
    d.(timestamp := Some(now))
  }
}
