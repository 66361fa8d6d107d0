/**
 * The EmotionClarityApp component's workflow state and its handlers. Each
 * `useState` slot of the workflow is a field; each handler is a method
 * that updates the fields the way its `set...` calls do. The key-value
 * store, the clock and the analysis service are parameters: a success
 * flag for a store write or delete, the timestamp `now`, and the outcome
 * of the analysis request.
 */
module EmotionClarity {
  import opened Wrappers
  import opened Text
  import opened Objectivity
  import opened Session
  import opened History

  class App {
    /** The signed-in user's name, or none. */
    var currentUser: Option<string>
    /** The workflow step, 1 to 5. */
    var step: int
    var emotionData: EmotionData
    var history: seq<EmotionData>
    var isAnalyzing: bool
    var objectivityWarning: string
    /** The document captured by the request in flight, if any. */
    ghost var pending: Option<EmotionData>

    /** What every handler keeps. */
    ghost predicate Valid()
      reads this
    {
      && 1 <= step <= 5
      && DataValid(emotionData)
      // The analysis lists are written once per run: empty until step 4.
      && (step <= 3 ==> emotionData.uncontrollable == [] && emotionData.controllable == []
                        && emotionData.actions == [])
      && (objectivityWarning == "" || objectivityWarning == Hint)
      // A request is in flight exactly while the busy flag is up.
      && (isAnalyzing <==> pending.Some?)
      && (pending.Some? ==> DataValid(pending.value))
    }

    /** The component's initial state. */
    constructor ()
      ensures Valid()
      ensures currentUser == None && step == 1 && emotionData == Empty
      ensures history == [] && !isAnalyzing && objectivityWarning == "" && pending == None
    {
      currentUser := None;
      step := 1;
      emotionData := Empty;
      history := [];
      isAnalyzing := false;
      objectivityWarning := "";
      pending := None;
    }

    /** The state change of a successful login or registration: the user becomes current. */
    method SignIn(username: string)
      requires Valid()
      modifies this
      ensures pending == old(pending)
      ensures Valid() && currentUser == Some(username)
      ensures step == old(step) && emotionData == old(emotionData) && history == old(history)
      ensures isAnalyzing == old(isAnalyzing) && objectivityWarning == old(objectivityWarning)
    {
      currentUser := Some(username);
    }

    /**
     * The history load run when the user changes. `listing` is what the
     * store returned: none when the listing, a read or a parse threw, or
     * the listing came back without a `keys` field; else one entry per key
     * (possibly none at all), none where the read found nothing.
     */
    method LoadHistory(listing: Option<seq<Option<EmotionData>>>)
      requires Valid()
      modifies this
      ensures pending == old(pending)
      ensures Valid()
      ensures history == if old(currentUser).Some? && listing.Some? then LoadedHistory(listing.value)
                         else old(history)
      ensures currentUser == old(currentUser) && step == old(step) && emotionData == old(emotionData)
      ensures isAnalyzing == old(isAnalyzing) && objectivityWarning == old(objectivityWarning)
    {
      if currentUser.None? {
        return;
      }
      if listing.Some? {
        history := LoadedHistory(listing.value);
      }
    }

    /** A click on a catalog tag at step 1. */
    method ToggleEmotion(name: string)
      requires Valid() && step == 1 && name in Catalog
      modifies this
      ensures pending == old(pending)
      ensures Valid()
      ensures emotionData == old(emotionData).(emotions := Toggled(old(emotionData.emotions), name))
      ensures SelectionValid(emotionData.emotions)
      ensures currentUser == old(currentUser) && step == old(step) && history == old(history)
      ensures isAnalyzing == old(isAnalyzing) && objectivityWarning == old(objectivityWarning)
    {
      ToggleKeepsSelectionValid(emotionData.emotions, name);
      var isSelected := name in emotionData.emotions;
      var canSelect := |emotionData.emotions| < MaxSelected;
      if isSelected {
        emotionData := emotionData.(emotions := Without(emotionData.emotions, name));
      } else if canSelect {
        emotionData := emotionData.(emotions := emotionData.emotions + [name]);
      }
    }

    /** Typing in the custom-emotion input (at most ten characters) at step 1. */
    method SetCustomEmotion(text: string)
      requires Valid() && step == 1 && |text| <= MaxCustomLength
      modifies this
      ensures pending == old(pending)
      ensures Valid() && emotionData == old(emotionData).(customEmotion := text)
      ensures currentUser == old(currentUser) && step == old(step) && history == old(history)
      ensures isAnalyzing == old(isAnalyzing) && objectivityWarning == old(objectivityWarning)
    {
      emotionData := emotionData.(customEmotion := text);
    }

    /** The "next" button of step 1. */
    method LeaveNaming() returns (moved: bool)
      requires Valid() && step == 1
      modifies this
      ensures pending == old(pending)
      ensures Valid()
      ensures moved <==> CanLeaveNaming(old(emotionData))
      ensures step == if moved then 2 else 1
      ensures currentUser == old(currentUser) && emotionData == old(emotionData) && history == old(history)
      ensures isAnalyzing == old(isAnalyzing) && objectivityWarning == old(objectivityWarning)
    {
      moved := |emotionData.emotions| >= 1 || emotionData.customEmotion != "";
      if moved {
        step := 2;
      }
    }

    /**
     * Typing in the event description at step 2: the text is stored and the
     * warning is the hint exactly when the text reads as subjective.
     */
    method HandleEventChange(text: string)
      requires Valid() && step == 2
      modifies this
      ensures pending == old(pending)
      ensures Valid() && emotionData == old(emotionData).(event := text)
      ensures objectivityWarning == if Subjective(text) then Hint else ""
      ensures currentUser == old(currentUser) && step == old(step) && history == old(history)
      ensures isAnalyzing == old(isAnalyzing)
    {
      emotionData := emotionData.(event := text);
      var flagged := CheckObjectivity(text);
      if flagged {
        objectivityWarning := Hint;
      } else {
        objectivityWarning := "";
      }
    }

    /** The "back" button of step 2. */
    method BackToNaming()
      requires Valid() && step == 2
      modifies this
      ensures pending == old(pending)
      ensures Valid() && step == 1
      ensures currentUser == old(currentUser) && emotionData == old(emotionData) && history == old(history)
      ensures isAnalyzing == old(isAnalyzing) && objectivityWarning == old(objectivityWarning)
    {
      step := 1;
    }

    /** The "next" button of step 2. */
    method LeaveEvent() returns (moved: bool)
      requires Valid() && step == 2
      modifies this
      ensures pending == old(pending)
      ensures Valid()
      ensures moved <==> CanLeaveEvent(old(emotionData))
      ensures step == if moved then 3 else 2
      ensures currentUser == old(currentUser) && emotionData == old(emotionData) && history == old(history)
      ensures isAnalyzing == old(isAnalyzing) && objectivityWarning == old(objectivityWarning)
    {
      moved := Trim(emotionData.event) != "";
      if moved {
        step := 3;
      }
    }

    /** A need button or the need input at step 3. */
    method SetNeed(text: string)
      requires Valid() && step == 3
      modifies this
      ensures pending == old(pending)
      ensures Valid() && emotionData == old(emotionData).(need := text)
      ensures currentUser == old(currentUser) && step == old(step) && history == old(history)
      ensures isAnalyzing == old(isAnalyzing) && objectivityWarning == old(objectivityWarning)
    {
      emotionData := emotionData.(need := text);
    }

    /** The "back" button of step 3. */
    method BackToEvent()
      requires Valid() && step == 3
      modifies this
      ensures pending == old(pending)
      ensures Valid() && step == 2
      ensures currentUser == old(currentUser) && emotionData == old(emotionData) && history == old(history)
      ensures isAnalyzing == old(isAnalyzing) && objectivityWarning == old(objectivityWarning)
    {
      step := 2;
    }

    /**
     * A click on the analysis button, which is enabled only while the need
     * is non-blank and no analysis is in flight. It raises the busy flag and
     * returns the document as the handler sees it (`snapshot`) together with
     * the request sent to the service.
     */
    method BeginAnalysis() returns (started: bool, snapshot: EmotionData, request: AnalysisRequest)
      requires Valid() && step == 3
      modifies this
      ensures Valid()
      ensures started <==> CanAnalyze(old(emotionData), old(isAnalyzing))
      ensures isAnalyzing == (started || old(isAnalyzing))
      ensures pending == if started then Some(snapshot) else old(pending)
      ensures snapshot == emotionData && DataValid(snapshot)
      ensures snapshot.uncontrollable == [] && snapshot.controllable == [] && snapshot.actions == []
      ensures request == RequestFor(snapshot)
      ensures currentUser == old(currentUser) && step == old(step) && emotionData == old(emotionData)
      ensures history == old(history) && objectivityWarning == old(objectivityWarning)
    {
      snapshot := emotionData;
      request := AnalysisRequest(AllEmotions(snapshot), snapshot.event, snapshot.need);
      started := Trim(emotionData.need) != "" && !isAnalyzing;
      if started {
        isAnalyzing := true;
        pending := Some(snapshot);
      }
    }

    /**
     * The rest of the handler once the service has answered. On success the
     * three result lists of `snapshot` are replaced and the step becomes 4;
     * on failure the document and the step stay as they are. Either way the
     * busy flag is cleared.
     */
    method FinishAnalysis(snapshot: EmotionData, outcome: Option<AnalysisResult>)
      requires Valid() && pending == Some(snapshot)
      modifies this
      ensures Valid() && !isAnalyzing && pending == None
      ensures outcome.Some? ==> emotionData == Merge(snapshot, outcome.value) && step == 4
      ensures outcome.None? ==> emotionData == old(emotionData) && step == old(step)
      ensures currentUser == old(currentUser) && history == old(history)
      ensures objectivityWarning == old(objectivityWarning)
    {
      if outcome.Some? {
        var result := outcome.value;
        emotionData := snapshot.(uncontrollable := result.uncontrollable,
                                 controllable := result.controllable,
                                 actions := result.actions);
        step := 4;
      }
      isAnalyzing := false;
      pending := None;
    }

    /**
     * The analysis handler with nothing happening while the request is in
     * flight; `separate` stands for the service, answering a request with a
     * result or a failure.
     */
    method AnalyzeAndSeparate(separate: AnalysisRequest -> Option<AnalysisResult>) returns (started: bool)
      requires Valid() && step == 3
      modifies this
      ensures pending == old(pending)
      ensures Valid()
      ensures started <==> CanAnalyze(old(emotionData), old(isAnalyzing))
      ensures started ==> !isAnalyzing
      ensures !started ==> isAnalyzing == old(isAnalyzing)
      ensures var outcome := separate(RequestFor(old(emotionData)));
        if started && outcome.Some? then
          emotionData == Merge(old(emotionData), outcome.value) && step == 4
        else
          emotionData == old(emotionData) && step == 3
      ensures currentUser == old(currentUser) && history == old(history)
      ensures objectivityWarning == old(objectivityWarning)
    {
      var snapshot, request;
      started, snapshot, request := BeginAnalysis();
      if started {
        FinishAnalysis(snapshot, separate(request));
      }
    }

    /** The "next" button of step 4. */
    method ShowActionPlan()
      requires Valid() && step == 4
      modifies this
      ensures pending == old(pending)
      ensures Valid() && step == 5
      ensures currentUser == old(currentUser) && emotionData == old(emotionData) && history == old(history)
      ensures isAnalyzing == old(isAnalyzing) && objectivityWarning == old(objectivityWarning)
    {
      step := 5;
    }

    /** Typing in the smallest-action input at step 5. */
    method SetMinAction(text: string)
      requires Valid() && step == 5
      modifies this
      ensures pending == old(pending)
      ensures Valid() && emotionData == old(emotionData).(minAction := text)
      ensures currentUser == old(currentUser) && step == old(step) && history == old(history)
      ensures isAnalyzing == old(isAnalyzing) && objectivityWarning == old(objectivityWarning)
    {
      emotionData := emotionData.(minAction := text);
    }

    /**
     * The save button of step 5. With a user signed in, the document stamped
     * with `now` is written to the store; only if the write succeeds is the
     * record put in front of the history.
     */
    method SaveRecord(now: int, writeSucceeds: bool) returns (saved: bool)
      requires Valid() && step == 5
      modifies this
      ensures pending == old(pending)
      ensures Valid()
      ensures saved <==> old(currentUser).Some? && writeSucceeds
      ensures history == if saved then SavedHistory(old(history), old(emotionData), now) else old(history)
      ensures currentUser == old(currentUser) && step == old(step) && emotionData == old(emotionData)
      ensures isAnalyzing == old(isAnalyzing) && objectivityWarning == old(objectivityWarning)
    {
      if currentUser.None? {
        return false;
      }
      var record := emotionData.(timestamp := Some(now));
      saved := writeSucceeds;
      if saved {
        history := [record] + history;
      }
    }

    /**
     * The delete button of a history entry, passing the entry's timestamp
     * (null for a record stored without one). With a user signed in, the
     * record keyed by `ts` is deleted from the store; only if that succeeds
     * are the records with that timestamp filtered out of the history.
     */
    method DeleteRecord(ts: Option<int>, deleteSucceeds: bool) returns (deleted: bool)
      requires Valid()
      modifies this
      ensures pending == old(pending)
      ensures Valid()
      ensures deleted <==> old(currentUser).Some? && deleteSucceeds
      ensures history == if deleted then WithoutStamp(old(history), ts) else old(history)
      ensures currentUser == old(currentUser) && step == old(step) && emotionData == old(emotionData)
      ensures isAnalyzing == old(isAnalyzing) && objectivityWarning == old(objectivityWarning)
    {
      if currentUser.None? {
        return false;
      }
      deleted := deleteSucceeds;
      if deleted {
        history := WithoutStamp(history, ts);
      }
    }

    /**
     * `resetFlow`: an empty document at step 1, no warning. It runs from the
     * restart button of step 5 and from logout, at any step.
     */
    method ResetFlow()
      requires Valid()
      modifies this
      ensures pending == old(pending)
      ensures Valid() && emotionData == Empty && step == 1 && objectivityWarning == ""
      ensures currentUser == old(currentUser) && history == old(history) && isAnalyzing == old(isAnalyzing)
    {
      emotionData := Empty;
      step := 1;
      objectivityWarning := "";
    }

    /**
     * The logout button: no user, an empty history, and a reset flow (whose
     * step 1 is also the logout's own `setStep(1)`).
     */
    method HandleLogout()
      requires Valid()
      modifies this
      ensures pending == old(pending)
      ensures Valid() && currentUser == None && history == []
      ensures emotionData == Empty && step == 1 && objectivityWarning == ""
      ensures isAnalyzing == old(isAnalyzing)
    {
      currentUser := None;
      history := [];
      ResetFlow();
    }
  }

  /**
   * The handler keeps no request identity: a reply that arrives after the
   * user logged out while the request was in flight is still applied. The
   * signed-out app is then at step 4 holding the previous user's document
   * (here its need).
   */
  method LateReplyAfterLogout(need: string, result: AnalysisResult)
    returns (user: Option<string>, step: int, data: EmotionData)
    requires Trim(need) != ""
    ensures user == None && step == 4
    ensures data.need == need && data.uncontrollable == result.uncontrollable
  {
    var app := new App();
    app.SignIn("alice");
    app.ToggleEmotion("焦虑");
    var moved := app.LeaveNaming();
    app.HandleEventChange("会议改期了");
    TrimEmptyIff("会议改期了");
    moved := app.LeaveEvent();
    app.SetNeed(need);
    var started, snapshot, request := app.BeginAnalysis();
    assert started;
    app.HandleLogout();
    assert app.emotionData == Empty && app.step == 1;
    app.FinishAnalysis(snapshot, Some(result));
    user, step, data := app.currentUser, app.step, app.emotionData;
  }
}
