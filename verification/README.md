# EmotionClarityApp session state machine, in Dafny

This project models the workflow core of the `EmotionClarityApp` React
component. The component guides one user through five steps:

1. name the emotions;
2. describe the triggering event objectively;
3. identify the need;
4. read the controllable/uncontrollable separation produced by an external
   text-generation service;
5. plan actions.

Finished sessions are saved to a per-user history. The markup, styling and
animation around this logic are not modelled.

Modules, one per concern of the component:

- `Wrappers`: `Option`, for JavaScript's `null`.
- `Text`: ECMAScript `trim`, substring search (what `RegExp.test` does for a
  pattern that is an alternation of literal phrases), and the global
  replacement that strips Markdown fences from the service's reply.
- `Objectivity`: the five subjective-language pattern groups.
  `CheckObjectivity` runs the same early-exit loop as the component and is
  proved equal to the reference predicate `Subjective`.
- `Session`: the `emotionData` document (`EmotionData`), the emotion-tag
  toggle, the gates of the forward buttons, the emotion list sent for
  analysis, the merge of an analysis result, and the stamping of a saved
  record.
- `History`: the load pipeline (drop null reads, then a stable sort newest
  first), the save and the delete, all on `seq`.
- `EmotionClarity`: class `App`, whose fields are the component's state
  slots (`currentUser`, `step`, `emotionData`, `history`, `isAnalyzing`,
  `objectivityWarning`), with one method per handler. `Valid()` is the
  invariant every handler keeps:
  - `step` is in 1..5;
  - at most three distinct catalog emotions are selected;
  - the custom label has at most ten characters;
  - the live document has no timestamp;
  - before step 4 the three analysis lists are empty, so each run's lists
    are written once, by the merge;
  - the warning is either empty or the fixed hint;
  - the busy flag is up exactly while a request is in flight, which the
    ghost field `pending` records together with the document that request
    captured. Only that document can be merged when the reply arrives.

External effects are parameters:

- Each store write or delete is a success flag.
- The history listing is an optional sequence of optional records.
- The clock is the `now` argument.
- The analysis service is an `Option<AnalysisResult>`, or a function from
  request to such an outcome.

Controls that exist only at one step carry `requires step == k`.
`ResetFlow` has no such precondition: it is the restart button of step 5
and also the reset inside logout, which can run at any step. The
analysis button is disabled unless the need is non-blank and no analysis
is running. The model treats that as the gate of `BeginAnalysis`: when the
gate is closed, the click does nothing.

Behaviours of the code that a reader might not expect, all kept by the
model:

- The analysis handler keeps no request identity. It merges the reply into
  the document as it was when the button was clicked, and then sets step 4.
  So a reply arriving after a logout is still applied, and it brings back
  the document the logout discarded. After a step back the reply likewise
  replaces whatever was edited since the click with the document as it was
  then. The split into `BeginAnalysis` /
  `FinishAnalysis` makes this visible, and `LateReplyAfterLogout` proves it
  for one concrete run.
- `Date.now()` is not monotone, so a save keeps the history sorted only
  when the new timestamp is not older than the newest record
  (`SaveKeepsSortedIff`).
- The step-1 gate does not trim the custom label
  (`BlankLabelOpensNamingGate`).
- A load in which one stored value fails to read or parse rejects the whole
  `Promise.all`, so the history is left unchanged. Only reads that return
  nothing are dropped one by one.

## Model

| member | source | states |
|---|---|---|
| `Text.Trim` | components/EmotionClarityApp.js:1005 | the result is a slice of the input with only whitespace cut on both sides, and it neither starts nor ends with whitespace |
| `Text.TrimEmptyIff` | components/EmotionClarityApp.js:1005 | trimming gives the empty string exactly when every character is whitespace |
| `Text.TrimIdempotent` | components/EmotionClarityApp.js:236 | trimming twice equals trimming once |
| `Text.StripFences` | components/EmotionClarityApp.js:236 | the global removal of "```json" and "```" never lengthens the reply |
| `Text.StripOnlyDeletes` | components/EmotionClarityApp.js:236 | the removal only deletes characters: every character of the result is one of the reply's, counted with multiplicity |
| `Text.CleanReply` | components/EmotionClarityApp.js:236 | the text handed to the JSON parser contains no "```" |
| `Text.NoFenceAfterStrip` | components/EmotionClarityApp.js:236 | the global removal of "```json" and "```" leaves no "```", even where removals join backticks |
| `Text.StripWithoutFences` | components/EmotionClarityApp.js:236 | a reply without fences passes the strip unchanged |
| `Text.StripIdempotent` | components/EmotionClarityApp.js:236 | stripping twice equals stripping once |
| `Text.UnwrapFencedReply` | components/EmotionClarityApp.js:236 | a body without backticks wrapped as "```json" + body + "```" is cleaned to the trimmed body |
| `Objectivity.CheckObjectivity` | components/EmotionClarityApp.js:150-165 | the first-match loop over the five pattern groups returns true exactly when the text contains one of their phrases |
| `Objectivity.SubjectiveInContext` | components/EmotionClarityApp.js:150-165 | adding text before or after a flagged text keeps it flagged |
| `Objectivity.HintCounterExampleFlagged` | components/EmotionClarityApp.js:954 | the counter-example of the step-2 hint is flagged |
| `Objectivity.NotAdoptedNotFlagged` | components/EmotionClarityApp.js:150-165 | "同事在会议上没有采纳我的方案", which contains 有 but not 有意, is not flagged |
| `Objectivity.HintExampleNotFlagged` | components/EmotionClarityApp.js:953 | the example of the step-2 hint is not flagged |
| `Objectivity.AlwaysTargetsMeFlagged` | components/EmotionClarityApp.js:152 | "他总是针对我" is flagged |
| `Objectivity.NoInitialsNotSubjective` | components/EmotionClarityApp.js:151-157 | a text using no first character of any phrase is not flagged |
| `Session.Without` | components/EmotionClarityApp.js:727 | filtering out a name keeps exactly the other elements, and its count becomes zero while the other counts stay |
| `Session.WithoutAt` | components/EmotionClarityApp.js:727 | in a duplicate-free selection, removing a selected name deletes exactly its position and keeps the order of the rest |
| `Session.WithoutDistributes` | components/EmotionClarityApp.js:727 | the filter works element by element, so the kept names stay in order |
| `Session.WithoutNoDuplicates` | components/EmotionClarityApp.js:727 | filtering keeps a selection free of duplicates |
| `Session.Toggled` | components/EmotionClarityApp.js:715-735 | after a click the tag is selected exactly when it was not and fewer than three were selected; every other tag keeps its state; the selection never grows past three |
| `Session.ToggleKeepsSelectionValid` | components/EmotionClarityApp.js:715-735 | toggling a catalog tag keeps the selection at most three distinct catalog tags |
| `Session.ToggleCases` | components/EmotionClarityApp.js:715-735 | a selected tag is removed and nothing else; an unselected tag is appended at the end while fewer than three are selected; otherwise the selection is unchanged |
| `Session.ToggleTwiceRestores` | components/EmotionClarityApp.js:715-735 | clicking an unselected tag twice, with room for it, restores the selection |
| `Session.EventGateIff` | components/EmotionClarityApp.js:1005 | the step-2 gate opens exactly when the event has a non-whitespace character |
| `Session.BlankLabelOpensNamingGate` | components/EmotionClarityApp.js:873-878 | a one-space custom label opens the step-1 gate, while a one-space event does not open the step-2 gate |
| `Session.AllEmotions` | components/EmotionClarityApp.js:183-186 | the emotions sent are the selected tags in order, followed by the custom label exactly when it is non-empty |
| `Session.RequestFor` | components/EmotionClarityApp.js:199-201 | the request carries the emotions of `AllEmotions` (tags, then the non-empty custom label), the document's event and need, and at most four emotions for a valid document |
| `Session.Merge` | components/EmotionClarityApp.js:239-244 | the merged document has the result's three lists, every other field is unchanged, and validity is kept |
| `Session.MergeLastWins` | components/EmotionClarityApp.js:239-244 | the merge overwrites the three lists rather than appending: a second merge leaves no trace of the first |
| `Session.Stamped` | components/EmotionClarityApp.js:259-262 | the saved record is the document with its timestamp set to `now` and nothing else changed |
| `History.Present` | components/EmotionClarityApp.js:41 | the loaded list holds exactly the records whose read returned something, each as many times as it was read |
| `History.PresentDistributes` | components/EmotionClarityApp.js:41 | the null filter works read by read, so the kept records stay in read order |
| `History.Insert` | components/EmotionClarityApp.js:41 | one insertion step of the sort adds exactly the one record and keeps a newest-first list newest first |
| `History.SortNewestFirst` | components/EmotionClarityApp.js:41 | the sorted list is ordered newest first and is a permutation of its input |
| `History.SortKeepsTiesInOrder` | components/EmotionClarityApp.js:41 | the sort is stable: records with equal timestamps keep their input order |
| `History.LoadedHistory` | components/EmotionClarityApp.js:41 | the loaded history is sorted newest first and is a permutation of the non-null reads |
| `History.LoadKeepsTiesInOrder` | components/EmotionClarityApp.js:41 | records read with equal timestamps keep their read order in the loaded history |
| `History.WithoutStamp` | components/EmotionClarityApp.js:282 | the filtered history holds exactly the records whose timestamp differs from the one passed, null included |
| `History.WithoutStampDistributes` | components/EmotionClarityApp.js:282 | the delete filter works record by record, so the kept records stay in order |
| `History.WithoutStampAbsent` | components/EmotionClarityApp.js:282 | deleting a timestamp no record has changes nothing |
| `History.WithoutStampKeepsSorted` | components/EmotionClarityApp.js:282 | deleting keeps a sorted history sorted |
| `History.SavedHistory` | components/EmotionClarityApp.js:269 | a successful save puts the stamped record in front of the old history |
| `History.DeleteUndoesSave` | components/EmotionClarityApp.js:256-286 | deleting a record just saved under a fresh timestamp gives back the old history |
| `History.SaveKeepsSortedIff` | components/EmotionClarityApp.js:259-269 | a save keeps a sorted history sorted exactly when `now` is not older than its newest record |
| `EmotionClarity.App.constructor` | components/EmotionClarityApp.js:5-25 | the initial state: no user, step 1, an empty document, empty history, not analysing, no warning |
| `EmotionClarity.App.SignIn` | components/EmotionClarityApp.js:84 | a successful login makes the user current and changes nothing else |
| `EmotionClarity.App.LoadHistory` | components/EmotionClarityApp.js:28-48 | with a user and a listing, the history becomes the filtered, sorted records; otherwise it is unchanged |
| `EmotionClarity.App.ToggleEmotion` | components/EmotionClarityApp.js:715-735 | only the selection changes, to the toggled one, and it stays valid |
| `EmotionClarity.App.SetCustomEmotion` | components/EmotionClarityApp.js:799-801 | only the custom label changes |
| `EmotionClarity.App.LeaveNaming` | components/EmotionClarityApp.js:873-878 | the step becomes 2 exactly when a tag is selected or the custom label is non-empty; otherwise it stays 1; the document is unchanged |
| `EmotionClarity.App.HandleEventChange` | components/EmotionClarityApp.js:167-176 | the event is stored, and the warning is the fixed hint exactly when the text is subjective, else empty |
| `EmotionClarity.App.BackToNaming` | components/EmotionClarityApp.js:991 | the step becomes 1 and the document is unchanged |
| `EmotionClarity.App.LeaveEvent` | components/EmotionClarityApp.js:1005 | the step becomes 3 exactly when the trimmed event is non-empty; otherwise it stays 2 |
| `EmotionClarity.App.SetNeed` | components/EmotionClarityApp.js:1043 | only the need changes |
| `EmotionClarity.App.BackToEvent` | components/EmotionClarityApp.js:1074 | the step becomes 2 and the document is unchanged |
| `EmotionClarity.App.BeginAnalysis` | components/EmotionClarityApp.js:1088-1089 | the analysis starts exactly when the need is non-blank and none is running; it raises the busy flag and sends the request built from the current document, whose three analysis lists are still empty |
| `EmotionClarity.App.FinishAnalysis` | components/EmotionClarityApp.js:239-252 | only the reply to the request in flight can arrive (the busy flag is up and `snapshot` is the document that request captured); on success the snapshot's three lists are replaced and the step becomes 4; on failure the document and step are unchanged; the busy flag always ends false and nothing is in flight afterwards |
| `EmotionClarity.App.AnalyzeAndSeparate` | components/EmotionClarityApp.js:179-253 | when started and successful, only the three lists change and the step becomes 4; otherwise the document is unchanged and the step stays 3; the busy flag ends false whenever it started |
| `EmotionClarity.App.ShowActionPlan` | components/EmotionClarityApp.js:1197 | the step becomes 5 and nothing else changes |
| `EmotionClarity.App.SetMinAction` | components/EmotionClarityApp.js:1266 | only the smallest action changes |
| `EmotionClarity.App.SaveRecord` | components/EmotionClarityApp.js:256-274 | with a user and a successful write, the history becomes the stamped record followed by the old history; otherwise it is unchanged; the document is untouched |
| `EmotionClarity.App.DeleteRecord` | components/EmotionClarityApp.js:277-286 | with a user and a successful delete, the records with the entry's timestamp (possibly null) are filtered out; otherwise the history is unchanged |
| `EmotionClarity.App.ResetFlow` | components/EmotionClarityApp.js:288-302 | the document becomes empty, the step 1, the warning empty; user, history and busy flag are kept |
| `EmotionClarity.App.HandleLogout` | components/EmotionClarityApp.js:142-147 | no user, an empty history, an empty document at step 1, no warning |
| `EmotionClarity.LateReplyAfterLogout` | components/EmotionClarityApp.js:239-246 | a successful reply arriving after a logout leaves the signed-out app at step 4 holding the previous user's need |

## Left out

- Rendering, styling and animation: the JSX markup, the framer-motion transitions and the spinner CSS are presentation only.
- The `fetch` request, the prompt text, picking the text block from the response and `JSON.parse` are network and foreign calls. The model takes their outcome as a parameter. A parsed reply that lacks one of the three fields is applied by the code as `undefined`; this is not modelled, because the result type always carries three lists.
- The `window.storage` list/get/set/delete calls, the key scheme `emotion:<user>:<timestamp>` and `Promise.all` are external I/O. They are modelled as success flags and as the optional listing.
- JSON serialisation of records to and from the store is not modelled, because the store is opaque.
- `Date.now()` is the clock; it is the `now` parameter.
- Login and registration: the credential checks, the `authForm`/`authError` state and the account records are out of scope. `SignIn` covers only the state change of a successful attempt.
- The history panel's show/hide flag and the date formatting are presentation.
- `alert` and `console` output are diagnostics.
- The input's `maxLength={10}` limit on the custom emotion is enforced by the HTML element. It is a precondition of `SetCustomEmotion`.
- Strings are sequences of Unicode characters, while JavaScript counts UTF-16 code units. No modelled behaviour depends on the difference: every whitespace character `trim` removes, every phrase and both fences lie in the Basic Multilingual Plane, and `maxLength` counting code units only makes the ten-character bound on the custom label stricter than `|text| <= MaxCustomLength`.
- Regular expressions are modelled only as substring tests, because the five patterns are alternations of literal phrases.
- Stored records whose timestamp is missing or not a number would make the sort comparator yield `NaN`; this is not modelled. A null timestamp sorts as 0, as JavaScript's coercion makes it, and deleting such a record passes null, which removes every record without a timestamp.
- React's asynchronous, batched state updates are not modelled. The only interleaving modelled is a handler call between `BeginAnalysis` and `FinishAnalysis`. The `history` value captured by `saveRecord`/`deleteRecord` is taken to be current.
