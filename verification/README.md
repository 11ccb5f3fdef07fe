# Vehicle inspection checklist: a Dafny model

This project models the core of a single-screen vehicle inspection app for Trinidad and Tobago:

- the fixed 22-item roadworthiness checklist;
- the operations an inspector performs on it: tick an item, write a note, attach a photograph, edit the vehicle details;
- the pass/fail verdict and the progress percentage;
- the per-category counts;
- the request that is assembled for the remote AI risk analysis, and the fixed fallback answer when that call fails;
- the screen's state machine: filling in, analysing, result shown, edit again, new inspection.

Modules, in dependency order:

| file | module | models |
|---|---|---|
| `types.dfy` | `Types` | the records and enumerations of `types.ts`, plus JavaScript truthiness of optional strings |
| `seqs.dfy` | `Seqs` | the array and string primitives the source relies on: `filter`, `map`, `join`, `split` and `Array.from(new Set(...))`, each with JavaScript's semantics |
| `checklist.dfy` | `Checklist` | the checklist updates of `App.tsx`, the verdict rule, the progress memo, the category list and the per-category counts |
| `constants.dfy` | `Constants` | `INITIAL_CHECKLIST` of `constants.tsx`, item for item, and what its shape implies for the verdict and the categories |
| `form.dfy` | `Form` | the form-level updates of `App.tsx`: input change, stamping the verdict, resetting the checklist, the initial form |
| `analysis.dfy` | `Analysis` | `geminiService.ts`: prompt fragments, evidence-image selection, data-URL prefix removal and the fallback response; the remote call is a function parameter |
| `session.dfy` | `Session` | the `App` component as a state machine over user events and the completion of the remote call, with its invariant over every reachable state |

Modelling notes:

- Optional values become `Option`. The source's `if (x)` tests on optional strings become `Truthy`: present and non-empty. An empty note therefore counts as no note, and an empty image as no image.
- The item field `label` is called `caption`, because `label` is a reserved word in Dafny.
- `Math.round((passed / total) * 100)` is computed in exact integer arithmetic as round-half-up. Its contract brackets the exact quotient.
- `handleSubmit` is split into two events:
  - `Submit` covers the synchronous part. It sets `isAnalyzing` and takes the `updatedData` snapshot with the verdict stamped on it.
  - `AnalysisDone(service)` covers the code after `await`. It carries the remote service as a function, stores the snapshot as the form, shows `AnalyzeSafetyStatus` of the snapshot and sets `isSubmitted`.
- An event whose control the screen does not render in the current state leaves the state unchanged. This applies to checklist and input events after submission, to a note or photo event for an id with no failed item (a row shows its note input and photo button only while the item is failed, `App.tsx:161-181`), to a disabled submit button, to an "Edit Inspection" button that is not shown, to the three fields that have no input, and to a class string that is not one of the select's five options.
- The comment on `isCritical` in `types.ts:23` reads "If false, the vehicle fails immediately". The code does the opposite (`App.tsx:267-270`): a failed item fails the vehicle immediately when it IS critical. The model follows the code.

## Model

| member | source | states |
|---|---|---|
| Types.ClassOfLabel | types.ts:8-14 | a string is read back as a class exactly when it is that class's run-time label; every other string denotes no class |
| Seqs.FilterFilter | App.tsx:438-439 | filtering twice equals filtering once by the conjunction of the two predicates |
| Types.ClassLabelRoundTrip | types.ts:8-14 | the five class labels are distinct, so reading back a class's label yields that class |
| Seqs.Filter | App.tsx:223 | `filter` keeps exactly the elements satisfying the predicate and never lengthens the list |
| Seqs.FilterAppend | App.tsx:438 | filtering distributes over concatenation, so the filtered items keep checklist order |
| Seqs.Split | geminiService.ts:30 | `split(',')` yields at least one field, and no field contains the separator |
| Seqs.SplitThenJoin | geminiService.ts:30 | joining the fields of a split with the separator gives back the original string |
| Seqs.JoinThenSplit | geminiService.ts:30 | splitting a join of comma-free fields gives back the fields |
| Seqs.JoinAppend | geminiService.ts:15-16 | joining two non-empty lists equals joining each and putting one separator between them |
| Seqs.Dedup | App.tsx:220 | `Array.from(new Set(xs))` has the same members as `xs` and no repeats |
| Seqs.DedupFirstOccurrenceOrder | App.tsx:220 | the de-duplicated list is ordered by each value's first occurrence in the input |
| Checklist.ToggleCheck | App.tsx:231-238 | exactly the items with the given id flip their pass mark; notes, images and every other item are unchanged; an unknown id changes nothing |
| Checklist.ToggleCheckInvolution | App.tsx:231-238 | toggling the same id twice restores the checklist |
| Checklist.ToggleCheckUniqueId | App.tsx:231-238 | when ids are unique, toggling an item's id flips that position only |
| Checklist.UpdateNote | App.tsx:240-247 | items with the given id get the note; pass marks and images are untouched; other items are unchanged |
| Checklist.UpdateNoteLastWriteWins | App.tsx:240-247 | a second note on the same item replaces the first |
| Checklist.SetImage | App.tsx:253-255 | items with the given id get the image; pass marks and notes are untouched; other items are unchanged |
| Checklist.SetImageLastWriteWins | App.tsx:249-259 | a second capture for the same item replaces the first image |
| Checklist.HandleCaptureImage | App.tsx:249-259 | with a truthy open-camera id, the image goes onto that item and the camera closes; otherwise nothing changes; pass marks and notes never change |
| Checklist.CaptureImageKeepsVerdict | App.tsx:249-259 | attaching a photograph never changes the verdict |
| Checklist.CalculateVerdict | App.tsx:266-272 | the verdict is never PENDING, and it is FAIL exactly when some critical item failed or more than three non-critical items failed |
| Checklist.CriticalFailureForcesFail | App.tsx:267-269 | one failed critical item fails the vehicle whatever the rest |
| Checklist.VerdictWithoutCriticalFailures | App.tsx:268-271 | with every critical item passed, the vehicle fails exactly when more than three non-critical items failed (three still pass) |
| Checklist.VerdictDependsOnValuesOnly | App.tsx:266-272 | notes, images, captions and ids have no influence on the verdict |
| Checklist.NonCriticalFailuresBounded | App.tsx:268 | the failed non-critical items are at most the non-critical items |
| Checklist.RoundHalfUp | App.tsx:224 | the rounded value is within one half of the exact quotient, rounding halves up |
| Checklist.RoundHalfUpUnique | App.tsx:224 | only one integer lies within one half of the quotient in that sense |
| Checklist.RoundHalfUpMonotone | App.tsx:224 | rounding preserves order of numerators |
| Checklist.Progress | App.tsx:222-225 | the progress is at most 100 and is the passed share of the checklist, in percent, rounded to the nearest integer |
| Checklist.PassedCountFull | App.tsx:223 | the passed count equals the length exactly when every item passed |
| Checklist.ProgressFullIffAllPassed | App.tsx:222-225 | for checklists of 1 to 199 items, progress is 100 exactly when every item passed |
| Checklist.ProgressZeroIffNonePassed | App.tsx:222-225 | for checklists of 1 to 200 items, progress is 0 exactly when no item passed |
| Checklist.ProgressMonotone | App.tsx:222-225 | marking one more item passed never lowers the progress |
| Checklist.CategoryItems | App.tsx:438 | a category's items are exactly the checklist items carrying that category |
| Checklist.Categories | App.tsx:220 | the category list has no repeats, contains every item's category, and contains nothing else |
| Checklist.CategoriesInFirstOccurrenceOrder | App.tsx:220 | the categories appear in the order of their first occurrence in the checklist |
| Checklist.CountCategory | App.tsx:438-439 | a category's total is the number of items carrying that category, its passed count is the number of passed items carrying it, and passed is at most total |
| Checklist.CategoryCounts | App.tsx:436-439 | one count per category, in category order: entry k is the count of the k-th category |
| Checklist.SumPassedCountsCovered | App.tsx:436-439 | for distinct categories, the section passed counts add up to the passed items whose category is listed |
| Checklist.CategoryPassedCoverChecklist | App.tsx:436-439 | for distinct categories covering the checklist, the section passed counts add up to the checklist's passed count |
| Checklist.CategoryTotalsCoverChecklist | App.tsx:436-439 | for distinct categories covering the checklist, the section totals add up to the checklist length: every item is shown in exactly one section |
| Checklist.SameShapeTotalsCoverChecklist | App.tsx:436-439 | with sections listed from one checklist and filled from another of the same shape, the totals still add up to the checklist length and the passed counts to its passed count |
| Constants.InitialChecklistItems | constants.tsx:4-40 | the initial checklist has 22 items, none passed, none with a note or image |
| Constants.InitialIdsDistinct | constants.tsx:6-39 | no two initial items share an id |
| Constants.FixedChecklistIdsDistinct | constants.tsx:6-39 | every checklist with the fixed items has distinct ids |
| Constants.InitialNonCriticalIds | constants.tsx:14 | the only non-critical items are the reverse lights and the fire extinguisher |
| Constants.InitialNonCriticalCount | constants.tsx:35 | exactly two items are non-critical |
| Constants.InitialCategories | constants.tsx:6-39 | the sections are Identification, Lighting, Mechanical, Tires, Vision, Safety and Environment, in that order |
| Constants.InitialProgressAndVerdict | constants.tsx:4-40 | a fresh checklist shows 0% progress and would be judged FAIL |
| Constants.VerdictOnFixedChecklist | App.tsx:266-272 | on the fixed item list, at most two non-critical items can fail, so the vehicle passes exactly when every critical item passes |
| Constants.SectionsCoverFixedChecklist | App.tsx:436-439 | on the fixed item list, the seven section totals add up to 22 items, the whole checklist, and their passed counts to the checklist's passed count |
| Form.HandleInputChange | App.tsx:261-264 | the named field takes the new value and every other field, the checklist and the status are unchanged; a class string sets the class with that label, and a string that is no label changes nothing |
| Form.SelectClassOption | App.tsx:412-416 | choosing an option of the class select sets exactly the class that option names |
| Form.InputChangeUndo | App.tsx:261-264 | typing a field's old value back restores the form exactly |
| Form.InputChangeKeepsUneditedFields | App.tsx:261-264 | no change event from a rendered input fills in the year, engine number or odometer |
| Form.RequiredFieldsPresent | App.tsx:384-429 | the six inputs marked `required` (name, date, plate, make, model, VIN) are non-empty; used by the submit event and by InitialFormIncomplete |
| Form.InitialFormIncomplete | App.tsx:196-209 | a fresh form cannot be submitted until the required inputs are filled in |
| Form.ApplyVerdict | App.tsx:277-278 | the snapshot carries the computed verdict, which is never PENDING, and is otherwise the form unchanged |
| Form.ResetChecklist | App.tsx:527 | "New Inspection" installs the initial checklist, showing 0% progress, and keeps every other field |
| Form.InitialForm | App.tsx:196-209 | the first form has the initial checklist, PENDING status, today's date, the Private class and every other text field empty |
| Analysis.VehicleDetails | geminiService.ts:14 | the "Vehicle Details" line: year, make, model and class label; specified by VehicleDetailsReadsVehicleOnly and VehicleDetailsWithoutYear |
| Analysis.VehicleDetailsReadsVehicleOnly | geminiService.ts:14 | the details depend on the year, make, model and class only, no other form field or checklist item |
| Analysis.DefectsFound | geminiService.ts:15 | the "Defects Found" line: captions of the failed items joined by ", "; specified by DefectsFoundAppend, DefectsFoundEmpty and DefectsFoundIgnoresEvidence |
| Analysis.AdditionalNotes | geminiService.ts:16 | the "Additional Notes" line: "caption: note" of every item with a non-empty note joined by "; "; specified by AdditionalNotesEmpty and AdditionalNotesIgnoreValues |
| Analysis.EvidenceItems | geminiService.ts:25-26 | the items sending a photo are exactly those with a non-empty image that are currently failed |
| Analysis.StripDataUrlPrefix | geminiService.ts:30 | a payload is sent exactly when the image string contains a comma, and the payload has no comma |
| Analysis.StripDataUrlPrefixOfDataUrl | geminiService.ts:30 | for a data URL `prefix,payload` the payload sent is exactly the base64 part |
| Analysis.ImageParts | geminiService.ts:25-34 | one JPEG part per evidence item, in order, each carrying that item's stripped image |
| Analysis.BuildParts | geminiService.ts:22-34 | the request is the text prompt followed by one JPEG part per evidence item, in checklist order |
| Analysis.EvidenceInChecklistOrder | geminiService.ts:25-34 | the evidence of a split checklist is that of the first part followed by that of the second |
| Analysis.PassingDropsEvidence | geminiService.ts:26 | passing an item that had evidence removes exactly one photo from the request, although the item keeps its image |
| Analysis.DefectsFoundIgnoresEvidence | geminiService.ts:15 | the defects fragment reads only the captions and pass marks |
| Analysis.AdditionalNotesIgnoreValues | geminiService.ts:16 | the notes fragment lists notes of passed and failed items alike |
| Analysis.DefectsFoundAppend | geminiService.ts:15 | defects of consecutive parts of the checklist are joined with one ", " |
| Analysis.DefectsFoundEmpty | geminiService.ts:15 | with non-empty captions, the defects text is empty exactly when every item passed |
| Analysis.AdditionalNotesEmpty | geminiService.ts:16 | the notes text is empty exactly when no item has a present, non-empty note |
| Analysis.ResolveAnalysis | geminiService.ts:36-66 | a reply is passed through; any failure yields MEDIUM risk, the fixed summary and the single fixed recommendation |
| Analysis.AnalyzeSafetyStatus | geminiService.ts:7-66 | the answer is the service's reply to the built request, or the fallback when the call fails |
| Session.Step | App.tsx:231-285 | the event handlers of the screen; specified by StepInvariant and the lemmas below it |
| Session.StepInvariant | App.tsx:231-285 | every event preserves the screen invariant |
| Session.RunInvariant | App.tsx:195-285 | any sequence of events preserves the screen invariant |
| Session.ReachableInvariant | App.tsx:195-285 | every reachable state satisfies the invariant: checklist shape fixed, fields without inputs empty, analysing exactly while a snapshot is pending, and a shown result carries its checklist's verdict |
| Session.ReachableVerdict | App.tsx:266-272 | in every reachable state the vehicle passes exactly when all critical items pass |
| Session.SubmittedShowsVerdict | App.tsx:311-318 | the result screen always shows an analysis and the verdict of the checklist it shows, never PENDING |
| Session.ReachablePromptHasNoYear | geminiService.ts:14 | the year, engine number and odometer are never filled in, in the form or in a pending snapshot, so the vehicle details of either, and so those sent, always start with an empty year |
| Session.TickingRaisesProgress | App.tsx:222-238 | ticking a failed item while editing raises the passed count by exactly one and never lowers the progress |
| Session.SubmitNeedsRequiredFields | App.tsx:384-429 | with a required input empty, submitting changes nothing |
| Session.SubmitDisabledWhileAnalyzing | App.tsx:472 | submitting while an analysis runs changes nothing |
| Session.SubmitStampsVerdict | App.tsx:274-279 | an accepted submission starts the analysis of the form with its verdict stamped and leaves the visible form as it was |
| Session.CompletionShowsResult | App.tsx:279-283 | completion shows the snapshot with the service's reply to the request built from that snapshot, or the fallback analysis when the call fails |
| Session.EditsDuringAnalysisDiscarded | App.tsx:278-281 | a tick or a note made while the analysis runs is overwritten by the snapshot at completion |
| Session.CaptureDuringAnalysisNotSent | App.tsx:249-259 | a photo taken while the analysis runs is neither sent nor kept: completion ends as it would without it, apart from the closed camera |
| Session.NotesOnlyOnFailedItems | App.tsx:161-169 | in a reachable state a note event changes at most one item, which was failed, and only its note |
| Session.EditInspectionKeepsForm | App.tsx:366-367 | "Edit Inspection" returns to the form without changing it |
| Session.NewInspectionResetsChecklist | App.tsx:527 | "New Inspection" returns to the form with a fresh checklist and every other field as it was |

## Left out

- The camera modal, the device camera and image capture: the captured image arrives as a string in the `CaptureImage` event.
- Rendering, styling, the collapsible category accordion (`openCategories`, `toggleCategory`), printing and scrolling: presentation only.
- The network call to the language model, its model name and response schema: the call is the `service` parameter of `Analysis.AnalyzeSafetyStatus`. Its outcome is either an already-parsed response or a failure.
- The unchecked `as AISafetyResponse` cast of the parsed JSON: a reply that parses but does not fit the record is not modelled. In particular a reply `null` parses without throwing (geminiService.ts:58), so the source leaves `aiAnalysis` null after submission; the result block and "Edit Inspection" are then not rendered (App.tsx:333), and the invariant's "a shown result has an analysis" fails in the source.
- Session.SubmittedShowsVerdict: its `aiAnalysis.Some?` conclusion depends on every reply being a record, as described in the line above.
- Session.EditInspectionKeepsForm: holds only under the same assumption; with a `null` reply the source offers no "Edit Inspection" button.
- The fixed prose of the prompt: the model keeps only the three computed fragments.
- API key handling and `console.error` logging: environment and output only.
- The clock: today's date in `InitialForm` is a parameter. Locale date formatting on the result screen is also left out.
- Checklist.Progress: modelled with exact integer round-half-up instead of floating-point division followed by `Math.round`. These agree unless floating-point error crosses a rounding boundary, which cannot happen for a 22-item checklist.
- Checklist.ProgressFullIffAllPassed: stated only for checklists of fewer than 200 items. At 200 items or more, a single failure already rounds up to 100%.
- Checklist.ProgressZeroIffNonePassed: stated only for checklists of at most 200 items. Beyond that, a single pass rounds down to 0%.
- Form.HandleInputChange: a string that is no class label leaves the form unchanged. The source would store that string in `vehicleClass`; the select offers only the five labels, so no rendered control sends one, and the model's class field holds only classes.
- Form.HandleInputChange: the optional `aiSafetyAnalysis` form field is never set by the source, so it is carried unchanged.
- Session.Step: the camera modal is rendered whenever a camera id is set, also while an analysis runs and on the result screen, so `CaptureImage` is not gated. Which item rows are expanded in the accordion is presentation.
