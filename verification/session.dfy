/** The inspection screen as a state machine (App.tsx): the form, the analysis shown
    after submission, the `isAnalyzing` / `isSubmitted` flags and the open camera. Each
    user action or completion of the remote call is an event; an event the screen does
    not offer in the current state (its control is not rendered or is disabled) leaves
    the state unchanged. */
module Session {
  import opened Types
  import opened Seqs
  import opened Checklist
  import opened Constants
  import opened Form
  import opened Analysis

  /** `pending` is the `updatedData` snapshot held by a submission whose remote call has
      not completed yet; on completion it becomes the form. */
  datatype State = State(
    form: InspectionForm,
    aiAnalysis: Option<AISafetyResponse>,
    isAnalyzing: bool,
    isSubmitted: bool,
    activeCameraItemId: Option<string>,
    pending: Option<InspectionForm>)

  datatype Event =
    | ToggleCheck(id: string)
    | UpdateNote(id: string, note: string)
    | OpenCamera(id: string)
    | CloseCamera
    | CaptureImage(base64: string)
    | InputChange(edit: Edit)
    | Submit
    | AnalysisDone(service: seq<Part> -> ServiceOutcome)
    | EditInspection
    | NewInspection

  function Initial(today: string): State
  {
    State(InitialForm(today), None, false, false, None, None)
  }

  /** Whether a change event comes from a rendered input: a text field that has an
      input, or one of the select's five options (App.tsx:416). */
  predicate Editable(e: Edit)
  {
    match e
    case SetText(field, _) => HasInput(field)
    case SelectClass(v) => ClassOfLabel(v).Some?
  }

  function WithChecklist(s: State, c: seq<Item>): State
  {
    s.(form := s.form.(checklist := c))
  }

  function Step(s: State, e: Event): State
  {
    match e
    case ToggleCheck(id) =>
      if s.isSubmitted then s else WithChecklist(s, Checklist.ToggleCheck(s.form.checklist, id))
    case UpdateNote(id, note) =>
      if s.isSubmitted || !HasFailedItem(s.form.checklist, id) then s
      else WithChecklist(s, Checklist.UpdateNote(s.form.checklist, id, note))
    case OpenCamera(id) =>
      if s.isSubmitted || !HasFailedItem(s.form.checklist, id) then s
      else s.(activeCameraItemId := Some(id))
    case CloseCamera =>
      s.(activeCameraItemId := None)
    case CaptureImage(base64) =>
      var (c, active) := HandleCaptureImage(s.form.checklist, s.activeCameraItemId, base64);
      WithChecklist(s, c).(activeCameraItemId := active)
    case InputChange(edit) =>
      if s.isSubmitted || !Editable(edit) then s else s.(form := HandleInputChange(s.form, edit))
    case Submit =>
      if s.isSubmitted || s.isAnalyzing || !RequiredFieldsPresent(s.form) then s
      else s.(isAnalyzing := true, pending := Some(ApplyVerdict(s.form)))
    case AnalysisDone(service) =>
      if s.pending.None? then s
      else s.(aiAnalysis := Some(AnalyzeSafetyStatus(s.pending.value, service)), form := s.pending.value,
              isAnalyzing := false, isSubmitted := true, pending := None)
    case EditInspection =>
      if s.isSubmitted && s.aiAnalysis.Some? then s.(isSubmitted := false) else s
    case NewInspection =>
      if s.isSubmitted then s.(isSubmitted := false, form := ResetChecklist(s.form)) else s
  }

  function Run(s: State, events: seq<Event>): State
    decreases |events|
  {
    if |events| == 0 then s else Run(Step(s, events[0]), events[1..])
  }

  /** What holds in every state the screen can reach. */
  predicate Invariant(s: State)
  {
    && SameShape(s.form.checklist, INITIAL_CHECKLIST)
    && UneditedFieldsEmpty(s.form)
    && (s.isAnalyzing <==> s.pending.Some?)
    && (s.isAnalyzing ==> !s.isSubmitted)
    && (s.pending.Some? ==>
          && SameShape(s.pending.value.checklist, INITIAL_CHECKLIST)
          && UneditedFieldsEmpty(s.pending.value)
          && s.pending.value.overallStatus == CalculateVerdict(s.pending.value.checklist))
    && (s.isSubmitted ==>
          && s.aiAnalysis.Some?
          && s.form.overallStatus == CalculateVerdict(s.form.checklist))
  }

  lemma InitialInvariant(today: string)
    ensures Invariant(Initial(today))
  {
  }

  /** Replacing the checklist by one with the same items keeps the invariant, provided
      the verdict of a shown result does not change. */
  lemma ChecklistEditInvariant(s: State, c: seq<Item>, active: Option<string>)
    requires Invariant(s)
    requires SameShape(c, s.form.checklist)
    requires s.isSubmitted ==> CalculateVerdict(c) == CalculateVerdict(s.form.checklist)
    ensures Invariant(WithChecklist(s, c).(activeCameraItemId := active))
  {
    SameShapeTransitive(c, s.form.checklist, INITIAL_CHECKLIST);
  }

  lemma SubmitInvariant(s: State)
    requires Invariant(s)
    ensures Invariant(Step(s, Submit))
  {
  }

  lemma CompletionInvariant(s: State, service: seq<Part> -> ServiceOutcome)
    requires Invariant(s)
    ensures Invariant(Step(s, AnalysisDone(service)))
  {
  }

  lemma NewInspectionInvariant(s: State)
    requires Invariant(s)
    ensures Invariant(Step(s, NewInspection))
  {
  }

  lemma CaptureInvariant(s: State, base64: string)
    requires Invariant(s)
    ensures Invariant(Step(s, CaptureImage(base64)))
  {
    var r := HandleCaptureImage(s.form.checklist, s.activeCameraItemId, base64);
    CaptureImageKeepsVerdict(s.form.checklist, s.activeCameraItemId, base64);
    ChecklistEditInvariant(s, r.0, r.1);
    assert Step(s, CaptureImage(base64)) == WithChecklist(s, r.0).(activeCameraItemId := r.1);
  }

  lemma ToggleInvariant(s: State, id: string)
    requires Invariant(s)
    ensures Invariant(Step(s, ToggleCheck(id)))
  {
    if !s.isSubmitted {
      ChecklistEditInvariant(s, Checklist.ToggleCheck(s.form.checklist, id), s.activeCameraItemId);
    }
  }

  lemma NoteInvariant(s: State, id: string, note: string)
    requires Invariant(s)
    ensures Invariant(Step(s, UpdateNote(id, note)))
  {
    if !s.isSubmitted && HasFailedItem(s.form.checklist, id) {
      ChecklistEditInvariant(s, Checklist.UpdateNote(s.form.checklist, id, note), s.activeCameraItemId);
    }
  }

  lemma InputInvariant(s: State, edit: Edit)
    requires Invariant(s)
    ensures Invariant(Step(s, InputChange(edit)))
  {
    if !s.isSubmitted && Editable(edit) {
      InputChangeKeepsUneditedFields(s.form, edit);
    }
  }

  lemma StepInvariant(s: State, e: Event)
    requires Invariant(s)
    ensures Invariant(Step(s, e))
  {
    match e
    case CaptureImage(base64) => CaptureInvariant(s, base64);
    case ToggleCheck(id) => ToggleInvariant(s, id);
    case UpdateNote(id, note) => NoteInvariant(s, id, note);
    case InputChange(edit) => InputInvariant(s, edit);
    case Submit => SubmitInvariant(s);
    case AnalysisDone(service) => CompletionInvariant(s, service);
    case NewInspection => NewInspectionInvariant(s);
    case _ =>
  }

  lemma {:induction false} RunInvariant(s: State, events: seq<Event>)
    requires Invariant(s)
    ensures Invariant(Run(s, events))
    decreases |events|
  {
    if |events| > 0 {
      StepInvariant(s, events[0]);
      RunInvariant(Step(s, events[0]), events[1..]);
    }
  }

  /** A state reachable from the first render by some sequence of events. */
  ghost predicate Reachable(s: State)
  {
    exists today: string, events: seq<Event> :: s == Run(Initial(today), events)
  }

  lemma ReachableInvariant(s: State)
    requires Reachable(s)
    ensures Invariant(s)
  {
    var today: string, events: seq<Event> :| s == Run(Initial(today), events);
    InitialInvariant(today);
    RunInvariant(Initial(today), events);
  }

  /** In every reachable state the vehicle passes exactly when all critical items pass:
      the fixed list has only two non-critical items, so the "more than three" rule never
      applies. */
  lemma ReachableVerdict(s: State)
    requires Reachable(s)
    ensures CalculateVerdict(s.form.checklist) == PASS <==>
      forall i :: 0 <= i < |s.form.checklist| && s.form.checklist[i].isCritical ==> s.form.checklist[i].value
  {
    assert SameShape(s.form.checklist, INITIAL_CHECKLIST) by { ReachableInvariant(s); }
    VerdictOnFixedChecklist(s.form.checklist);
  }

  /** The result screen always shows the verdict of the checklist it shows, never PENDING. */
  lemma SubmittedShowsVerdict(s: State)
    requires Reachable(s) && s.isSubmitted
    ensures s.form.overallStatus == CalculateVerdict(s.form.checklist) != PENDING
    ensures s.aiAnalysis.Some?
  {
    assert s.form.overallStatus == CalculateVerdict(s.form.checklist) && s.aiAnalysis.Some? by {
      ReachableInvariant(s);
    }
  }

  /** The year, engine number and odometer are never filled in, neither in the form nor
      in a pending snapshot, so the vehicle details sent for analysis always begin with
      an empty year. */
  lemma ReachablePromptHasNoYear(s: State)
    requires Reachable(s)
    ensures UneditedFieldsEmpty(s.form)
    ensures VehicleDetails(s.form) ==
      " " + s.form.vehicleMake + " " + s.form.vehicleModel + " (" + ClassLabel(s.form.vehicleClass) + ")"
    ensures s.pending.Some? ==> UneditedFieldsEmpty(s.pending.value)
    ensures s.pending.Some? ==>
      var p := s.pending.value;
      VehicleDetails(p) == " " + p.vehicleMake + " " + p.vehicleModel + " (" + ClassLabel(p.vehicleClass) + ")"
  {
    assert UneditedFieldsEmpty(s.form) && (s.pending.Some? ==> UneditedFieldsEmpty(s.pending.value)) by {
      ReachableInvariant(s);
    }
    VehicleDetailsWithoutYear(s.form);
    if s.pending.Some? {
      VehicleDetailsWithoutYear(s.pending.value);
    }
  }

  /** In a reachable editing state, ticking a failed item's box raises the pass count by
      exactly one and never lowers the progress bar. */
  lemma TickingRaisesProgress(s: State, i: nat)
    requires Reachable(s) && !s.isSubmitted
    requires i < |s.form.checklist| && !s.form.checklist[i].value
    ensures var c, d := s.form.checklist, Step(s, ToggleCheck(s.form.checklist[i].id)).form.checklist;
      && PassedCount(d) == PassedCount(c) + 1
      && Progress(d) >= Progress(c)
  {
    var c := s.form.checklist;
    assert SameShape(c, INITIAL_CHECKLIST) by { ReachableInvariant(s); }
    FixedChecklistIdsDistinct(c);
    ToggleCheckUniqueId(c, i);
    var d := c[i := c[i].(value := true)];
    FilterCountDropOne(Passed, d, c, i);
    ProgressMonotone(c, i);
  }

  /** The browser refuses to submit while a required input is empty. */
  lemma SubmitNeedsRequiredFields(s: State)
    requires !RequiredFieldsPresent(s.form)
    ensures Step(s, Submit) == s
  {
  }

  /** Submitting is refused while an analysis is running. */
  lemma SubmitDisabledWhileAnalyzing(s: State)
    requires s.isAnalyzing
    ensures Step(s, Submit) == s
  {
  }

  /** An accepted submission starts the analysis of the form with its verdict stamped
      and every other field unchanged. */
  lemma SubmitStampsVerdict(s: State)
    requires !s.isSubmitted && !s.isAnalyzing && RequiredFieldsPresent(s.form)
    ensures var t := Step(s, Submit);
      && t.isAnalyzing && t.form == s.form
      && t.pending == Some(s.form.(overallStatus := CalculateVerdict(s.form.checklist)))
  {
  }

  /** Completion shows the result for the submitted snapshot: the analysis is the
      service's reply to the request built from that snapshot, and a failed call still
      yields the fallback analysis. */
  lemma CompletionShowsResult(s: State, service: seq<Part> -> ServiceOutcome)
    requires s.pending.Some?
    ensures var t := Step(s, AnalysisDone(service));
      && t.isSubmitted && !t.isAnalyzing && t.pending == None
      && t.form == s.pending.value
      && (service(BuildParts(s.pending.value)).Replied? ==>
            t.aiAnalysis == Some(service(BuildParts(s.pending.value)).response))
      && (service(BuildParts(s.pending.value)).CallFailed? ==> t.aiAnalysis == Some(FALLBACK_RESPONSE))
  {
  }

  /** Checklist edits made while the analysis runs are lost: completion stores the
      snapshot taken at submission, and the request was built from it. Both kinds of
      edit, ticking a box and writing a note, are covered. */
  lemma EditsDuringAnalysisDiscarded(s: State, id: string, note: string, service: seq<Part> -> ServiceOutcome)
    requires s.pending.Some? && !s.isSubmitted
    ensures Step(Step(s, ToggleCheck(id)), AnalysisDone(service)) == Step(s, AnalysisDone(service))
    ensures Step(Step(s, UpdateNote(id, note)), AnalysisDone(service)) == Step(s, AnalysisDone(service))
  {
  }

  /** A photo taken while the analysis runs is neither sent nor kept: completion ends in
      the same state as without it, apart from the closed camera. */
  lemma CaptureDuringAnalysisNotSent(s: State, base64: string, service: seq<Part> -> ServiceOutcome)
    requires s.pending.Some?
    ensures var t := Step(Step(s, CaptureImage(base64)), AnalysisDone(service));
      t == Step(s, AnalysisDone(service)).(activeCameraItemId := t.activeCameraItemId)
  {
  }

  /** In a reachable state a note reaches only the failed item it was typed into: at
      most one item changes, it was failed, and only its note differs. */
  lemma NotesOnlyOnFailedItems(s: State, id: string, note: string)
    requires Reachable(s)
    ensures var c, d := s.form.checklist, Step(s, UpdateNote(id, note)).form.checklist;
      && |d| == |c|
      && (forall i :: 0 <= i < |c| && d[i] != c[i] ==> !c[i].value && d[i] == c[i].(notes := Some(note)))
      && (forall i, j :: 0 <= i < j < |c| ==> d[i] == c[i] || d[j] == c[j])
  {
    var c := s.form.checklist;
    assert SameShape(c, INITIAL_CHECKLIST) by { ReachableInvariant(s); }
    if !s.isSubmitted && HasFailedItem(c, id) {
      FixedChecklistIdsDistinct(c);
      var j :| 0 <= j < |c| && c[j].id == id && !c[j].value;
      var d := Checklist.UpdateNote(c, id, note);
      forall i | 0 <= i < |c| && d[i] != c[i]
        ensures !c[i].value && d[i] == c[i].(notes := Some(note))
      {
        assert c[i].id == id;
        assert c[i].id == c[j].id;
        assert i == j;
      }
      forall i, k | 0 <= i < k < |c|
        ensures d[i] == c[i] || d[k] == c[k]
      {
        assert c[i].id != c[k].id;
      }
    }
  }

  /** "Edit Inspection" returns to the form without touching it. */
  lemma EditInspectionKeepsForm(s: State)
    requires Reachable(s) && s.isSubmitted
    ensures Step(s, EditInspection) == s.(isSubmitted := false)
  {
    assert s.aiAnalysis.Some? by { ReachableInvariant(s); }
  }

  /** "New Inspection" returns to the form with a fresh checklist and every other form
      field as it was. */
  lemma NewInspectionResetsChecklist(s: State)
    requires s.isSubmitted
    ensures var t := Step(s, NewInspection);
      && !t.isSubmitted
      && t.form.checklist == INITIAL_CHECKLIST
      && t.form.(checklist := s.form.checklist) == s.form
  {
  }
}
