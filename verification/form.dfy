/** The form-level updates of the inspection screen (App.tsx): editing one identification
    field, stamping the verdict on submission, and starting a new inspection. */
module Form {
  import opened Types
  import opened Checklist
  import opened Constants

  /** The free-text identification fields of the form. */
  datatype TextField =
    | InspectorName | InspectionDate | VehiclePlate | VehicleMake | VehicleModel
    | VehicleYear | VinNumber | EngineNumber | Odometer

  function GetText(f: InspectionForm, field: TextField): string
  {
    match field
    case InspectorName => f.inspectorName
    case InspectionDate => f.inspectionDate
    case VehiclePlate => f.vehiclePlate
    case VehicleMake => f.vehicleMake
    case VehicleModel => f.vehicleModel
    case VehicleYear => f.vehicleYear
    case VinNumber => f.vinNumber
    case EngineNumber => f.engineNumber
    case Odometer => f.odometer
  }

  /** The fields the screen renders an input for. The year, engine number and odometer
      have none, so no event can ever change them. */
  predicate HasInput(field: TextField)
  {
    !(field.VehicleYear? || field.EngineNumber? || field.Odometer?)
  }

  /** One change event: a text input names its field; the class `<select>` sends the
      string of the chosen option. */
  datatype Edit = SetText(field: TextField, value: string) | SelectClass(value: string)

  /** `handleInputChange`: the named field takes the new value and nothing else changes.
      The class field can only hold a class, so the select's string is read back as one;
      a string that is no class label leaves the form as it was. */
  function HandleInputChange(f: InspectionForm, e: Edit): (r: InspectionForm)
    ensures r.checklist == f.checklist && r.overallStatus == f.overallStatus
    ensures r.aiSafetyAnalysis == f.aiSafetyAnalysis
    ensures e.SetText? ==> GetText(r, e.field) == e.value && r.vehicleClass == f.vehicleClass
    ensures e.SetText? ==> forall g :: g != e.field ==> GetText(r, g) == GetText(f, g)
    ensures e.SelectClass? ==> forall g :: GetText(r, g) == GetText(f, g)
    ensures e.SelectClass? && (exists c :: ClassLabel(c) == e.value) ==> ClassLabel(r.vehicleClass) == e.value
    ensures e.SelectClass? && (forall c :: ClassLabel(c) != e.value) ==> r == f
  {
    match e
    case SelectClass(v) =>
      (match ClassOfLabel(v) case Some(vc) => f.(vehicleClass := vc) case None => f)
    case SetText(field, v) =>
      match field
      case InspectorName => f.(inspectorName := v)
      case InspectionDate => f.(inspectionDate := v)
      case VehiclePlate => f.(vehiclePlate := v)
      case VehicleMake => f.(vehicleMake := v)
      case VehicleModel => f.(vehicleModel := v)
      case VehicleYear => f.(vehicleYear := v)
      case VinNumber => f.(vinNumber := v)
      case EngineNumber => f.(engineNumber := v)
      case Odometer => f.(odometer := v)
  }

  /** Fields without an input keep their initial empty value. */
  predicate UneditedFieldsEmpty(f: InspectionForm)
  {
    f.vehicleYear == "" && f.engineNumber == "" && f.odometer == ""
  }

  /** No change event from a rendered input can fill in the year, engine number or
      odometer. */
  lemma InputChangeKeepsUneditedFields(f: InspectionForm, e: Edit)
    requires UneditedFieldsEmpty(f)
    requires e.SetText? ==> HasInput(e.field)
    ensures UneditedFieldsEmpty(HandleInputChange(f, e))
  {
    var r := HandleInputChange(f, e);
    assert GetText(r, VehicleYear) == GetText(f, VehicleYear);
    assert GetText(r, EngineNumber) == GetText(f, EngineNumber);
    assert GetText(r, Odometer) == GetText(f, Odometer);
  }

  /** Choosing an option of the class select sets exactly that class: the option's
      value is the class's label, and labels identify classes. */
  lemma SelectClassOption(f: InspectionForm, vc: VehicleClass)
    ensures HandleInputChange(f, SelectClass(ClassLabel(vc))) == f.(vehicleClass := vc)
  {
    ClassLabelRoundTrip(vc);
  }

  /** Typing the old value back into a field restores the form exactly. */
  lemma InputChangeUndo(f: InspectionForm, field: TextField, v: string)
    ensures HandleInputChange(HandleInputChange(f, SetText(field, v)), SetText(field, GetText(f, field))) == f
  {
  }

  /** The inputs carrying the HTML `required` attribute; the browser refuses to submit
      while any of them is empty. */
  predicate RequiredFieldsPresent(f: InspectionForm)
  {
    && f.inspectorName != ""
    && f.inspectionDate != ""
    && f.vehiclePlate != ""
    && f.vehicleMake != ""
    && f.vehicleModel != ""
    && f.vinNumber != ""
  }

  /** A fresh form cannot be submitted: the inspector's name, the plate and the vehicle
      fields start empty. */
  lemma InitialFormIncomplete(today: string)
    ensures !RequiredFieldsPresent(InitialForm(today))
  {
  }

  /** `{ ...formData, overallStatus: verdict }`: the form with the computed verdict and
      every other field as it was. */
  function ApplyVerdict(f: InspectionForm): (r: InspectionForm)
    ensures r.overallStatus == CalculateVerdict(f.checklist) && r.overallStatus != PENDING
    ensures r.(overallStatus := f.overallStatus) == f
  {
    f.(overallStatus := CalculateVerdict(f.checklist))
  }

  /** "New Inspection": a fresh checklist; identification fields and status are kept. */
  function ResetChecklist(f: InspectionForm): (r: InspectionForm)
    ensures r.checklist == INITIAL_CHECKLIST
    ensures r.(checklist := f.checklist) == f
    ensures Progress(r.checklist) == 0
  {
    InitialProgressAndVerdict();
    f.(checklist := INITIAL_CHECKLIST)
  }

  /** The form on first render. The date defaults to the current day, which the model
      takes as a parameter. */
  function InitialForm(today: string): (r: InspectionForm)
    ensures r.checklist == INITIAL_CHECKLIST && r.overallStatus == PENDING
    ensures r.inspectionDate == today && r.vehicleClass == Private
    ensures forall g :: g != InspectionDate ==> GetText(r, g) == ""
  {
    InspectionForm("", today, "", "", "", "", Private, "", "", "", INITIAL_CHECKLIST, PENDING, None)
  }
}
