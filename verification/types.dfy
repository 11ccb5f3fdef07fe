/** The records and closed enumerations of the inspection form (types.ts). */
module Types {

  /** An optional value: the model of a TypeScript `field?: T` or `T | null`. */
  datatype Option<+T> = None | Some(value: T)

  /** JavaScript truthiness of an optional string: present and not the empty string. */
  predicate Truthy(o: Option<string>)
  {
    o.Some? && o.value != ""
  }

  datatype InspectionStatus = PASS | FAIL | PENDING

  datatype VehicleClass = Private | Commercial | Taxi | Rental | Government

  /** The string each enumeration member stands for at run time. */
  function ClassLabel(c: VehicleClass): string
  {
    match c
    case Private => "Private (P)"
    case Commercial => "Commercial (T)"
    case Taxi => "Hired/Taxi (H)"
    case Rental => "Rental (R)"
    case Government => "Government (GP/L)"
  }

  /** Reads back a vehicle class from the string a `<select>` option carries. */
  function ClassOfLabel(s: string): (r: Option<VehicleClass>)
    ensures r.Some? ==> ClassLabel(r.value) == s
    ensures r.None? ==> forall c :: ClassLabel(c) != s
  {
    if s == "Private (P)" then Some(Private)
    else if s == "Commercial (T)" then Some(Commercial)
    else if s == "Hired/Taxi (H)" then Some(Taxi)
    else if s == "Rental (R)" then Some(Rental)
    else if s == "Government (GP/L)" then Some(Government)
    else None
  }

  /** The five labels are pairwise distinct, so the label identifies the class. */
  lemma ClassLabelRoundTrip(c: VehicleClass)
    ensures ClassOfLabel(ClassLabel(c)) == Some(c)
  {
  }

  /** One safety check. `value` true means the check passed; `caption` is the
      source's `label` field (a reserved word in Dafny). */
  datatype Item = Item(
    id: string,
    caption: string,
    category: string,
    value: bool,
    notes: Option<string>,
    image: Option<string>,
    isCritical: bool)

  datatype InspectionForm = InspectionForm(
    inspectorName: string,
    inspectionDate: string,
    vehiclePlate: string,
    vehicleMake: string,
    vehicleModel: string,
    vehicleYear: string,
    vehicleClass: VehicleClass,
    vinNumber: string,
    engineNumber: string,
    odometer: string,
    checklist: seq<Item>,
    overallStatus: InspectionStatus,
    aiSafetyAnalysis: Option<string>)

  datatype RiskLevel = LOW | MEDIUM | HIGH

  datatype AISafetyResponse = AISafetyResponse(
    summary: string,
    riskLevel: RiskLevel,
    recommendations: seq<string>)
}
