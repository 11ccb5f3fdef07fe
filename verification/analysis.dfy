/** The request/response adapter to the remote risk-analysis service (geminiService.ts):
    which prompt fragments and evidence images are sent, how the data-URL prefix is
    removed, and the fixed answer that replaces any failure. The remote call itself is
    a parameter of the model. */
module Analysis {
  import opened Types
  import opened Seqs

  /** The three computed fragments of the prompt; the prose around them is fixed text. */
  datatype Prompt = Prompt(vehicleDetails: string, defectsFound: string, additionalNotes: string)

  /** One element of the request's `parts` list. `data` is None where JavaScript would
      read `undefined` (an image string with no comma). */
  datatype Part = TextPart(prompt: Prompt) | InlineData(mimeType: string, data: Option<string>)

  const IMAGE_MIME_TYPE: string := "image/jpeg"

  /** "year make model (class label)". */
  function VehicleDetails(f: InspectionForm): string
  {
    f.vehicleYear + " " + f.vehicleMake + " " + f.vehicleModel + " (" + ClassLabel(f.vehicleClass) + ")"
  }

  /** With no year filled in, the details start with the separating space. */
  lemma VehicleDetailsWithoutYear(f: InspectionForm)
    requires f.vehicleYear == ""
    ensures VehicleDetails(f) ==
      " " + f.vehicleMake + " " + f.vehicleModel + " (" + ClassLabel(f.vehicleClass) + ")"
  {
  }

  /** The details read only the year, make, model and class: no other form field and
      nothing of the checklist reaches that line of the prompt. */
  lemma VehicleDetailsReadsVehicleOnly(f: InspectionForm, g: InspectionForm)
    requires f.vehicleYear == g.vehicleYear && f.vehicleMake == g.vehicleMake
    requires f.vehicleModel == g.vehicleModel && f.vehicleClass == g.vehicleClass
    ensures VehicleDetails(f) == VehicleDetails(g)
  {
  }

  predicate Failed(x: Item) { !x.value }

  function Caption(x: Item): string { x.caption }

  /** "Defects Found": the captions of the failed items, in order, joined by ", ". */
  function DefectsFound(c: seq<Item>): string
  {
    Join(MapSeq(Caption, Filter(Failed, c)), ", ")
  }

  /** The notes test is JavaScript truthiness: an empty note counts as no note. */
  predicate HasNotes(x: Item) { Truthy(x.notes) }

  function NoteLine(x: Item): string
  {
    x.caption + ": " + (match x.notes case Some(n) => n case None => "")
  }

  /** "Additional Notes": "caption: notes" for every item with a non-empty note, failed
      or not, in order, joined by "; ". */
  function AdditionalNotes(c: seq<Item>): string
  {
    Join(MapSeq(NoteLine, Filter(HasNotes, c)), "; ")
  }

  function BuildPrompt(f: InspectionForm): Prompt
  {
    Prompt(VehicleDetails(f), DefectsFound(f.checklist), AdditionalNotes(f.checklist))
  }

  /** An item sends evidence when it has a non-empty image and is currently failed. */
  predicate HasEvidence(x: Item) { Truthy(x.image) && !x.value }

  function EvidenceItems(c: seq<Item>): (r: seq<Item>)
    ensures forall x :: x in r <==> x in c && Truthy(x.image) && !x.value
    ensures forall x :: x in r ==> !x.value
  {
    Filter(HasEvidence, c)
  }

  /** `image.split(',')[1]`: the text between the first comma and the next one (or the
      end); None when the string has no comma. */
  function StripDataUrlPrefix(image: string): (r: Option<string>)
    ensures r.Some? <==> ',' in image
    ensures r.Some? ==> ',' !in r.value
  {
    var fields := Split(image, ',');
    if |fields| > 1 then Some(fields[1]) else None
  }

  /** For a data URL "prefix,payload" the payload is exactly what is sent. */
  lemma StripDataUrlPrefixOfDataUrl(prefix: string, payload: string)
    requires ',' !in prefix && ',' !in payload
    ensures StripDataUrlPrefix(prefix + "," + payload) == Some(payload)
  {
    JoinThenSplit([prefix, payload], ',');
    assert Join([prefix, payload], [',']) == prefix + "," + payload;
  }

  function ImagePart(x: Item): Part
  {
    InlineData(IMAGE_MIME_TYPE, StripDataUrlPrefix(match x.image case Some(img) => img case None => ""))
  }

  /** One JPEG part per evidence item, in order. */
  function ImageParts(evidence: seq<Item>): (r: seq<Part>)
    ensures |r| == |evidence|
    ensures forall k :: 0 <= k < |r| ==> r[k] == ImagePart(evidence[k])
    ensures forall k :: 0 <= k < |r| ==> r[k].InlineData? && r[k].mimeType == IMAGE_MIME_TYPE
  {
    MapSeq(ImagePart, evidence)
  }

  /** The request: the text prompt first, then one JPEG part per item with evidence, in
      checklist order. */
  function BuildParts(f: InspectionForm): (parts: seq<Part>)
    ensures |parts| == 1 + |EvidenceItems(f.checklist)|
    ensures parts[0] == TextPart(BuildPrompt(f))
    ensures forall k :: 0 <= k < |EvidenceItems(f.checklist)| ==>
      parts[k + 1] == ImagePart(EvidenceItems(f.checklist)[k])
    ensures forall k :: 1 <= k < |parts| ==> parts[k].InlineData? && parts[k].mimeType == IMAGE_MIME_TYPE
  {
    var images := ImageParts(EvidenceItems(f.checklist));
    var parts := [TextPart(BuildPrompt(f))] + images;
    assert forall k :: 1 <= k < |parts| ==> parts[k] == images[k - 1];
    parts
  }

  /** Evidence keeps checklist order: the evidence of a list split in two is the
      evidence of the first part followed by that of the second. */
  lemma EvidenceInChecklistOrder(a: seq<Item>, b: seq<Item>)
    ensures EvidenceItems(a + b) == EvidenceItems(a) + EvidenceItems(b)
  {
    FilterAppend(HasEvidence, a, b);
  }

  /** Passing an item that carried evidence removes exactly one image from the request,
      although the item keeps its image. */
  lemma PassingDropsEvidence(c: seq<Item>, i: nat)
    requires i < |c| && Truthy(c[i].image) && !c[i].value
    ensures var d := c[i := c[i].(value := true)];
      && |EvidenceItems(d)| + 1 == |EvidenceItems(c)|
      && d[i].image == c[i].image
  {
    FilterCountDropOne(HasEvidence, c, c[i := c[i].(value := true)], i);
  }

  /** The defects fragment reads only captions and values: notes and images do not
      change it. */
  lemma DefectsFoundIgnoresEvidence(a: seq<Item>, b: seq<Item>)
    requires |a| == |b|
    requires forall i :: 0 <= i < |a| ==> a[i].value == b[i].value && a[i].caption == b[i].caption
    ensures DefectsFound(a) == DefectsFound(b)
  {
    FilterMapPointwise(Failed, Caption, a, b);
  }

  /** The notes fragment does not depend on which items passed. */
  lemma AdditionalNotesIgnoreValues(a: seq<Item>, b: seq<Item>)
    requires |a| == |b|
    requires forall i :: 0 <= i < |a| ==> a[i].notes == b[i].notes && a[i].caption == b[i].caption
    ensures AdditionalNotes(a) == AdditionalNotes(b)
  {
    FilterMapPointwise(HasNotes, NoteLine, a, b);
  }

  /** The defects of a list split in two are joined with one ", " in between (or are
      those of one side when the other has none). */
  lemma DefectsFoundAppend(a: seq<Item>, b: seq<Item>)
    ensures var fa, fb := Filter(Failed, a), Filter(Failed, b);
      DefectsFound(a + b) ==
        if |fa| == 0 then DefectsFound(b)
        else if |fb| == 0 then DefectsFound(a)
        else DefectsFound(a) + ", " + DefectsFound(b)
  {
    var fa, fb := Filter(Failed, a), Filter(Failed, b);
    FilterAppend(Failed, a, b);
    MapAppend(Caption, fa, fb);
    if |fa| > 0 && |fb| > 0 {
      JoinAppend(MapSeq(Caption, fa), MapSeq(Caption, fb), ", ");
    } else if |fa| == 0 {
      assert fa + fb == fb;
    } else {
      assert fa + fb == fa;
    }
  }

  /** When every caption is non-empty, there is no defects text exactly when nothing failed. */
  lemma DefectsFoundEmpty(c: seq<Item>)
    requires forall i :: 0 <= i < |c| ==> c[i].caption != ""
    ensures DefectsFound(c) == "" <==> forall i :: 0 <= i < |c| ==> c[i].value
  {
    var failed := Filter(Failed, c);
    assert forall x :: x in failed ==> x.caption != "";
    JoinEmpty(MapSeq(Caption, failed), ", ");
    FilterNonEmpty(Failed, c);
  }

  /** Every note line contains ": ", so the notes text is empty exactly when no item has
      a non-empty note: empty notes are skipped, not listed as "caption: ". */
  lemma AdditionalNotesEmpty(c: seq<Item>)
    ensures AdditionalNotes(c) == "" <==> forall i :: 0 <= i < |c| ==> !Truthy(c[i].notes)
  {
    var lines := MapSeq(NoteLine, Filter(HasNotes, c));
    assert forall k :: 0 <= k < |lines| ==> |lines[k]| >= 2;
    JoinEmpty(lines, "; ");
    FilterNonEmpty(HasNotes, c);
  }

  /** What the remote call produced: a reply already parsed into the response record, or
      any failure (transport error, malformed or unparsable reply). */
  datatype ServiceOutcome = Replied(response: AISafetyResponse) | CallFailed

  const FALLBACK_RESPONSE: AISafetyResponse := AISafetyResponse(
    "AI safety analysis is temporarily unavailable.",
    MEDIUM,
    ["Manually review all failed items against the Road Traffic Act."])

  /** The try/catch around the call: a reply is passed through, a failure becomes the
      fixed fallback, so the caller always receives a response. */
  function ResolveAnalysis(o: ServiceOutcome): (r: AISafetyResponse)
    ensures o.CallFailed? ==> r.riskLevel == MEDIUM && |r.recommendations| == 1
    ensures o.CallFailed? ==> r.summary == "AI safety analysis is temporarily unavailable."
    ensures o.CallFailed? ==> r.recommendations[0] == "Manually review all failed items against the Road Traffic Act."
    ensures o.Replied? ==> r == o.response
  {
    match o
    case Replied(resp) => resp
    case CallFailed => FALLBACK_RESPONSE
  }

  /** `analyzeSafetyStatus`: send the request built from the form to `service` and
      resolve its outcome. */
  function AnalyzeSafetyStatus(f: InspectionForm, service: seq<Part> -> ServiceOutcome): (r: AISafetyResponse)
    ensures service(BuildParts(f)).CallFailed? ==> r == FALLBACK_RESPONSE
    ensures service(BuildParts(f)).Replied? ==> r == service(BuildParts(f)).response
  {
    ResolveAnalysis(service(BuildParts(f)))
  }
}
