/** The fixed 22-item inspection checklist every inspection starts from (constants.tsx),
    and the facts about its shape that the verdict rule depends on. */
module Constants {
  import opened Types
  import opened Seqs
  import opened Checklist

  /** The Identification section (constants.tsx:6-8). */
  const IDENTIFICATION: seq<Item> := [
    Item("id_chassis", "Chassis/VIN Number Matches Documents", "Identification", false, None, None, true),
    Item("id_engine", "Engine Number Matches Documents", "Identification", false, None, None, true),
    Item("id_plates", "License Plates (Clean, Legible, Secure)", "Identification", false, None, None, true)
  ]

  /** The Lighting section (constants.tsx:11-14). */
  const LIGHTING: seq<Item> := [
    Item("light_head", "Headlamps (High/Low Beam)", "Lighting", false, None, None, true),
    Item("light_ind", "Indicators & Hazard Lights", "Lighting", false, None, None, true),
    Item("light_brake", "Brake Lights & High-Mount Lamp", "Lighting", false, None, None, true),
    Item("light_rev", "Reverse Lights", "Lighting", false, None, None, false)
  ]

  /** The Mechanical section (constants.tsx:17-20). */
  const MECHANICAL: seq<Item> := [
    Item("mech_foot", "Foot Brake (Service Brake Efficiency)", "Mechanical", false, None, None, true),
    Item("mech_hand", "Handbrake (Parking Brake)", "Mechanical", false, None, None, true),
    Item("mech_steer", "Steering Mechanism & Play", "Mechanical", false, None, None, true),
    Item("mech_susp", "Suspension (Shocks/Springs/Bushings)", "Mechanical", false, None, None, true)
  ]

  /** The Tires section (constants.tsx:23-25). */
  const TIRES: seq<Item> := [
    Item("tire_tread", "Tire Tread Depth (Min 1.6mm)", "Tires", false, None, None, true),
    Item("tire_cond", "Tire Condition (No Bulges/Cracks)", "Tires", false, None, None, true),
    Item("tire_nuts", "Wheel Nuts Secure", "Tires", false, None, None, true)
  ]

  /** The Vision section (constants.tsx:28-30). */
  const VISION: seq<Item> := [
    Item("vis_wind", "Windscreen (No Obstructions/Cracks)", "Vision", false, None, None, true),
    Item("vis_wipers", "Wipers & Washers Functional", "Vision", false, None, None, true),
    Item("vis_mirrors", "Rearview & Side Mirrors", "Vision", false, None, None, true)
  ]

  /** The Safety section (constants.tsx:33-35). */
  const SAFETY: seq<Item> := [
    Item("safe_belts", "Seatbelts (Condition & Tension)", "Safety", false, None, None, true),
    Item("safe_horn", "Horn Operational", "Safety", false, None, None, true),
    Item("safe_fire", "Fire Extinguisher (Commercial/Taxi)", "Safety", false, None, None, false)
  ]

  /** The Environment section (constants.tsx:38-39). */
  const EMISSIONS: seq<Item> := [
    Item("env_smoke", "Exhaust Emissions (No Excessive Smoke)", "Environment", false, None, None, true),
    Item("env_noise", "Muffler/Exhaust System Integrity", "Environment", false, None, None, true)
  ]

  /** `INITIAL_CHECKLIST`: the sections in display order. */
  const INITIAL_CHECKLIST: seq<Item> :=
    IDENTIFICATION + LIGHTING + MECHANICAL + TIRES + VISION + SAFETY + EMISSIONS

  /** Twenty-two items, all failed, none with notes or an image. */
  lemma InitialChecklistItems()
    ensures |INITIAL_CHECKLIST| == 22
    ensures forall i :: 0 <= i < |INITIAL_CHECKLIST| ==>
      var x := INITIAL_CHECKLIST[i]; !x.value && x.notes == None && x.image == None
  {
  }

  /** No two items share an id. */
  lemma InitialIdsDistinct()
    ensures forall i, j :: 0 <= i < j < |INITIAL_CHECKLIST| ==>
      INITIAL_CHECKLIST[i].id != INITIAL_CHECKLIST[j].id
  {
    InitialIdsDistinctFromFirstSix();
    InitialIdsDistinctAfterSix();
  }

  lemma InitialIdsDistinctFromFirstSix()
    ensures forall i, j :: 0 <= i < 6 && i < j < |INITIAL_CHECKLIST| ==>
      INITIAL_CHECKLIST[i].id != INITIAL_CHECKLIST[j].id
  {
  }

  lemma InitialIdsDistinctAfterSix()
    ensures forall i, j :: 6 <= i < j < |INITIAL_CHECKLIST| ==>
      INITIAL_CHECKLIST[i].id != INITIAL_CHECKLIST[j].id
  {
  }

  /** Unique ids are part of the shape, so every checklist with the fixed items has them. */
  lemma FixedChecklistIdsDistinct(c: seq<Item>)
    requires SameShape(c, INITIAL_CHECKLIST)
    ensures UniqueIds(c)
  {
    InitialIdsDistinct();
    assert forall i :: 0 <= i < |c| ==> c[i].id == INITIAL_CHECKLIST[i].id;
  }

  /** The non-critical items are the reverse lights and the fire extinguisher. */
  lemma InitialNonCriticalIds()
    ensures forall i :: 0 <= i < |INITIAL_CHECKLIST| ==>
      (!INITIAL_CHECKLIST[i].isCritical <==>
        INITIAL_CHECKLIST[i].id == "light_rev" || INITIAL_CHECKLIST[i].id == "safe_fire")
  {
  }

  /** The reverse lights and the fire extinguisher sit at positions 6 and 19. */
  lemma InitialNonCriticalPositions()
    ensures forall k :: 0 <= k < |INITIAL_CHECKLIST| ==>
      (NonCritical(INITIAL_CHECKLIST[k]) <==> k == 6 || k == 19)
  {
  }

  /** Exactly two of the 22 items are non-critical. */
  lemma InitialNonCriticalCount()
    ensures |Filter(NonCritical, INITIAL_CHECKLIST)| == 2
  {
    InitialNonCriticalPositions();
    FilterCountTwo(NonCritical, INITIAL_CHECKLIST, 6, 19);
  }

  /** The section headings, in the order they appear on screen. */
  lemma InitialCategories()
    ensures Categories(INITIAL_CHECKLIST) ==
      ["Identification", "Lighting", "Mechanical", "Tires", "Vision", "Safety", "Environment"]
  {
    CategoriesThroughSafety();
    CategoriesAppendSection(
      IDENTIFICATION + LIGHTING + MECHANICAL + TIRES + VISION + SAFETY, EMISSIONS, "Environment");
  }

  /* Each lemma below appends one section to the previous prefix of the list. */

  lemma CategoriesThroughLighting()
    ensures Categories(IDENTIFICATION + LIGHTING) == ["Identification", "Lighting"]
  {
    assert [] + IDENTIFICATION == IDENTIFICATION;
    CategoriesAppendSection([], IDENTIFICATION, "Identification");
    CategoriesAppendSection(IDENTIFICATION, LIGHTING, "Lighting");
  }

  lemma CategoriesThroughMechanical()
    ensures Categories(IDENTIFICATION + LIGHTING + MECHANICAL) ==
      ["Identification", "Lighting", "Mechanical"]
  {
    CategoriesThroughLighting();
    CategoriesAppendSection(IDENTIFICATION + LIGHTING, MECHANICAL, "Mechanical");
  }

  lemma CategoriesThroughTires()
    ensures Categories(IDENTIFICATION + LIGHTING + MECHANICAL + TIRES) ==
      ["Identification", "Lighting", "Mechanical", "Tires"]
  {
    CategoriesThroughMechanical();
    CategoriesAppendSection(IDENTIFICATION + LIGHTING + MECHANICAL, TIRES, "Tires");
  }

  lemma CategoriesThroughVision()
    ensures Categories(IDENTIFICATION + LIGHTING + MECHANICAL + TIRES + VISION) ==
      ["Identification", "Lighting", "Mechanical", "Tires", "Vision"]
  {
    CategoriesThroughTires();
    CategoriesAppendSection(IDENTIFICATION + LIGHTING + MECHANICAL + TIRES, VISION, "Vision");
  }

  lemma CategoriesThroughSafety()
    ensures Categories(IDENTIFICATION + LIGHTING + MECHANICAL + TIRES + VISION + SAFETY) ==
      ["Identification", "Lighting", "Mechanical", "Tires", "Vision", "Safety"]
  {
    CategoriesThroughVision();
    CategoriesAppendSection(IDENTIFICATION + LIGHTING + MECHANICAL + TIRES + VISION, SAFETY, "Safety");
  }

  /** A fresh checklist shows 0% progress and would fail. */
  lemma InitialProgressAndVerdict()
    ensures Progress(INITIAL_CHECKLIST) == 0
    ensures CalculateVerdict(INITIAL_CHECKLIST) == FAIL
  {
    InitialChecklistItems();
    ProgressZeroIffNonePassed(INITIAL_CHECKLIST);
    CriticalFailureForcesFail(INITIAL_CHECKLIST, 0);
  }

  /** On any checklist with the fixed items (whatever their values, notes and images)
      at most two non-critical items can fail, so the "more than three non-critical
      failures" rule never decides: the vehicle passes exactly when every critical
      item passes. */
  lemma VerdictOnFixedChecklist(c: seq<Item>)
    requires SameShape(c, INITIAL_CHECKLIST)
    ensures |Filter(NonCriticalFailure, c)| <= 2
    ensures CalculateVerdict(c) == PASS <==> forall i :: 0 <= i < |c| && c[i].isCritical ==> c[i].value
  {
    InitialNonCriticalCount();
    NonCriticalFailuresBounded(c);
    FilterCountPointwise(NonCritical, c, NonCritical, INITIAL_CHECKLIST);
  }

  /** On any checklist with the fixed items, the seven sections hold 22 items in all, and
      their passed badges add up to the passed count behind the progress bar. */
  lemma SectionsCoverFixedChecklist(c: seq<Item>)
    requires SameShape(c, INITIAL_CHECKLIST)
    ensures SumTotals(CategoryCounts(c, Categories(INITIAL_CHECKLIST))) == |c| == 22
    ensures SumPassed(CategoryCounts(c, Categories(INITIAL_CHECKLIST))) == PassedCount(c)
  {
    SameShapeTotalsCoverChecklist(c, INITIAL_CHECKLIST);
    InitialChecklistItems();
  }
}
