/** The checklist half of the inspection screen (App.tsx): the three id-keyed updates,
    the PASS/FAIL rule, the progress percentage and the per-category counts. */
module Checklist {
  import opened Types
  import opened Seqs

  /** Same ids, captions, categories and criticality, position by position: the part
      of a checklist that no operation of the screen ever changes. */
  predicate SameShape(a: seq<Item>, b: seq<Item>)
  {
    && |a| == |b|
    && forall i :: 0 <= i < |a| ==>
         && a[i].id == b[i].id
         && a[i].caption == b[i].caption
         && a[i].category == b[i].category
         && a[i].isCritical == b[i].isCritical
  }

  lemma SameShapeTransitive(a: seq<Item>, b: seq<Item>, c: seq<Item>)
    requires SameShape(a, b) && SameShape(b, c)
    ensures SameShape(a, c)
  {
  }

  // ---------------------------------------------------------------------------
  // The three id-keyed updates. Each maps over the whole list, so every item whose
  // id matches is updated (ids are unique in the fixed list, but the operations do
  // not rely on it) and an id that matches nothing leaves the list as it was.
  // ---------------------------------------------------------------------------

  /** `toggleCheck(id)`: flips `value` on the matching items and nothing else. */
  function ToggleCheck(c: seq<Item>, id: string): (r: seq<Item>)
    ensures SameShape(r, c)
    ensures forall i :: 0 <= i < |c| ==> (r[i].value != c[i].value <==> c[i].id == id)
    ensures forall i :: 0 <= i < |c| ==> r[i].notes == c[i].notes && r[i].image == c[i].image
    ensures forall i :: 0 <= i < |c| && c[i].id != id ==> r[i] == c[i]
    ensures (forall i :: 0 <= i < |c| ==> c[i].id != id) ==> r == c
  {
    seq(|c|, i requires 0 <= i < |c| => if c[i].id == id then c[i].(value := !c[i].value) else c[i])
  }

  /** Toggling the same id twice restores the checklist exactly. */
  lemma ToggleCheckInvolution(c: seq<Item>, id: string)
    ensures ToggleCheck(ToggleCheck(c, id), id) == c
  {
    var r := ToggleCheck(ToggleCheck(c, id), id);
    assert forall i :: 0 <= i < |c| ==> r[i] == c[i];
  }

  /** Whether some item with `id` is failed: only a failed item's row shows its note
      input and its photo button. */
  predicate HasFailedItem(c: seq<Item>, id: string)
  {
    exists i :: 0 <= i < |c| && c[i].id == id && !c[i].value
  }

  /** `updateNote(id, note)`: the matching items get exactly `note` as their notes. */
  function UpdateNote(c: seq<Item>, id: string, note: string): (r: seq<Item>)
    ensures SameShape(r, c)
    ensures forall i :: 0 <= i < |c| && c[i].id == id ==> r[i].notes == Some(note)
    ensures forall i :: 0 <= i < |c| ==> r[i].value == c[i].value && r[i].image == c[i].image
    ensures forall i :: 0 <= i < |c| && c[i].id != id ==> r[i] == c[i]
  {
    seq(|c|, i requires 0 <= i < |c| => if c[i].id == id then c[i].(notes := Some(note)) else c[i])
  }

  /** The image part of `handleCaptureImage`: the matching items get `image`. */
  function SetImage(c: seq<Item>, id: string, image: string): (r: seq<Item>)
    ensures SameShape(r, c)
    ensures forall i :: 0 <= i < |c| && c[i].id == id ==> r[i].image == Some(image)
    ensures forall i :: 0 <= i < |c| ==> r[i].value == c[i].value && r[i].notes == c[i].notes
    ensures forall i :: 0 <= i < |c| && c[i].id != id ==> r[i] == c[i]
  {
    seq(|c|, i requires 0 <= i < |c| => if c[i].id == id then c[i].(image := Some(image)) else c[i])
  }

  /** A second note on the same item replaces the first. */
  lemma UpdateNoteLastWriteWins(c: seq<Item>, id: string, first: string, second: string)
    ensures UpdateNote(UpdateNote(c, id, first), id, second) == UpdateNote(c, id, second)
  {
    var r, t := UpdateNote(UpdateNote(c, id, first), id, second), UpdateNote(c, id, second);
    assert forall i :: 0 <= i < |c| ==> r[i] == t[i];
  }

  /** A second capture for the same item replaces the first image. */
  lemma SetImageLastWriteWins(c: seq<Item>, id: string, first: string, second: string)
    ensures SetImage(SetImage(c, id, first), id, second) == SetImage(c, id, second)
  {
    var r, t := SetImage(SetImage(c, id, first), id, second), SetImage(c, id, second);
    assert forall i :: 0 <= i < |c| ==> r[i] == t[i];
  }

  /** Ids are pairwise distinct. */
  predicate UniqueIds(c: seq<Item>)
  {
    forall i, j :: 0 <= i < j < |c| ==> c[i].id != c[j].id
  }

  /** With unique ids, toggling an item changes that one position only. */
  lemma ToggleCheckUniqueId(c: seq<Item>, i: nat)
    requires UniqueIds(c) && i < |c|
    ensures ToggleCheck(c, c[i].id) == c[i := c[i].(value := !c[i].value)]
  {
    var r := ToggleCheck(c, c[i].id);
    assert forall k :: 0 <= k < |c| && k != i ==> c[k].id != c[i].id;
    assert forall k :: 0 <= k < |c| ==> r[k] == c[i := c[i].(value := !c[i].value)][k];
  }

  /** `handleCaptureImage(base64)`: when an item's camera is open (a non-empty id, as
      JavaScript's truthiness test demands), store the image on it and close the camera;
      otherwise change nothing. Returns the new checklist and the new active camera id. */
  function HandleCaptureImage(c: seq<Item>, active: Option<string>, base64: string)
    : (r: (seq<Item>, Option<string>))
    ensures SameShape(r.0, c)
    ensures Truthy(active) ==> r.1 == None
    ensures Truthy(active) ==> forall i :: 0 <= i < |c| ==>
      if c[i].id == active.value then r.0[i].image == Some(base64) else r.0[i] == c[i]
    ensures !Truthy(active) ==> r.0 == c && r.1 == active
    ensures forall i :: 0 <= i < |c| ==> r.0[i].value == c[i].value && r.0[i].notes == c[i].notes
  {
    if Truthy(active) then (SetImage(c, active.value, base64), None) else (c, active)
  }

  // ---------------------------------------------------------------------------
  // The verdict.
  // ---------------------------------------------------------------------------

  predicate CriticalFailure(x: Item) { x.isCritical && !x.value }

  predicate NonCriticalFailure(x: Item) { !x.isCritical && !x.value }

  predicate NonCritical(x: Item) { !x.isCritical }

  /** Attaching a photograph never changes the verdict. */
  lemma CaptureImageKeepsVerdict(c: seq<Item>, active: Option<string>, base64: string)
    ensures CalculateVerdict(HandleCaptureImage(c, active, base64).0) == CalculateVerdict(c)
  {
    VerdictDependsOnValuesOnly(HandleCaptureImage(c, active, base64).0, c);
  }

  /** `calculateVerdict`: any failed critical item fails the vehicle; otherwise it
      fails only with more than three failed non-critical items. Never PENDING. */
  function CalculateVerdict(c: seq<Item>): (v: InspectionStatus)
    ensures v != PENDING
    ensures v == FAIL <==>
      (exists i :: 0 <= i < |c| && CriticalFailure(c[i])) || |Filter(NonCriticalFailure, c)| > 3
  {
    FilterNonEmpty(CriticalFailure, c);
    if |Filter(CriticalFailure, c)| > 0 then FAIL
    else if |Filter(NonCriticalFailure, c)| > 3 then FAIL
    else PASS
  }

  /** A single failed critical item fails the vehicle whatever the rest look like. */
  lemma CriticalFailureForcesFail(c: seq<Item>, i: nat)
    requires i < |c| && c[i].isCritical && !c[i].value
    ensures CalculateVerdict(c) == FAIL
  {
  }

  /** With every critical item passed, the vehicle fails exactly when more than three
      non-critical items failed (three failures still pass). */
  lemma VerdictWithoutCriticalFailures(c: seq<Item>)
    requires forall i :: 0 <= i < |c| && c[i].isCritical ==> c[i].value
    ensures CalculateVerdict(c) == FAIL <==> |Filter(NonCriticalFailure, c)| > 3
  {
  }

  /** The verdict reads only `value` and `isCritical`. */
  lemma VerdictDependsOnValuesOnly(a: seq<Item>, b: seq<Item>)
    requires |a| == |b|
    requires forall i :: 0 <= i < |a| ==> a[i].value == b[i].value && a[i].isCritical == b[i].isCritical
    ensures CalculateVerdict(a) == CalculateVerdict(b)
  {
    FilterCountPointwise(CriticalFailure, a, CriticalFailure, b);
    FilterCountPointwise(NonCriticalFailure, a, NonCriticalFailure, b);
  }

  /** No more non-critical items can fail than there are non-critical items. */
  lemma NonCriticalFailuresBounded(c: seq<Item>)
    ensures |Filter(NonCriticalFailure, c)| <= |Filter(NonCritical, c)|
  {
    FilterMonotone(NonCriticalFailure, NonCritical, c);
  }

  // ---------------------------------------------------------------------------
  // Progress.
  // ---------------------------------------------------------------------------

  predicate Passed(x: Item) { x.value }

  function PassedCount(c: seq<Item>): (n: nat)
    ensures n <= |c|
  {
    |Filter(Passed, c)|
  }

  /** n / d rounded to the nearest integer, halves upwards: the integer counterpart of
      `Math.round` on a non-negative quotient. The result r is the unique integer with
      r - 1/2 <= n/d < r + 1/2. */
  function RoundHalfUp(n: nat, d: nat): (r: nat)
    requires d > 0
    ensures r * (2 * d) <= 2 * n + d < (r + 1) * (2 * d)
  {
    var q := (2 * n + d) / (2 * d);
    assert 2 * n + d == q * (2 * d) + (2 * n + d) % (2 * d);
    q
  }

  /** The rounding bounds pin the result down. */
  lemma RoundHalfUpUnique(n: nat, d: nat, r: nat)
    requires d > 0
    requires r * (2 * d) <= 2 * n + d < (r + 1) * (2 * d)
    ensures RoundHalfUp(n, d) == r
  {
    var q := RoundHalfUp(n, d);
    if q < r {
      MulMonotone(q + 1, r, 2 * d);
    } else if q > r {
      MulMonotone(r + 1, q, 2 * d);
    }
  }

  lemma MulMonotone(a: nat, b: nat, k: nat)
    requires a <= b
    ensures a * k <= b * k
  {
  }

  lemma MulCancel(a: nat, b: nat, k: nat)
    requires a * k < b * k
    ensures a < b
  {
    if a >= b {
      MulMonotone(b, a, k);
    }
  }

  /** Rounding is monotone in the numerator. */
  lemma RoundHalfUpMonotone(n: nat, m: nat, d: nat)
    requires d > 0 && n <= m
    ensures RoundHalfUp(n, d) <= RoundHalfUp(m, d)
  {
    var a := RoundHalfUp(n, d);
    var b := RoundHalfUp(m, d);
    if a > b {
      MulMonotone(b + 1, a, 2 * d);
    }
  }

  /** The `progress` memo: passed items as a rounded percentage of all items. The list
      must be non-empty (the source divides by its length). */
  function Progress(c: seq<Item>): (pct: nat)
    requires |c| > 0
    ensures pct <= 100
    ensures pct * (2 * |c|) <= 200 * PassedCount(c) + |c| < (pct + 1) * (2 * |c|)
  {
    var pct := RoundHalfUp(100 * PassedCount(c), |c|);
    RoundHalfUpMonotone(100 * PassedCount(c), 100 * |c|, |c|);
    RoundHalfUpUnique(100 * |c|, |c|, 100);
    pct
  }

  /** Every item passed exactly when the count of passed items is the length. */
  lemma PassedCountFull(c: seq<Item>)
    ensures PassedCount(c) == |c| <==> forall i :: 0 <= i < |c| ==> c[i].value
  {
    FilterAllCount(Passed, c);
  }

  /** For fewer than 200 items the bar is full exactly when every item passed (with 200
      or more, one failure in 200 already rounds up to 100). */
  lemma ProgressFullIffAllPassed(c: seq<Item>)
    requires 0 < |c| < 200
    ensures Progress(c) == 100 <==> forall i :: 0 <= i < |c| ==> c[i].value
  {
    PassedCountFull(c);
    var p := PassedCount(c);
    var t := |c|;
    if p < t {
      RoundBelowFull(p, t);
    } else {
      RoundHalfUpUnique(100 * p, t, 100);
    }
  }

  /** A percentage of fewer than all of fewer than 200 items rounds below 100. */
  lemma RoundBelowFull(p: nat, t: nat)
    requires p < t < 200
    ensures RoundHalfUp(100 * p, t) < 100
  {
    var r := RoundHalfUp(100 * p, t);
    assert 200 * p <= 200 * t - 200;
    assert r * (2 * t) < 100 * (2 * t);
    MulCancel(r, 100, 2 * t);
  }

  /** A percentage of at least one of at most 200 items rounds above 0. */
  lemma RoundAboveZero(p: nat, t: nat)
    requires 0 < p && 0 < t <= 200
    ensures RoundHalfUp(100 * p, t) > 0
  {
    var r := RoundHalfUp(100 * p, t);
    assert 1 * (2 * t) < (r + 1) * (2 * t);
    MulCancel(1, r + 1, 2 * t);
  }

  /** For at most 200 items the bar is empty exactly when no item passed. */
  lemma ProgressZeroIffNonePassed(c: seq<Item>)
    requires 0 < |c| <= 200
    ensures Progress(c) == 0 <==> forall i :: 0 <= i < |c| ==> !c[i].value
  {
    FilterNonEmpty(Passed, c);
    var p := PassedCount(c);
    var t := |c|;
    if p > 0 {
      RoundAboveZero(p, t);
    } else {
      RoundHalfUpUnique(0, t, 0);
    }
  }

  /** Passing one more item never lowers the progress. */
  lemma ProgressMonotone(c: seq<Item>, i: nat)
    requires i < |c|
    ensures Progress(c[i := c[i].(value := true)]) >= Progress(c)
  {
    var d := c[i := c[i].(value := true)];
    FilterMonotonePointwise(c, d);
    RoundHalfUpMonotone(100 * PassedCount(c), 100 * PassedCount(d), |c|);
  }

  /** A list whose items pass wherever the other's do has at least as many passes. */
  lemma {:induction false} FilterMonotonePointwise(a: seq<Item>, b: seq<Item>)
    requires |a| == |b|
    requires forall i :: 0 <= i < |a| && a[i].value ==> b[i].value
    ensures PassedCount(a) <= PassedCount(b)
  {
    if |a| > 0 {
      FilterMonotonePointwise(a[1..], b[1..]);
    }
  }

  // ---------------------------------------------------------------------------
  // Categories and per-category counts.
  // ---------------------------------------------------------------------------

  function CategoryIs(cat: string): Item -> bool
  {
    (x: Item) => x.category == cat
  }

  function CategoryIn(cats: seq<string>): Item -> bool
  {
    (x: Item) => x.category in cats
  }

  /** Passed items of one category. */
  function PassedIn(cat: string): Item -> bool
  {
    (x: Item) => x.category == cat && x.value
  }

  /** Passed items whose category is among the given ones. */
  function PassedInAny(cats: seq<string>): Item -> bool
  {
    (x: Item) => x.category in cats && x.value
  }

  /** The items shown under one category, in checklist order. */
  function CategoryItems(c: seq<Item>, cat: string): (r: seq<Item>)
    ensures forall x :: x in r <==> x in c && x.category == cat
  {
    Filter(CategoryIs(cat), c)
  }

  /** The category names of a checklist, item by item. */
  function CategoryNames(c: seq<Item>): (r: seq<string>)
    ensures |r| == |c|
    ensures forall i :: 0 <= i < |c| ==> r[i] == c[i].category
  {
    seq(|c|, i requires 0 <= i < |c| => c[i].category)
  }

  lemma CategoryNamesAppend(a: seq<Item>, b: seq<Item>)
    ensures CategoryNames(a + b) == CategoryNames(a) + CategoryNames(b)
  {
  }

  /** The `categories` memo: the distinct categories, in order of first appearance. */
  function Categories(c: seq<Item>): (r: seq<string>)
    ensures NoDup(r)
    ensures forall i :: 0 <= i < |c| ==> c[i].category in r
    ensures forall k :: 0 <= k < |r| ==> exists i :: 0 <= i < |c| && c[i].category == r[k]
  {
    var names := CategoryNames(c);
    var r := Dedup(names);
    assert forall i :: 0 <= i < |c| ==> names[i] in names;
    assert forall k :: 0 <= k < |r| ==> r[k] in names;
    r
  }

  /** Appending a non-empty section of one new category adds that category at the end. */
  lemma CategoriesAppendSection(a: seq<Item>, g: seq<Item>, k: string)
    requires |g| > 0
    requires forall i :: 0 <= i < |g| ==> g[i].category == k
    requires k !in Categories(a)
    ensures Categories(a + g) == Categories(a) + [k]
  {
    CategoryNamesAppend(a, g);
    assert k !in CategoryNames(a);
    DedupAppendRun(CategoryNames(a), CategoryNames(g), k);
  }

  /** Categories come out ordered by the position of their first item. */
  lemma CategoriesInFirstOccurrenceOrder(c: seq<Item>)
    ensures forall j, k :: 0 <= j < k < |Categories(c)| ==>
      IndexOf(CategoryNames(c), Categories(c)[j]) < IndexOf(CategoryNames(c), Categories(c)[k])
  {
    DedupFirstOccurrenceOrder(CategoryNames(c));
  }

  /** The `passedCount/items.length` badge of one category section. */
  datatype CategoryCount = CategoryCount(category: string, passed: nat, total: nat)

  /** The badge of one section: how many of its items passed, and how many it has. */
  function CountCategory(c: seq<Item>, cat: string): (v: CategoryCount)
    ensures v.category == cat
    ensures v.passed <= v.total <= |c|
    ensures v.total == |Filter(CategoryIs(cat), c)|
    ensures v.passed == |Filter(PassedIn(cat), c)|
  {
    var items := CategoryItems(c, cat);
    FilterFilter(CategoryIs(cat), Passed, PassedIn(cat), c);
    CategoryCount(cat, PassedCount(items), |items|)
  }

  /** The badges of the given categories, in order. */
  function CategoryCounts(c: seq<Item>, cats: seq<string>): (r: seq<CategoryCount>)
    ensures |r| == |cats|
    ensures forall k :: 0 <= k < |cats| ==> r[k] == CountCategory(c, cats[k])
  {
    if |cats| == 0 then [] else [CountCategory(c, cats[0])] + CategoryCounts(c, cats[1..])
  }

  function SumTotals(v: seq<CategoryCount>): nat
  {
    if |v| == 0 then 0 else v[0].total + SumTotals(v[1..])
  }

  function SumPassed(v: seq<CategoryCount>): nat
  {
    if |v| == 0 then 0 else v[0].passed + SumPassed(v[1..])
  }

  /** The sections of distinct categories together hold exactly the items whose
      category is among them. */
  lemma {:induction false} SumTotalsCountsCovered(c: seq<Item>, cats: seq<string>)
    requires NoDup(cats)
    ensures SumTotals(CategoryCounts(c, cats)) == |Filter(CategoryIn(cats), c)|
  {
    if |cats| == 0 {
      FilterMonotone(CategoryIn(cats), (x: Item) => false, c);
      assert |Filter((x: Item) => false, c)| == 0 by {
        FilterNonEmpty((x: Item) => false, c);
      }
    } else {
      var rest := cats[1..];
      assert NoDup(rest);
      SumTotalsCountsCovered(c, rest);
      assert cats[0] !in rest;
      FilterDisjointCount(CategoryIs(cats[0]), CategoryIn(rest), CategoryIn(cats), c);
    }
  }

  /** The passed counts of distinct categories together count the passed items whose
      category is among them. */
  lemma {:induction false} SumPassedCountsCovered(c: seq<Item>, cats: seq<string>)
    requires NoDup(cats)
    ensures SumPassed(CategoryCounts(c, cats)) == |Filter(PassedInAny(cats), c)|
  {
    if |cats| == 0 {
      FilterCountNone(PassedInAny(cats), c);
    } else {
      var rest := cats[1..];
      assert NoDup(rest);
      SumPassedCountsCovered(c, rest);
      assert cats[0] !in rest;
      FilterDisjointCount(PassedIn(cats[0]), PassedInAny(rest), PassedInAny(cats), c);
    }
  }

  /** When the categories are distinct and cover every item, the section badges' passed
      counts add up to the number of passed items, the numerator of the progress bar. */
  lemma CategoryPassedCoverChecklist(c: seq<Item>, cats: seq<string>)
    requires NoDup(cats)
    requires forall i :: 0 <= i < |c| ==> c[i].category in cats
    ensures SumPassed(CategoryCounts(c, cats)) == PassedCount(c)
  {
    SumPassedCountsCovered(c, cats);
    FilterCountPointwise(PassedInAny(cats), c, Passed, c);
  }

  /** When the categories are distinct and cover every item, the section sizes add up
      to the length of the checklist: every item is shown exactly once. */
  lemma CategoryTotalsCoverChecklist(c: seq<Item>, cats: seq<string>)
    requires NoDup(cats)
    requires forall i :: 0 <= i < |c| ==> c[i].category in cats
    ensures SumTotals(CategoryCounts(c, cats)) == |c|
  {
    SumTotalsCountsCovered(c, cats);
    FilterAllCount(CategoryIn(cats), c);
  }

  /** The sections are listed from one checklist and filled from another of the same
      shape: every item of the second is still counted exactly once. */
  lemma SameShapeTotalsCoverChecklist(c: seq<Item>, d: seq<Item>)
    requires SameShape(c, d)
    ensures SumTotals(CategoryCounts(c, Categories(d))) == |c|
    ensures SumPassed(CategoryCounts(c, Categories(d))) == PassedCount(c)
  {
    var cats := Categories(d);
    forall i | 0 <= i < |c|
      ensures c[i].category in cats
    {
      assert d[i].category in cats;
    }
    CategoryTotalsCoverChecklist(c, cats);
    CategoryPassedCoverChecklist(c, cats);
  }

}
