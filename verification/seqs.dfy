/** The JavaScript collection operations the checklist code relies on, as functions on
    sequences: Array.prototype.filter, Array.prototype.join, String.prototype.split on
    one character, and the insertion-ordered `Array.from(new Set(xs))`. */
module Seqs {

  /** Array.prototype.filter: the elements satisfying p, in their original order. */
  function Filter<T(!new)>(p: T -> bool, s: seq<T>): (r: seq<T>)
    ensures |r| <= |s|
    ensures forall x :: x in r <==> x in s && p(x)
  {
    if |s| == 0 then []
    else
      assert s == [s[0]] + s[1..];
      (if p(s[0]) then [s[0]] else []) + Filter(p, s[1..])
  }

  /** Filtering distributes over concatenation, so it keeps relative order. */
  lemma {:induction false} FilterAppend<T(!new)>(p: T -> bool, a: seq<T>, b: seq<T>)
    ensures Filter(p, a + b) == Filter(p, a) + Filter(p, b)
  {
    if |a| == 0 {
      assert a + b == b;
    } else {
      assert (a + b)[0] == a[0];
      assert (a + b)[1..] == a[1..] + b;
      FilterAppend(p, a[1..], b);
    }
  }

  /** A filter is non-empty exactly when some element satisfies the predicate. */
  lemma FilterNonEmpty<T(!new)>(p: T -> bool, s: seq<T>)
    ensures |Filter(p, s)| > 0 <==> exists i :: 0 <= i < |s| && p(s[i])
  {
    var r := Filter(p, s);
    if |r| > 0 {
      assert r[0] in r;
      var i :| 0 <= i < |s| && s[i] == r[0];
    }
    if exists i :: 0 <= i < |s| && p(s[i]) {
      var i :| 0 <= i < |s| && p(s[i]);
      assert s[i] in s;
      assert s[i] in r;
    }
  }

  /** A filter keeps every element exactly when every element satisfies the predicate. */
  lemma {:induction false} FilterAllCount<T(!new)>(p: T -> bool, s: seq<T>)
    ensures |Filter(p, s)| == |s| <==> forall i :: 0 <= i < |s| ==> p(s[i])
  {
    if |s| > 0 {
      FilterAllCount(p, s[1..]);
      assert forall i :: 1 <= i < |s| ==> s[i] == s[1..][i - 1];
    }
  }

  /** When no element satisfies p, the filter keeps nothing. */
  lemma FilterCountNone<T(!new)>(p: T -> bool, s: seq<T>)
    requires forall k :: 0 <= k < |s| ==> !p(s[k])
    ensures |Filter(p, s)| == 0
  {
    FilterNonEmpty(p, s);
  }

  /** When exactly position i satisfies p, the filter keeps one element. */
  lemma FilterCountOne<T(!new)>(p: T -> bool, s: seq<T>, i: nat)
    requires i < |s|
    requires forall k :: 0 <= k < |s| ==> (p(s[k]) <==> k == i)
    ensures |Filter(p, s)| == 1
  {
    var a, c := s[..i], s[i + 1..];
    assert s == a + [s[i]] + c;
    assert forall k :: 0 <= k < |a| ==> a[k] == s[k];
    FilterCountNone(p, a);
    assert forall k :: 0 <= k < |c| ==> c[k] == s[i + 1 + k];
    FilterCountNone(p, c);
    FilterAppend(p, a, [s[i]]);
    FilterAppend(p, a + [s[i]], c);
  }

  /** When exactly the positions i and j satisfy p, the filter keeps two elements. */
  lemma FilterCountTwo<T(!new)>(p: T -> bool, s: seq<T>, i: nat, j: nat)
    requires i < j < |s|
    requires forall k :: 0 <= k < |s| ==> (p(s[k]) <==> k == i || k == j)
    ensures |Filter(p, s)| == 2
  {
    var a, b := s[..j], s[j..];
    assert s == a + b;
    assert forall k :: 0 <= k < |a| ==> a[k] == s[k];
    FilterCountOne(p, a, i);
    assert forall k :: 0 <= k < |b| ==> b[k] == s[j + k];
    FilterCountOne(p, b, 0);
    FilterAppend(p, a, b);
  }

  /** A predicate implied by another selects at least as many elements. */
  lemma {:induction false} FilterMonotone<T(!new)>(p: T -> bool, q: T -> bool, s: seq<T>)
    requires forall x :: p(x) ==> q(x)
    ensures |Filter(p, s)| <= |Filter(q, s)|
  {
    if |s| > 0 {
      FilterMonotone(p, q, s[1..]);
    }
  }

  /** Two sequences that agree position by position on the predicates select equally many. */
  lemma {:induction false} FilterCountPointwise<T(!new), U(!new)>(p: T -> bool, a: seq<T>, q: U -> bool, b: seq<U>)
    requires |a| == |b|
    requires forall i :: 0 <= i < |a| ==> p(a[i]) == q(b[i])
    ensures |Filter(p, a)| == |Filter(q, b)|
  {
    if |a| > 0 {
      FilterCountPointwise(p, a[1..], q, b[1..]);
    }
  }

  /** Filtering twice is filtering once by the conjunction. */
  lemma {:induction false} FilterFilter<T(!new)>(p: T -> bool, q: T -> bool, u: T -> bool, s: seq<T>)
    requires forall x :: u(x) == (p(x) && q(x))
    ensures Filter(q, Filter(p, s)) == Filter(u, s)
  {
    if |s| > 0 {
      FilterFilter(p, q, u, s[1..]);
      if p(s[0]) {
        assert Filter(p, s) == [s[0]] + Filter(p, s[1..]);
        assert Filter(p, s)[1..] == Filter(p, s[1..]);
      } else {
        assert Filter(p, s) == Filter(p, s[1..]);
      }
    }
  }

  /** Disjoint predicates split the count of their union. */
  lemma {:induction false} FilterDisjointCount<T(!new)>(p: T -> bool, q: T -> bool, u: T -> bool, s: seq<T>)
    requires forall x :: u(x) == (p(x) || q(x))
    requires forall x :: !(p(x) && q(x))
    ensures |Filter(u, s)| == |Filter(p, s)| + |Filter(q, s)|
  {
    if |s| > 0 {
      FilterDisjointCount(p, q, u, s[1..]);
    }
  }

  /** Array.prototype.map. */
  function MapSeq<T, U>(f: T -> U, s: seq<T>): (r: seq<U>)
    ensures |r| == |s|
    ensures forall k :: 0 <= k < |s| ==> r[k] == f(s[k])
  {
    seq(|s|, k requires 0 <= k < |s| => f(s[k]))
  }

  /** Filtering then mapping reads nothing but the predicate and the mapped value, so
      two sequences that agree on both, position by position, give the same result. */
  lemma {:induction false} FilterMapPointwise<T(!new), U>(p: T -> bool, f: T -> U, a: seq<T>, b: seq<T>)
    requires |a| == |b|
    requires forall i :: 0 <= i < |a| ==> p(a[i]) == p(b[i])
    requires forall i :: 0 <= i < |a| && p(a[i]) ==> f(a[i]) == f(b[i])
    ensures MapSeq(f, Filter(p, a)) == MapSeq(f, Filter(p, b))
  {
    if |a| > 0 {
      var ta, tb := Filter(p, a[1..]), Filter(p, b[1..]);
      FilterMapPointwise(p, f, a[1..], b[1..]);
      if p(a[0]) {
        assert Filter(p, a) == [a[0]] + ta;
        assert Filter(p, b) == [b[0]] + tb;
        MapAppend(f, [a[0]], ta);
        MapAppend(f, [b[0]], tb);
      } else {
        assert Filter(p, a) == ta;
        assert Filter(p, b) == tb;
      }
    }
  }

  lemma MapAppend<T, U>(f: T -> U, a: seq<T>, b: seq<T>)
    ensures MapSeq(f, a + b) == MapSeq(f, a) + MapSeq(f, b)
  {
  }

  /** Two sequences differing at one position only, where a keeps its element and b
      drops its own, differ by one in the count. */
  lemma FilterCountDropOne<T(!new)>(p: T -> bool, a: seq<T>, b: seq<T>, i: nat)
    requires |a| == |b| && i < |a|
    requires forall k :: 0 <= k < |a| && k != i ==> a[k] == b[k]
    requires p(a[i]) && !p(b[i])
    ensures |Filter(p, b)| + 1 == |Filter(p, a)|
  {
    assert a == a[..i] + [a[i]] + a[i + 1..];
    assert b == b[..i] + [b[i]] + b[i + 1..];
    assert a[..i] == b[..i];
    assert a[i + 1..] == b[i + 1..];
    FilterAppend(p, a[..i] + [a[i]], a[i + 1..]);
    FilterAppend(p, a[..i], [a[i]]);
    FilterAppend(p, b[..i] + [b[i]], b[i + 1..]);
    FilterAppend(p, b[..i], [b[i]]);
  }

  /** Array.prototype.join: the elements with `sep` between consecutive ones. */
  function Join(xs: seq<string>, sep: string): string
  {
    if |xs| == 0 then ""
    else if |xs| == 1 then xs[0]
    else xs[0] + sep + Join(xs[1..], sep)
  }

  /** Joining non-empty strings gives the empty string only for the empty list. */
  lemma JoinEmpty(xs: seq<string>, sep: string)
    requires forall k :: 0 <= k < |xs| ==> xs[k] != ""
    ensures Join(xs, sep) == "" <==> |xs| == 0
  {
    if |xs| > 1 {
      assert |Join(xs, sep)| >= |xs[0]| > 0;
    }
  }

  /** Joining two non-empty lists puts one separator between their joins. */
  lemma {:induction false} JoinAppend(xs: seq<string>, ys: seq<string>, sep: string)
    requires |xs| > 0 && |ys| > 0
    ensures Join(xs + ys, sep) == Join(xs, sep) + sep + Join(ys, sep)
  {
    if |xs| > 1 {
      assert (xs + ys)[1..] == xs[1..] + ys;
      JoinAppend(xs[1..], ys, sep);
    } else {
      assert (xs + ys)[1..] == ys;
    }
  }

  /** Index of the first occurrence of x. */
  function IndexOf<T(==)>(s: seq<T>, x: T): (k: nat)
    requires x in s
    ensures k < |s| && s[k] == x && x !in s[..k]
  {
    if s[0] == x then 0
    else
      assert s == [s[0]] + s[1..];
      assert forall j :: 0 <= j < |s| - 1 ==> s[1..][j] == s[j + 1];
      1 + IndexOf(s[1..], x)
  }

  /** The first occurrence is the only position holding x with no earlier x. */
  lemma IndexOfUnique<T>(s: seq<T>, x: T, k: nat)
    requires k < |s| && s[k] == x && x !in s[..k]
    ensures IndexOf(s, x) == k
  {
  }

  /** Appending never moves the first occurrence of an element already present. */
  lemma IndexOfPrefix<T>(a: seq<T>, b: seq<T>, x: T)
    requires x in a
    ensures IndexOf(a + b, x) == IndexOf(a, x)
  {
    var k := IndexOf(a, x);
    assert (a + b)[..k] == a[..k];
    IndexOfUnique(a + b, x, k);
  }

  /** String.prototype.split on one separator character: the maximal runs
      between separators, so the result always has at least one field. */
  function Split(s: string, c: char): (r: seq<string>)
    ensures |r| >= 1
    ensures forall k :: 0 <= k < |r| ==> c !in r[k]
    decreases |s|
  {
    if c !in s then [s]
    else
      var k := IndexOf(s, c);
      [s[..k]] + Split(s[k + 1..], c)
  }

  /** Splitting and re-joining with the same separator gives the string back. */
  lemma {:induction false} SplitThenJoin(s: string, c: char)
    ensures Join(Split(s, c), [c]) == s
    decreases |s|
  {
    if c in s {
      var k := IndexOf(s, c);
      var h, t := s[..k], s[k + 1..];
      var rest := Split(t, c);
      assert Split(s, c) == [h] + rest;
      SplitThenJoin(t, c);
      assert ([h] + rest)[1..] == rest;
      assert Join([h] + rest, [c]) == h + [c] + Join(rest, [c]);
      assert s == h + [c] + t;
    }
  }

  /** Joining fields free of the separator and splitting again gives the fields back. */
  lemma {:induction false} JoinThenSplit(xs: seq<string>, c: char)
    requires |xs| >= 1
    requires forall k :: 0 <= k < |xs| ==> c !in xs[k]
    ensures Split(Join(xs, [c]), c) == xs
  {
    if |xs| > 1 {
      var h := xs[0];
      var tail := Join(xs[1..], [c]);
      var s := h + [c] + tail;
      assert Join(xs, [c]) == s;
      assert s[|h|] == c;
      assert s[..|h|] == h;
      IndexOfUnique(s, c, |h|);
      assert s[|h| + 1..] == tail;
      calc {
        Split(s, c);
        [h] + Split(tail, c);
        { JoinThenSplit(xs[1..], c); }
        [h] + xs[1..];
        xs;
      }
    }
  }

  /** No element occurs twice. */
  predicate NoDup<T(==)>(s: seq<T>)
  {
    forall i, j :: 0 <= i < j < |s| ==> s[i] != s[j]
  }

  /** `Array.from(new Set(s))`: each distinct element once, in insertion order. */
  function Dedup<T(==,!new)>(s: seq<T>): (r: seq<T>)
    ensures forall x :: x in r <==> x in s
    ensures NoDup(r)
  {
    if |s| == 0 then []
    else
      var d := Dedup(s[..|s| - 1]);
      assert s == s[..|s| - 1] + [s[|s| - 1]];
      if s[|s| - 1] in d then d else d + [s[|s| - 1]]
  }

  /** The distinct elements come out ordered by their first occurrence in the input. */
  lemma {:induction false} DedupFirstOccurrenceOrder<T(!new)>(s: seq<T>)
    ensures forall i, j :: 0 <= i < j < |Dedup(s)| ==>
      IndexOf(s, Dedup(s)[i]) < IndexOf(s, Dedup(s)[j])
  {
    if |s| > 0 {
      var init := s[..|s| - 1];
      var x := s[|s| - 1];
      var d := Dedup(init);
      assert s == init + [x];
      DedupFirstOccurrenceOrder(init);
      forall y | y in init
        ensures IndexOf(s, y) == IndexOf(init, y) < |init|
      {
        IndexOfPrefix(init, [x], y);
      }
      if x !in d {
        assert x !in init;
        assert s[..|init|] == init;
        IndexOfUnique(s, x, |init|);
      }
    }
  }

  /** Appending a run of one value that is new adds exactly that value. */
  lemma {:induction false} DedupAppendRun<T(!new)>(a: seq<T>, b: seq<T>, k: T)
    requires |b| > 0
    requires forall i :: 0 <= i < |b| ==> b[i] == k
    requires k !in a
    ensures Dedup(a + b) == Dedup(a) + [k]
    decreases |b|
  {
    var s := a + b;
    assert s[..|s| - 1] == a + b[..|b| - 1];
    if |b| > 1 {
      DedupAppendRun(a, b[..|b| - 1], k);
    } else {
      assert b[..|b| - 1] == [];
      assert a + b[..|b| - 1] == a;
    }
  }
}
