/** Sorting by a total order, and why its outcome does not depend on the arrangement of the input. */
module Ordering {

  /** `leq` is a total order on the elements of `d`. */
  ghost predicate TotalOn<T>(leq: (T, T) -> bool, d: set<T>) {
    && (forall a, b :: a in d && b in d ==> leq(a, b) || leq(b, a))
    && (forall a, b :: a in d && b in d && leq(a, b) && leq(b, a) ==> a == b)
    && (forall a, b, c :: a in d && b in d && c in d && leq(a, b) && leq(b, c) ==> leq(a, c))
  }

  ghost predicate Sorted<T>(s: seq<T>, leq: (T, T) -> bool) {
    forall i, j :: 0 <= i < j < |s| ==> leq(s[i], s[j])
  }

  ghost predicate Within<T>(s: seq<T>, d: set<T>) {
    forall i :: 0 <= i < |s| ==> s[i] in d
  }

  function Place<T>(s: seq<T>, x: T, leq: (T, T) -> bool): seq<T> {
    if s == [] || leq(x, s[0]) then [x] + s else [s[0]] + Place(s[1..], x, leq)
  }

  function Sort<T>(s: seq<T>, leq: (T, T) -> bool): seq<T> {
    if s == [] then [] else Place(Sort(s[1..], leq), s[0], leq)
  }

  lemma {:induction false} PlaceHolds<T>(s: seq<T>, x: T, leq: (T, T) -> bool)
    ensures multiset(Place(s, x, leq)) == multiset(s) + multiset{x}
  {
    if s != [] && !leq(x, s[0]) {
      PlaceHolds(s[1..], x, leq);
      assert s == [s[0]] + s[1..];
    }
  }

  lemma {:induction false} PlaceSorted<T>(s: seq<T>, x: T, leq: (T, T) -> bool, d: set<T>)
    requires TotalOn(leq, d) && Within(s, d) && x in d && Sorted(s, leq)
    ensures Sorted(Place(s, x, leq), leq)
  {
    if s != [] && !leq(x, s[0]) {
      PlaceSorted(s[1..], x, leq, d);
      PlaceHolds(s[1..], x, leq);
      var r := Place(s[1..], x, leq);
      forall i | 0 <= i < |r| ensures leq(s[0], r[i]) {
        assert r[i] in multiset(r);
        assert r[i] == x || r[i] in s[1..];
      }
    }
  }

  lemma {:induction false} SortHolds<T>(s: seq<T>, leq: (T, T) -> bool)
    ensures multiset(Sort(s, leq)) == multiset(s)
  {
    if s != [] {
      SortHolds(s[1..], leq);
      PlaceHolds(Sort(s[1..], leq), s[0], leq);
      assert s == [s[0]] + s[1..];
    }
  }

  lemma {:induction false} SameElements<T>(a: seq<T>, b: seq<T>, d: set<T>)
    requires multiset(a) == multiset(b) && Within(b, d)
    ensures |a| == |b| && Within(a, d) && forall x :: x in a <==> x in b
  {
    assert |a| == |multiset(a)| == |multiset(b)| == |b|;
    forall x ensures x in a <==> x in b {
      assert x in a <==> x in multiset(a);
      assert x in b <==> x in multiset(b);
    }
    forall i | 0 <= i < |a| ensures a[i] in d { assert a[i] in b; }
  }

  /** Sorting puts the elements in order. */
  lemma {:induction false} SortSorted<T>(s: seq<T>, leq: (T, T) -> bool, d: set<T>)
    requires TotalOn(leq, d) && Within(s, d)
    ensures Sorted(Sort(s, leq), leq)
  {
    if s != [] {
      SortSorted(s[1..], leq, d);
      SortHolds(s[1..], leq);
      SameElements(Sort(s[1..], leq), s[1..], d);
      PlaceSorted(Sort(s[1..], leq), s[0], leq, d);
    }
  }

  lemma {:induction false} FirstIsLeast<T>(s: seq<T>, x: T, leq: (T, T) -> bool, d: set<T>)
    requires TotalOn(leq, d) && Within(s, d) && Sorted(s, leq) && x in multiset(s)
    ensures leq(s[0], x)
  {
    var i :| 0 <= i < |s| && s[i] == x;
    assert s[0] in d;
  }

  lemma {:induction false} TailMultiset<T>(s: seq<T>)
    requires s != []
    ensures multiset(s[1..]) == multiset(s) - multiset{s[0]}
  {
    assert s == [s[0]] + s[1..];
  }

  /** There is only one sorted arrangement of given elements. */
  lemma {:induction false} SortedIsUnique<T>(a: seq<T>, b: seq<T>, leq: (T, T) -> bool, d: set<T>)
    requires TotalOn(leq, d) && Within(a, d) && Within(b, d)
    requires Sorted(a, leq) && Sorted(b, leq) && multiset(a) == multiset(b)
    ensures a == b
  {
    assert |a| == |multiset(a)| == |multiset(b)| == |b|;
    if a != [] {
      FirstIsLeast(a, b[0], leq, d);
      FirstIsLeast(b, a[0], leq, d);
      assert a[0] == b[0];
      TailMultiset(a);
      TailMultiset(b);
      SortedIsUnique(a[1..], b[1..], leq, d);
      assert a == [a[0]] + a[1..] && b == [b[0]] + b[1..];
    }
  }

  /** Any sorted arrangement of the elements is what sorting returns. */
  lemma {:induction false} SortIsCanonical<T>(a: seq<T>, b: seq<T>, leq: (T, T) -> bool, d: set<T>)
    requires TotalOn(leq, d) && Within(a, d) && multiset(a) == multiset(b)
    ensures Sort(a, leq) == Sort(b, leq)
    ensures Sorted(a, leq) ==> Sort(b, leq) == a
  {
    SortHolds(a, leq);
    SortHolds(b, leq);
    SameElements(b, a, d);
    SameElements(Sort(a, leq), a, d);
    SameElements(Sort(b, leq), b, d);
    SortSorted(a, leq, d);
    SortSorted(b, leq, d);
    SortedIsUnique(Sort(a, leq), Sort(b, leq), leq, d);
    if Sorted(a, leq) {
      SortedIsUnique(a, Sort(b, leq), leq, d);
    }
  }
}
