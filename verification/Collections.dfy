/** Facts about finite sets and sequences that several components need. */
module Collections {

  function UpTo(n: nat): (r: set<nat>)
    ensures forall i :: i in r <==> 0 <= i < n
  {
    if n == 0 then {} else UpTo(n - 1) + {n - 1}
  }

  ghost predicate Distinct<T>(s: seq<T>) {
    forall i, j :: 0 <= i < j < |s| ==> s[i] != s[j]
  }

  lemma {:induction false} DistinctSize<T>(s: seq<T>)
    requires Distinct(s)
    ensures |set x | x in s| == |s|
  {
    if s != [] {
      var n := |s| - 1;
      DistinctSize(s[..n]);
      assert (set x | x in s) == (set x | x in s[..n]) + {s[n]};
    }
  }

  lemma {:induction false} SameMembers<T>(s: seq<T>, t: seq<T>)
    requires multiset(s) == multiset(t)
    ensures forall x :: x in s <==> x in t
  {
    assert forall x :: x in s <==> x in multiset(s);
    assert forall x :: x in t <==> x in multiset(t);
  }

  lemma {:induction false} DistinctIsOnce<T>(s: seq<T>)
    ensures Distinct(s) <==> forall x :: multiset(s)[x] <= 1
  {
    if s != [] {
      var n := |s| - 1;
      var t := s[..n];
      DistinctIsOnce(t);
      assert s == t + [s[n]];
      assert s[n] in t <==> s[n] in multiset(t);
      if Distinct(s) {
        assert s[n] !in t;
      } else if Distinct(t) {
        assert s[n] in t;
        assert multiset(s)[s[n]] == 2;
      } else {
        var x :| multiset(t)[x] > 1;
        assert multiset(s)[x] > 1;
      }
    }
  }

  lemma {:induction false} DistinctInAnyOrder<T>(s: seq<T>, t: seq<T>)
    requires multiset(s) == multiset(t)
    ensures Distinct(s) <==> Distinct(t)
  {
    DistinctIsOnce(s);
    DistinctIsOnce(t);
  }

  lemma {:induction false} UpToSize(n: nat)
    ensures |UpTo(n)| == n
  {
    if 0 < n {
      UpToSize(n - 1);
    }
  }

  lemma {:induction false} SubsetSize<T>(a: set<T>, b: set<T>)
    requires a <= b
    ensures |a| <= |b| && (|a| == |b| <==> a == b)
  {
    assert b == a + (b - a);
  }

  lemma {:induction false} TakeStep<T>(s: seq<T>, i: nat)
    requires i < |s|
    ensures s[..i] + [s[i]] == s[..i + 1]
  {}

  /** A sequence without the element at `i`. */
  function Without<T>(s: seq<T>, i: nat): seq<T>
    requires i < |s|
  {
    s[..i] + s[i + 1..]
  }

  /** A sequence without the first `n` elements that satisfy `p`. */
  function DropFirst<T>(s: seq<T>, p: T -> bool, n: nat): seq<T> {
    if s == [] || n == 0 then s
    else if p(s[0]) then DropFirst(s[1..], p, n - 1)
    else [s[0]] + DropFirst(s[1..], p, n)
  }

  /** A sequence without all elements that satisfy `p`. */
  function DropAll<T>(s: seq<T>, p: T -> bool): seq<T> {
    if s == [] then [] else if p(s[0]) then DropAll(s[1..], p) else [s[0]] + DropAll(s[1..], p)
  }

  /** `k` is the first place where `p` holds, or the end. */
  ghost predicate FirstWhere<T>(s: seq<T>, p: T -> bool, k: nat) {
    k <= |s| && (k < |s| ==> p(s[k])) && forall j :: 0 <= j < k ==> !p(s[j])
  }

  /** Removing the first such element is one step towards dropping `n + 1` of them. */
  lemma {:induction false} DropOne<T>(s: seq<T>, p: T -> bool, k: nat, n: nat)
    requires FirstWhere(s, p, k) && k < |s|
    ensures DropFirst(Without(s, k), p, n) == DropFirst(s, p, n + 1)
    decreases k
  {
    if k == 0 {
      assert Without(s, k) == s[1..];
    } else {
      var t := Without(s[1..], k - 1);
      assert Without(s, k) == [s[0]] + t && Without(s, k)[1..] == t;
      DropOne(s[1..], p, k - 1, n);
      assert n == 0 ==> DropFirst(t, p, n) == t;
    }
  }

  /** An element that would be dropped anyway may be removed first. */
  lemma {:induction false} DropAllWithout<T>(s: seq<T>, p: T -> bool, k: nat)
    requires k < |s| && p(s[k])
    ensures DropAll(Without(s, k), p) == DropAll(s, p)
    decreases k
  {
    if k == 0 {
      assert Without(s, k) == s[1..];
    } else {
      var t := Without(s[1..], k - 1);
      assert Without(s, k) == [s[0]] + t && Without(s, k)[1..] == t;
      DropAllWithout(s[1..], p, k - 1);
    }
  }

  lemma {:induction false} NothingToDrop<T>(s: seq<T>, p: T -> bool)
    requires FirstWhere(s, p, |s|)
    ensures DropAll(s, p) == s
  {
    if s != [] {
      NothingToDrop(s[1..], p);
    }
  }

  lemma {:induction false} NoneToDrop<T>(s: seq<T>, p: T -> bool, n: nat)
    requires FirstWhere(s, p, |s|)
    ensures DropFirst(s, p, n) == s
  {
    if s != [] && 0 < n {
      NoneToDrop(s[1..], p, n);
    }
  }

  /** Dropping as many as there are elements drops them all. */
  lemma {:induction false} DropEnough<T>(s: seq<T>, p: T -> bool, n: nat)
    requires |s| <= n
    ensures DropFirst(s, p, n) == DropAll(s, p)
  {
    if s != [] {
      DropEnough(s[1..], p, if p(s[0]) then n - 1 else n);
    }
  }

  /** The first `n` elements that satisfy `p`. */
  function TakeFirst<T>(s: seq<T>, p: T -> bool, n: nat): seq<T> {
    if s == [] || n == 0 then []
    else if p(s[0]) then [s[0]] + TakeFirst(s[1..], p, n - 1)
    else TakeFirst(s[1..], p, n)
  }

  lemma {:induction false} TakeOne<T>(s: seq<T>, p: T -> bool, k: nat, n: nat)
    requires FirstWhere(s, p, k) && k < |s|
    ensures TakeFirst(s, p, n + 1) == [s[k]] + TakeFirst(Without(s, k), p, n)
    decreases k
  {
    if k == 0 {
      assert Without(s, k) == s[1..];
    } else {
      assert Without(s, k)[1..] == Without(s[1..], k - 1);
      TakeOne(s[1..], p, k - 1, n);
    }
  }

  /** Distinct numbers between two bounds are no more than fit between them. */
  lemma {:induction false} PigeonHole(s: seq<int>, lo: int, hi: int)
    requires Distinct(s) && lo <= hi + 1 && forall i :: 0 <= i < |s| ==> lo <= s[i] <= hi
    ensures |s| <= hi - lo + 1
    decreases hi - lo + 1
  {
    assert 0 < |s| ==> lo <= s[0] <= hi;
    if lo <= hi {
      if hi in s {
        var k :| 0 <= k < |s| && s[k] == hi;
        var r := Without(s, k);
        assert forall i :: 0 <= i < |r| ==> r[i] == s[if i < k then i else i + 1];
        PigeonHole(r, lo, hi - 1);
      } else {
        PigeonHole(s, lo, hi - 1);
      }
    }
  }
}
