/** Crediting scheduled samples to a watch: `WatchManager::recordSamples` receives ranges of
    scheduled instants, possibly overlapping or replayed, and credits each instant at most once. */
module SampleCredit {
  import opened Base
  import opened Collections

  /** The counters kept for a watch that has been credited at least once. */
  datatype Tally = Tally(count: uint64, last: int)

  /** A watch that reached its limit, or a live one with the instants credited to it so far. */
  datatype Book = Gone | Live(tally: Option<Tally>, credited: seq<int>)

  /** `count` instants from `first`, one `period` apart. */
  datatype Range = Range(first: int, period: int, count: nat)

  /** What `recordSamples` accepts: its overflow checks are exactly that the last instant fits. */
  predicate ValidRange(r: Range) {
    0 <= r.first && 0 < r.period && 1 <= r.count <= UINT64_MAX && Instant(r.first, r.period, r.count - 1) <= INT64_MAX
  }

  function Instant(first: int, period: int, k: int): int { first + k * period }

  /** The two checks of the source, which avoid computing a product that overflows. */
  predicate RangeChecks(r: Range)
    requires 0 < r.period && 1 <= r.count
  {
    var intervals := r.count - 1;
    intervals <= INT64_MAX / r.period && r.first <= INT64_MAX - r.period * intervals
  }

  lemma {:induction false} ProductGrows(p: nat, a: nat, b: nat)
    requires a <= b
    ensures p * a <= p * b
  {}

  lemma {:induction false} ProductFits(max: nat, p: nat, n: nat)
    requires 0 < p
    ensures n <= max / p <==> p * n <= max
  {
    var q := max / p;
    assert p * q <= max < p * (q + 1);
    if n <= q {
      ProductGrows(p, n, q);
    } else {
      ProductGrows(p, q + 1, n);
    }
  }

  lemma {:induction false} ChecksAreExact(r: Range)
    requires 0 <= r.first && 0 < r.period && 1 <= r.count <= UINT64_MAX
    ensures RangeChecks(r) <==> ValidRange(r)
  {
    ProductFits(INT64_MAX, r.period, r.count - 1);
  }

  function Instants(first: int, period: int, from: nat, to: nat): seq<int>
    requires from <= to
  {
    seq(to - from, i requires 0 <= i < to - from => Instant(first, period, from + i))
  }

  /** How many instants at the front of the range were credited before. */
  function Skipped(tally: Option<Tally>, r: Range): nat
    requires 0 < r.period
  {
    if tally.Some? && r.first <= tally.value.last then (tally.value.last - r.first) / r.period + 1 else 0
  }

  function CountOf(tally: Option<Tally>): uint64 { if tally.Some? then tally.value.count else 0 }

  function SaturatingAdd(a: uint64, b: uint64): uint64 {
    if b > UINT64_MAX - a then UINT64_MAX else a + b
  }

  /** One watch's share of `recordSamples`; `limit` zero means unlimited. */
  function Credit(limit: uint64, b: Book, r: Range): Book
    requires ValidRange(r)
  {
    if b.Gone? then Gone
    else
      var skipped := Skipped(b.tally, r);
      if r.count <= skipped then b
      else
        var updated := SaturatingAdd(CountOf(b.tally), r.count - skipped);
        if limit != 0 && limit <= updated then Gone
        else Live(Some(Tally(updated, Instant(r.first, r.period, r.count - 1))),
                  b.credited + Instants(r.first, r.period, skipped, r.count))
  }

  // ----- The invariant -----

  ghost predicate Rising(s: seq<int>) {
    forall i, j :: 0 <= i < j < |s| ==> s[i] < s[j]
  }

  /** The count is the number of distinct instants credited, the last of them is remembered,
      and a limited watch lives only below its limit. */
  ghost predicate BookInv(limit: uint64, b: Book) {
    b.Live? ==>
      && Rising(b.credited) && (forall x :: x in b.credited ==> 0 <= x <= INT64_MAX)
      && (if b.tally.Some? then
            && |b.credited| == b.tally.value.count && b.credited != []
            && b.credited[|b.credited| - 1] == b.tally.value.last
          else b.credited == [])
      && (limit != 0 ==> CountOf(b.tally) < limit)
  }

  lemma {:induction false} InstantBounds(first: int, period: int, a: int, b: int)
    requires 0 < period && a <= b
    ensures Instant(first, period, a) <= Instant(first, period, b)
    ensures a < b ==> Instant(first, period, a) < Instant(first, period, b)
  {
    assert period * (b - a) >= 0;
    assert a < b ==> period * (b - a) > 0;
    assert Instant(first, period, b) - Instant(first, period, a) == period * (b - a);
  }

  lemma {:induction false} InstantsRise(first: int, period: int, from: nat, to: nat)
    requires from <= to && 0 < period
    ensures Rising(Instants(first, period, from, to))
  {
    var s := Instants(first, period, from, to);
    forall i, j | 0 <= i < j < |s| ensures s[i] < s[j] {
      InstantBounds(first, period, from + i, from + j);
    }
  }

  /** The first instant that is not skipped is later than everything credited, and the one before is not. */
  lemma {:induction false} SkippedIsExact(tally: Option<Tally>, r: Range)
    requires 0 < r.period && tally.Some?
    ensures tally.value.last < Instant(r.first, r.period, Skipped(tally, r))
    ensures 0 < Skipped(tally, r) ==> Instant(r.first, r.period, Skipped(tally, r) - 1) <= tally.value.last
  {
    if r.first <= tally.value.last {
      var d, p := tally.value.last - r.first, r.period;
      assert p * (d / p) <= d < p * (d / p + 1);
    }
  }

  lemma {:induction false} RisingConcat(a: seq<int>, b: seq<int>)
    requires Rising(a) && Rising(b) && (a != [] && b != [] ==> a[|a| - 1] < b[0])
    ensures Rising(a + b)
  {
    var s := a + b;
    forall i, j | 0 <= i < j < |s| ensures s[i] < s[j] {
      if i < |a| <= j {
        assert i < |a| - 1 ==> a[i] < a[|a| - 1];
        assert 0 < j - |a| ==> b[0] < b[j - |a|];
      }
    }
  }

  lemma {:induction false} InstantsInRange(r: Range, from: nat)
    requires ValidRange(r) && from <= r.count
    ensures forall x :: x in Instants(r.first, r.period, from, r.count) ==> 0 <= x <= INT64_MAX
  {
    var s := Instants(r.first, r.period, from, r.count);
    forall i | 0 <= i < |s| ensures 0 <= s[i] <= INT64_MAX {
      InstantBounds(r.first, r.period, 0, from + i);
      InstantBounds(r.first, r.period, from + i, r.count - 1);
    }
  }

  lemma {:induction false} CreditedExtends(limit: uint64, b: Book, r: Range)
    requires BookInv(limit, b) && ValidRange(r) && b.Live? && Skipped(b.tally, r) < r.count
    ensures var all := b.credited + Instants(r.first, r.period, Skipped(b.tally, r), r.count);
            && Rising(all) && (forall x :: x in all ==> 0 <= x <= INT64_MAX)
            && |all| <= INT64_MAX + 1
  {
    var skipped := Skipped(b.tally, r);
    var more := Instants(r.first, r.period, skipped, r.count);
    InstantsRise(r.first, r.period, skipped, r.count);
    InstantsInRange(r, skipped);
    if b.tally.Some? { SkippedIsExact(b.tally, r); }
    RisingConcat(b.credited, more);
    RisingBounded(b.credited + more);
  }

  lemma {:induction false} RisingBounded(s: seq<int>)
    requires Rising(s) && forall x :: x in s ==> 0 <= x <= INT64_MAX
    ensures |s| <= INT64_MAX + 1
  {
    forall i | 0 <= i < |s| ensures s[i] in s {}
    PigeonHole(s, 0, INT64_MAX);
  }

  /** The saturating branch of the count is never taken. */
  lemma {:induction false} NeverSaturates(limit: uint64, b: Book, r: Range)
    requires BookInv(limit, b) && ValidRange(r) && b.Live? && Skipped(b.tally, r) < r.count
    ensures r.count - Skipped(b.tally, r) <= UINT64_MAX - CountOf(b.tally)
  {
    CreditedExtends(limit, b, r);
  }

  lemma {:induction false} CreditKeepsBook(limit: uint64, b: Book, r: Range)
    requires BookInv(limit, b) && ValidRange(r)
    ensures BookInv(limit, Credit(limit, b, r))
  {
    if b.Live? && Skipped(b.tally, r) < r.count {
      CreditedExtends(limit, b, r);
      NeverSaturates(limit, b, r);
    }
  }

  /** What one range does to a live watch: the instants after the last one credited are added, all of them and no
      other; the watch ends if and only if it is limited and they bring it to its limit. */
  lemma {:induction false} CreditIs(limit: uint64, b: Book, r: Range) returns (n: nat)
    requires BookInv(limit, b) && ValidRange(r) && b.Live?
    ensures n <= r.count
    ensures forall i :: 0 <= i < r.count ==>
                          (i < n <==> b.tally.Some? && Instant(r.first, r.period, i) <= b.tally.value.last)
    ensures var total, c := |b.credited| + (r.count - n), Credit(limit, b, r);
            if n == r.count then c == b
            else if limit != 0 && limit <= total then c.Gone?
            else && c.Live? && c.credited == b.credited + Instants(r.first, r.period, n, r.count)
                 && c.tally.Some? && c.tally.value.count == total
                 && c.tally.value.last == Instant(r.first, r.period, r.count - 1)
  {
    var skipped := Skipped(b.tally, r);
    n := if skipped <= r.count then skipped else r.count;
    if b.tally.Some? {
      SkippedIsExact(b.tally, r);
      forall i | 0 <= i < r.count
        ensures i < n <==> Instant(r.first, r.period, i) <= b.tally.value.last
      {
        if i < skipped {
          InstantBounds(r.first, r.period, i, skipped - 1);
        } else {
          InstantBounds(r.first, r.period, skipped, i);
        }
      }
    }
    if skipped < r.count {
      NeverSaturates(limit, b, r);
    }
  }

  function CreditAll(limit: uint64, rs: seq<Range>): Book
    requires forall r :: r in rs ==> ValidRange(r)
  {
    if rs == [] then Live(None, []) else Credit(limit, CreditAll(limit, rs[..|rs| - 1]), rs[|rs| - 1])
  }

  /** For any run of records, overlapping or replayed: a live watch's count is the number of
      distinct instants credited to it, in strictly rising order, and stays below its limit. */
  lemma {:induction false} EachInstantOnce(limit: uint64, rs: seq<Range>)
    requires forall r :: r in rs ==> ValidRange(r)
    ensures BookInv(limit, CreditAll(limit, rs))
  {
    if rs != [] {
      EachInstantOnce(limit, rs[..|rs| - 1]);
      CreditKeepsBook(limit, CreditAll(limit, rs[..|rs| - 1]), rs[|rs| - 1]);
    }
  }

  // ----- Splitting and replaying ranges -----

  /** The rest of a range after its first `n` instants. */
  function Tail(r: Range, n: nat): Range
    requires n <= r.count
  {
    Range(Instant(r.first, r.period, n), r.period, r.count - n)
  }

  lemma {:induction false} InstantOfTail(r: Range, n: nat, k: int)
    requires n <= r.count
    ensures Instant(Tail(r, n).first, r.period, k) == Instant(r.first, r.period, n + k)
  {
    assert n * r.period + k * r.period == (n + k) * r.period;
  }

  /** Skipping is determined by which instants lie at or before the last one credited. */
  lemma {:induction false} SkippedUnique(tally: Option<Tally>, r: Range, s: nat)
    requires 0 < r.period && tally.Some?
    requires tally.value.last < Instant(r.first, r.period, s)
    requires 0 < s ==> Instant(r.first, r.period, s - 1) <= tally.value.last
    ensures Skipped(tally, r) == s
  {
    SkippedIsExact(tally, r);
    var t := Skipped(tally, r);
    if s < t {
      InstantBounds(r.first, r.period, s, t - 1);
    } else if t < s {
      InstantBounds(r.first, r.period, t, s - 1);
    }
  }

  lemma {:induction false} SkippedOfTail(tally: Option<Tally>, r: Range, n: nat)
    requires 0 < r.period && n <= r.count
    ensures Skipped(tally, Tail(r, n)) == if Skipped(tally, r) <= n then 0 else Skipped(tally, r) - n
  {
    if tally.Some? {
      SkippedIsExact(tally, r);
      var s := Skipped(tally, r);
      if s <= n {
        InstantBounds(r.first, r.period, s, n);
        InstantOfTail(r, n, 0);
        SkippedUnique(tally, Tail(r, n), 0);
      } else {
        InstantOfTail(r, n, s - n);
        InstantOfTail(r, n, s - n - 1);
        SkippedUnique(tally, Tail(r, n), s - n);
      }
    }
  }

  lemma {:induction false} InstantsSplit(r: Range, s: nat, n: nat)
    requires s <= n <= r.count
    ensures Instants(r.first, r.period, s, r.count) ==
            Instants(r.first, r.period, s, n) + Instants(Tail(r, n).first, r.period, 0, r.count - n)
  {
    var a, b := Instants(r.first, r.period, s, n), Instants(Tail(r, n).first, r.period, 0, r.count - n);
    var all := Instants(r.first, r.period, s, r.count);
    forall i | 0 <= i < |all| ensures all[i] == (a + b)[i] {
      InstantOfTail(r, n, s + i - n);
    }
  }

  lemma {:induction false} InstantsOfTail(r: Range, n: nat, s: nat)
    requires n <= s <= r.count
    ensures Instants(Tail(r, n).first, r.period, s - n, r.count - n) == Instants(r.first, r.period, s, r.count)
  {
    var a, b := Instants(Tail(r, n).first, r.period, s - n, r.count - n), Instants(r.first, r.period, s, r.count);
    forall i | 0 <= i < |a| ensures a[i] == b[i] {
      InstantOfTail(r, n, s - n + i);
    }
  }

  lemma {:induction false} PartsAreValid(r: Range, n: nat)
    requires ValidRange(r) && 0 < n < r.count
    ensures ValidRange(r.(count := n)) && ValidRange(Tail(r, n))
  {
    InstantBounds(r.first, r.period, n - 1, r.count - 1);
    InstantBounds(r.first, r.period, 0, n);
    InstantOfTail(r, n, r.count - n - 1);
  }

  /** Recording a range at once leaves the same as recording its first part and then the rest. */
  lemma {:induction false} RecordingSplits(limit: uint64, b: Book, r: Range, n: nat)
    requires BookInv(limit, b) && ValidRange(r) && 0 < n < r.count
    ensures ValidRange(r.(count := n)) && ValidRange(Tail(r, n))
    ensures Credit(limit, Credit(limit, b, r.(count := n)), Tail(r, n)) == Credit(limit, b, r)
  {
    PartsAreValid(r, n);
    if b.Live? {
      var s := Skipped(b.tally, r);
      assert Skipped(b.tally, r.(count := n)) == s;
      InstantOfTail(r, n, r.count - n - 1);
      if n <= s {
        SkippedOfTail(b.tally, r, n);
        if s < r.count { InstantsOfTail(r, n, s); }
      } else {
        NeverSaturates(limit, b, r);
        SplitBelow(limit, b, r, n);
      }
    }
  }

  lemma {:induction false} SplitBelow(limit: uint64, b: Book, r: Range, n: nat)
    requires BookInv(limit, b) && ValidRange(r) && 0 < n < r.count && b.Live?
    requires ValidRange(r.(count := n)) && ValidRange(Tail(r, n))
    requires Skipped(b.tally, r) < n && r.count - Skipped(b.tally, r) <= UINT64_MAX - CountOf(b.tally)
    ensures Credit(limit, Credit(limit, b, r.(count := n)), Tail(r, n)) == Credit(limit, b, r)
  {
    var s := Skipped(b.tally, r);
    var half := Credit(limit, b, r.(count := n));
    if half.Live? {
      InstantBounds(r.first, r.period, n - 1, n);
      InstantOfTail(r, n, 0);
      SkippedUnique(half.tally, Tail(r, n), 0);
      InstantsSplit(r, s, n);
      InstantOfTail(r, n, r.count - n - 1);
      assert b.credited + Instants(r.first, r.period, s, r.count) ==
             half.credited + Instants(Tail(r, n).first, r.period, 0, r.count - n);
    }
  }

  /** Recording a range a second time changes nothing. */
  lemma {:induction false} ReplayIsHarmless(limit: uint64, b: Book, r: Range)
    requires BookInv(limit, b) && ValidRange(r)
    ensures Credit(limit, Credit(limit, b, r), r) == Credit(limit, b, r)
  {
    var c := Credit(limit, b, r);
    if b.Live? && c.Live? && Skipped(b.tally, r) < r.count {
      InstantBounds(r.first, r.period, r.count - 1, r.count);
      SkippedUnique(c.tally, r, r.count);
    }
  }
}
