/** The order of `DataKey` and the canonical, sorted form of a set of keys. */
module KeyOrder {
  import opened Collections
  import opened Domain
  import opened Ordering

  function KindRank(k: EntityKind): nat {
    match k case UnknownKind => 0 case Device => 1 case NodeKind => 2
  }

  /** The fields in the order they are compared. */
  predicate KeyLeq(a: DataKey, b: DataKey) {
    var x, y := a.entity, b.entity;
    || KindRank(x.kind) < KindRank(y.kind)
    || (x.kind == y.kind && (x.id < y.id || (x.id == y.id && (x.generation < y.generation ||
                                                              (x.generation == y.generation && a.metric <= b.metric)))))
  }

  lemma {:induction false} KeyOrderIsTotal(d: set<DataKey>)
    ensures TotalOn(KeyLeq, d)
  {}

  function SortKeys(s: seq<DataKey>): seq<DataKey> { Sort(s, KeyLeq) }

  ghost function KeysIn(s: seq<DataKey>): set<DataKey> { set k | k in s }

  lemma {:induction false} SortKeysIs(s: seq<DataKey>)
    ensures multiset(SortKeys(s)) == multiset(s) && Sorted(SortKeys(s), KeyLeq)
  {
    KeyOrderIsTotal(KeysIn(s));
    SortHolds(s, KeyLeq);
    SortSorted(s, KeyLeq, KeysIn(s));
  }

  /** Two requests for the same keys in any order have the same sorted form. */
  lemma {:induction false} SameKeysSortAlike(a: seq<DataKey>, b: seq<DataKey>)
    requires multiset(a) == multiset(b)
    ensures SortKeys(a) == SortKeys(b)
  {
    KeyOrderIsTotal(KeysIn(a));
    SortIsCanonical(a, b, KeyLeq, KeysIn(a));
  }

  predicate EqualNeighbours(s: seq<DataKey>) {
    exists i :: 0 < i < |s| && s[i - 1] == s[i]
  }

  /** In sorted keys equal ones are neighbours, so the duplicate check is exact. */
  lemma {:induction false} NeighboursSuffice(s: seq<DataKey>)
    requires Sorted(s, KeyLeq)
    ensures EqualNeighbours(s) <==> !Distinct(s)
  {
    if !EqualNeighbours(s) {
      forall i, j | 0 <= i < j < |s| ensures s[i] != s[j] {
        assert s[j - 1] != s[j];
        assert KeyLeq(s[i], s[j - 1]) || i == j - 1;
        assert KeyLeq(s[j - 1], s[j]);
      }
    }
  }
}
