/** The compiler from effective watches to batched collection jobs,
    `CollectionCoordinator::applyWatchSnapshot`. */
module Plan {
  import opened Base
  import opened Collections
  import opened Domain
  import opened KeyOrder
  import opened Ordering
  import opened Watch
  import WM = WatchManager

  datatype Item = Item(key: EffectiveKey, period: int, freshness: int, priority: Priority, watches: seq<uint64>)

  datatype Group = Group(provider: string, period: int, kind: DataKind, isolation: uint32)

  datatype Job = Job(id: uint64, group: Group, priority: Priority, items: seq<Item>)

  /** What the data store knows of the active catalog. */
  datatype DataCatalog = DataCatalog(described: set<uint32>, heartbeat: Option<uint32>)

  function ItemOf(e: Effective): Item { Item(e.key, e.period, e.freshness, e.priority, e.watches) }

  function ItemsOf(es: seq<Effective>): seq<Item> { seq(|es|, i requires 0 <= i < |es| => ItemOf(es[i])) }

  function GroupOf(i: Item): Group { Group(i.key.provider, i.period, i.key.kind, i.key.isolation) }

  predicate Compilable(e: Effective, data: DataCatalog) {
    && e.key.provider != "" && e.key.dataId != 0 && 0 < e.period <= e.freshness
    && match e.key.kind
       case MetricData => e.key.dataId in data.described
       case HeartbeatData => data.heartbeat == Some(e.key.dataId)
  }

  ghost predicate DistinctKeys(s: seq<Item>) {
    forall i, j :: 0 <= i < j < |s| ==> s[i].key != s[j].key
  }

  // ----- The order of groups and of items -----

  function DataRank(k: DataKind): nat { match k case MetricData => 0 case HeartbeatData => 1 }

  predicate GroupLeq(a: Group, b: Group) {
    || StrLess(a.provider, b.provider)
    || (a.provider == b.provider && (a.period < b.period || (a.period == b.period && (
          || DataRank(a.kind) < DataRank(b.kind)
          || (a.kind == b.kind && a.isolation <= b.isolation)))))
  }

  /** Within a group providers, kinds and isolation classes agree, so keys differ in the rest. */
  predicate WithinLeq(a: Item, b: Item) {
    KeyLeq(DataKey(a.key.entity, a.key.dataId), DataKey(b.key.entity, b.key.dataId))
  }

  predicate ItemLeq(a: Item, b: Item) {
    if GroupOf(a) == GroupOf(b) then WithinLeq(a, b) else GroupLeq(GroupOf(a), GroupOf(b))
  }

  lemma {:induction false} StringOrder(a: string, b: string, c: string)
    ensures StrLeq(a, b) || StrLeq(b, a)
    ensures StrLeq(a, b) && StrLeq(b, a) ==> a == b
    ensures StrLeq(a, b) && StrLeq(b, c) ==> StrLeq(a, c)
  {
    StrTotal(a, b);
    StrAntisymmetric(a, b);
    if StrLeq(a, b) && StrLeq(b, c) {
      StrTransitive(a, b, c);
    }
  }

  lemma {:induction false} GroupOrder(a: Group, b: Group, c: Group)
    ensures GroupLeq(a, b) || GroupLeq(b, a)
    ensures GroupLeq(a, b) && GroupLeq(b, a) ==> a == b
    ensures GroupLeq(a, b) && GroupLeq(b, c) ==> GroupLeq(a, c)
  {
    StringOrder(a.provider, b.provider, c.provider);
    StringOrder(b.provider, c.provider, a.provider);
    StringOrder(a.provider, c.provider, b.provider);
  }

  lemma {:induction false} GroupsAreOrdered(d: set<Group>)
    ensures TotalOn(GroupLeq, d)
  {
    forall a, b, c | a in d && b in d && c in d
      ensures GroupLeq(a, b) || GroupLeq(b, a)
      ensures GroupLeq(a, b) && GroupLeq(b, a) ==> a == b
      ensures GroupLeq(a, b) && GroupLeq(b, c) ==> GroupLeq(a, c)
    {
      GroupOrder(a, b, c);
    }
  }

  ghost predicate KeysIdentify(d: set<Item>) {
    forall a, b :: a in d && b in d && a.key == b.key ==> a == b
  }

  lemma {:induction false} ItemOrder(a: Item, b: Item, c: Item)
    ensures ItemLeq(a, b) || ItemLeq(b, a)
    ensures ItemLeq(a, b) && ItemLeq(b, a) ==> a.key == b.key
    ensures ItemLeq(a, b) && ItemLeq(b, c) ==> ItemLeq(a, c)
  {
    GroupOrder(GroupOf(a), GroupOf(b), GroupOf(c));
    GroupOrder(GroupOf(b), GroupOf(c), GroupOf(a));
  }

  lemma {:induction false} ItemsAreOrdered(d: set<Item>)
    requires KeysIdentify(d)
    ensures TotalOn(ItemLeq, d)
  {
    forall a, b, c | a in d && b in d && c in d
      ensures ItemLeq(a, b) || ItemLeq(b, a)
      ensures ItemLeq(a, b) && ItemLeq(b, a) ==> a == b
      ensures ItemLeq(a, b) && ItemLeq(b, c) ==> ItemLeq(a, c)
    {
      ItemOrder(a, b, c);
    }
  }

  // ----- The plan of a snapshot -----

  /** How many leading items of `s` belong to `g`, up to `max`. */
  function Leading(s: seq<Item>, g: Group, max: nat): (n: nat)
    ensures n <= |s| && n <= max
  {
    if s == [] || max == 0 || GroupOf(s[0]) != g then 0 else 1 + Leading(s[1..], g, max - 1)
  }

  /** Cuts sorted items into batches: as long as the group lasts, at most `max` each. */
  function Cut(s: seq<Item>, max: positive): seq<seq<Item>>
    decreases |s|
  {
    if s == [] then []
    else
      var n := Leading(s, GroupOf(s[0]), max);
      [s[..n]] + Cut(s[n..], max)
  }

  function Top(items: seq<Item>): Priority {
    if items == [] then Low
    else
      var p, q := Top(items[..|items| - 1]), items[|items| - 1].priority;
      if Rank(p) < Rank(q) then q else p
  }

  function Flatten(batches: seq<seq<Item>>): seq<Item> {
    if batches == [] then [] else batches[0] + Flatten(batches[1..])
  }

  lemma {:induction false} LeadingIs(s: seq<Item>, g: Group, max: nat)
    ensures var n := Leading(s, g, max);
            && (forall i :: 0 <= i < n ==> GroupOf(s[i]) == g)
            && (n < |s| && n < max ==> GroupOf(s[n]) != g)
  {
    if s != [] && max != 0 && GroupOf(s[0]) == g {
      LeadingIs(s[1..], g, max - 1);
      var n := Leading(s[1..], g, max - 1);
      assert forall i :: 0 < i <= n ==> s[i] == s[1..][i - 1];
    }
  }

  /** One homogeneous batch that is not empty and not too long. */
  ghost predicate GoodBatch(b: seq<Item>, max: positive) {
    0 < |b| <= max && forall i :: 0 <= i < |b| ==> GroupOf(b[i]) == GroupOf(b[0])
  }

  lemma {:induction false} FirstBatchIsGood(s: seq<Item>, max: positive, n: nat)
    requires s != [] && n == Leading(s, GroupOf(s[0]), max)
    ensures GoodBatch(s[..n], max)
  {
    LeadingIs(s, GroupOf(s[0]), max);
  }

  /** Cutting loses nothing, invents nothing and makes only good batches. */
  lemma {:induction false} CutIsPartition(s: seq<Item>, max: positive)
    ensures Flatten(Cut(s, max)) == s && forall b :: b in Cut(s, max) ==> GoodBatch(b, max)
    decreases |s|
  {
    if s != [] {
      var n := Leading(s, GroupOf(s[0]), max);
      FirstBatchIsGood(s, max, n);
      CutIsPartition(s[n..], max);
      var rest := Cut(s[n..], max);
      assert Cut(s, max) == [s[..n]] + rest && ([s[..n]] + rest)[1..] == rest;
      assert s[..n] + s[n..] == s;
    }
  }

  /** A batch is followed by another of its group only when it is full. */
  lemma {:induction false} CutIsFull(s: seq<Item>, max: positive, i: nat)
    requires i + 1 < |Cut(s, max)|
    ensures var a, b := Cut(s, max)[i], Cut(s, max)[i + 1];
            a != [] && b != [] && (GroupOf(a[0]) == GroupOf(b[0]) ==> |a| == max)
    decreases |s|
  {
    var n := Leading(s, GroupOf(s[0]), max);
    FirstBatchIsGood(s, max, n);
    var rest := Cut(s[n..], max);
    assert Cut(s, max) == [s[..n]] + rest;
    if i == 0 {
      LeadingIs(s, GroupOf(s[0]), max);
      CutIsPartition(s[n..], max);
      assert rest[0] in rest && rest[0] <= s[n..];
    } else {
      CutIsFull(s[n..], max, i - 1);
      assert Cut(s, max)[i] == rest[i - 1] && Cut(s, max)[i + 1] == rest[i];
    }
  }

  function Batches(es: seq<Effective>, max: positive): seq<seq<Item>> { Cut(Sort(ItemsOf(es), ItemLeq), max) }

  /** Every effective watch is in exactly one place of exactly one batch. */
  lemma {:induction false} BatchesPartition(es: seq<Effective>, max: positive)
    ensures multiset(Flatten(Batches(es, max))) == multiset(ItemsOf(es))
    ensures forall b :: b in Batches(es, max) ==> GoodBatch(b, max)
  {
    SortHolds(ItemsOf(es), ItemLeq);
    CutIsPartition(Sort(ItemsOf(es), ItemLeq), max);
  }

  /** No more batches than needed: one is followed by another of its group only when it is full. */
  lemma {:induction false} BatchesAreFull(es: seq<Effective>, max: positive, i: nat)
    requires i + 1 < |Batches(es, max)|
    ensures var a, b := Batches(es, max)[i], Batches(es, max)[i + 1];
            a != [] && b != [] && (GroupOf(a[0]) == GroupOf(b[0]) ==> |a| == max)
  {
    CutIsFull(Sort(ItemsOf(es), ItemLeq), max, i);
  }

  lemma {:induction false} DistinctIdentify(s: seq<Item>, d: set<Item>)
    requires DistinctKeys(s) && d == set x | x in s
    ensures KeysIdentify(d) && TotalOn(ItemLeq, d) && Within(s, d)
  {
    ItemsAreOrdered(d);
  }

  /** The plan does not depend on the order in which the snapshot lists its watches. */
  lemma {:induction false} SnapshotOrderIsIrrelevant(a: seq<Effective>, b: seq<Effective>, max: positive)
    requires DistinctKeys(ItemsOf(a)) && multiset(ItemsOf(a)) == multiset(ItemsOf(b))
    ensures Batches(a, max) == Batches(b, max)
  {
    var d := set x | x in ItemsOf(a);
    DistinctIdentify(ItemsOf(a), d);
    SortIsCanonical(ItemsOf(a), ItemsOf(b), ItemLeq, d);
  }

  // ----- Snapshots of the watch manager compile -----

  function DataOf(k: WM.CatalogInfo): DataCatalog {
    DataCatalog(k.descriptors.Keys, if k.heartbeatSupported then k.heartbeat.dataId else None)
  }

  lemma {:induction false} NamedIsDescribed(c: WM.Contents, provider: string, key: EffectiveKey, id: uint64)
    requires id in Naming(provider, c.logical, AllPairs(c.logical), key)
    ensures id in c.logical && key.kind.MetricData? && key.dataId in c.logical[id].requirement.metrics
    ensures key.provider == provider
  {
    var p :| p in AllPairs(c.logical) && p.0 == id && KeyFor(provider, c.logical[id], p.1) == key;
  }

  /** Every effective watch of the snapshot compiles against the catalog it was published for. */
  lemma {:induction false} PublishedCompiles(lim: WM.Limits, c: WM.Contents, key: EffectiveKey)
    requires WM.ManagerInv(lim, c) && key in c.effective
    requires c.basis.catalog.Some? && c.basis.catalog.value.provider != ""
    requires c.basis.catalog.value.heartbeat.dataId != Some(0)
    ensures Compilable(c.effective[key], DataOf(c.basis.catalog.value))
  {
    WM.EffectiveTiming(lim, c, key);
    var provider := c.basis.catalog.value.provider;
    assert CoversKey(provider, c.logical, AllPairs(c.logical), c.basis.baseline, c.effective, key);
    var ids := Naming(provider, c.logical, AllPairs(c.logical), key);
    if ids != {} {
      var id :| id in ids;
      NamedIsDescribed(c, provider, key, id);
    }
  }

  /** `es` lists the effective watches of a snapshot, each once. */
  ghost predicate Lists(es: seq<Effective>, eff: EffectiveMap) {
    && (forall i :: 0 <= i < |es| ==> es[i].key in eff && es[i] == eff[es[i].key])
    && (forall i, j :: 0 <= i < j < |es| ==> es[i].key != es[j].key)
  }

  /** So compiling a snapshot for the catalog it was published for is refused for its size at most. */
  lemma {:induction false} SnapshotIsFine(lim: WM.Limits, c: WM.Contents, es: seq<Effective>)
    requires WM.ManagerInv(lim, c) && Lists(es, c.effective)
    requires c.basis.catalog.Some? && c.basis.catalog.value.provider != ""
    requires c.basis.catalog.value.heartbeat.dataId != Some(0)
    ensures Fine(es, DataOf(c.basis.catalog.value))
  {
    var data := DataOf(c.basis.catalog.value);
    forall i | 0 <= i < |es| ensures Compilable(es[i], data) {
      PublishedCompiles(lim, c, es[i].key);
    }
    var s := ItemsOf(es);
    assert forall i :: 0 <= i < |es| ==> s[i].key == es[i].key;
  }

  // ----- The compiler -----

  type Groups = map<Group, seq<Item>>

  function Filter(s: seq<Item>, g: Group): seq<Item> {
    if s == [] then []
    else Filter(s[..|s| - 1], g) + if GroupOf(s[|s| - 1]) == g then [s[|s| - 1]] else []
  }

  lemma {:induction false} FilterStep(s: seq<Item>, x: Item, g: Group)
    ensures Filter(s + [x], g) == Filter(s, g) + if GroupOf(x) == g then [x] else []
  {
    assert (s + [x])[..|s|] == s;
  }

  lemma {:induction false} FilterIs(s: seq<Item>, g: Group, x: Item)
    ensures multiset(Filter(s, g))[x] == if GroupOf(x) == g then multiset(s)[x] else 0
  {
    if s != [] {
      FilterIs(s[..|s| - 1], g, x);
      assert s == s[..|s| - 1] + [s[|s| - 1]];
    }
  }

  ghost predicate GroupedAs(groups: Groups, s: seq<Item>) {
    forall g :: Filter(s, g) == if g in groups then groups[g] else []
  }

  ghost predicate NonEmpty(groups: Groups) {
    forall g :: g in groups ==> groups[g] != []
  }

  function AddTo(groups: Groups, x: Item): Groups {
    groups[GroupOf(x) := (if GroupOf(x) in groups then groups[GroupOf(x)] else []) + [x]]
  }

  lemma {:induction false} GroupStep(groups: Groups, s: seq<Item>, x: Item)
    requires GroupedAs(groups, s) && NonEmpty(groups)
    ensures GroupedAs(AddTo(groups, x), s + [x]) && NonEmpty(AddTo(groups, x))
  {
    forall g ensures Filter(s + [x], g) == if g in AddTo(groups, x) then AddTo(groups, x)[g] else [] {
      FilterStep(s, x, g);
    }
  }

  ghost predicate AllCompilable(es: seq<Effective>, data: DataCatalog) {
    forall i :: 0 <= i < |es| ==> Compilable(es[i], data)
  }

  /** Whether the watches seen so far are fine, and which keys they have. */
  ghost predicate Checked(es: seq<Effective>, data: DataCatalog, unique: set<EffectiveKey>) {
    AllCompilable(es, data) && DistinctKeys(ItemsOf(es)) && KeysSeen(es, unique)
  }

  ghost predicate KeysSeen(es: seq<Effective>, unique: set<EffectiveKey>) {
    && (forall i :: 0 <= i < |es| ==> es[i].key in unique)
    && (forall k :: k in unique ==> exists i :: 0 <= i < |es| && es[i].key == k)
  }

  lemma {:induction false} DistinctStep(es: seq<Effective>, e: Effective)
    requires DistinctKeys(ItemsOf(es))
    ensures DistinctKeys(ItemsOf(es + [e])) <==> forall i :: 0 <= i < |es| ==> es[i].key != e.key
  {
    ItemsStep(es, e);
    var s := ItemsOf(es);
    assert forall i :: 0 <= i < |es| ==> s[i].key == es[i].key;
    var t := s + [ItemOf(e)];
    assert forall i :: 0 <= i < |s| ==> t[i] == s[i];
    assert t[|s|].key == e.key;
  }

  lemma {:induction false} UniqueStep(es: seq<Effective>, unique: set<EffectiveKey>, e: Effective)
    requires KeysSeen(es, unique)
    ensures KeysSeen(es + [e], unique + {e.key})
  {
    var all := es + [e];
    forall k | k in unique + {e.key} ensures exists i :: 0 <= i < |all| && all[i].key == k {
      if k in unique {
        var i :| 0 <= i < |es| && es[i].key == k;
        assert all[i].key == k;
      } else {
        assert all[|es|].key == k;
      }
    }
  }

  lemma {:induction false} CheckStep(es: seq<Effective>, data: DataCatalog, unique: set<EffectiveKey>, e: Effective)
    requires Checked(es, data, unique)
    ensures Compilable(e, data) && e.key !in unique ==> Checked(es + [e], data, unique + {e.key})
    ensures !Compilable(e, data) || e.key in unique ==>
              !(AllCompilable(es + [e], data) && DistinctKeys(ItemsOf(es + [e])))
  {
    DistinctStep(es, e);
    UniqueStep(es, unique, e);
    assert (es + [e])[|es|] == e;
  }

  lemma {:induction false} CheckPrefix(es: seq<Effective>, data: DataCatalog, n: nat)
    requires n <= |es|
    ensures AllCompilable(es, data) && DistinctKeys(ItemsOf(es)) ==>
              AllCompilable(es[..n], data) && DistinctKeys(ItemsOf(es[..n]))
  {
    assert forall i :: 0 <= i < n ==> es[..n][i] == es[i] && ItemsOf(es[..n])[i] == ItemsOf(es)[i];
  }

  lemma {:induction false} ItemsStep(es: seq<Effective>, e: Effective)
    ensures ItemsOf(es + [e]) == ItemsOf(es) + [ItemOf(e)]
  {}

  ghost predicate Fine(es: seq<Effective>, data: DataCatalog) {
    AllCompilable(es, data) && DistinctKeys(ItemsOf(es))
  }

  ghost predicate Grouping(es: seq<Effective>, data: DataCatalog, unique: set<EffectiveKey>, groups: Groups) {
    Checked(es, data, unique) && GroupedAs(groups, ItemsOf(es)) && NonEmpty(groups)
  }

  lemma {:induction false} GroupingStep(es: seq<Effective>, data: DataCatalog, unique: set<EffectiveKey>,
                                        groups: Groups, all: seq<Effective>, e: Effective)
    requires Grouping(es, data, unique, groups) && es + [e] <= all
    ensures if Compilable(e, data) && e.key !in unique
            then Grouping(es + [e], data, unique + {e.key}, AddTo(groups, ItemOf(e)))
            else !Fine(all, data)
  {
    CheckStep(es, data, unique, e);
    CheckPrefix(all, data, |es| + 1);
    ItemsStep(es, e);
    GroupStep(groups, ItemsOf(es), ItemOf(e));
    assert all[..|es| + 1] == es + [e];
  }

  /** The first loop: checks every watch and puts it into its group. */
  method GroupWatches(es: seq<Effective>, data: DataCatalog) returns (ok: bool, groups: Groups)
    ensures ok <==> Fine(es, data)
    ensures ok ==> GroupedAs(groups, ItemsOf(es)) && NonEmpty(groups)
  {
    groups := map[];
    var unique: set<EffectiveKey> := {};
    for i := 0 to |es|
      invariant Grouping(es[..i], data, unique, groups)
    {
      var e := es[i];
      assert es[..i] + [e] == es[..i + 1];
      GroupingStep(es[..i], data, unique, groups, es, e);
      if !Compilable(e, data) || e.key in unique {
        return false, groups;
      }
      unique := unique + {e.key};
      groups := AddTo(groups, ItemOf(e));
    }
    assert es[..|es|] == es;
    ok := true;
  }

  lemma {:induction false} PlaceNew(s: seq<Group>, g: Group)
    requires Distinct(s) && g !in s
    ensures Distinct(Place(s, g, GroupLeq)) && forall x :: x in Place(s, g, GroupLeq) <==> x in s || x == g
  {
    if s != [] && !GroupLeq(g, s[0]) {
      PlaceNew(s[1..], g);
      assert s == [s[0]] + s[1..];
      var r := Place(s[1..], g, GroupLeq);
      assert s[0] !in r;
      assert forall i :: 0 <= i < |r| ==> r[i] in r;
    }
  }

  /** `gs` visits the groups `done` in the order of a `std::map`. */
  ghost predicate Visits(gs: seq<Group>, done: set<Group>) {
    Sorted(gs, GroupLeq) && Distinct(gs) && forall g :: g in gs <==> g in done
  }

  lemma {:induction false} VisitStep(gs: seq<Group>, done: set<Group>, g: Group)
    requires Visits(gs, done) && g !in done
    ensures Visits(Place(gs, g, GroupLeq), done + {g})
  {
    GroupsAreOrdered(done + {g});
    assert Within(gs, done + {g});
    PlaceSorted(gs, g, GroupLeq, done + {g});
    PlaceNew(gs, g);
  }

  method VisitOrder(keys: set<Group>) returns (gs: seq<Group>)
    ensures Visits(gs, keys)
  {
    gs := [];
    var rest := keys;
    while rest != {}
      invariant rest <= keys && Visits(gs, keys - rest)
      decreases |rest|
    {
      var g :| g in rest;
      VisitStep(gs, keys - rest, g);
      assert keys - rest + {g} == keys - (rest - {g});
      gs := Place(gs, g, GroupLeq);
      rest := rest - {g};
    }
    assert keys - rest == keys;
  }

  /** The items of the groups `gs`, each group sorted. */
  function Laid(gs: seq<Group>, groups: Groups): seq<Item>
    requires forall g :: g in gs ==> g in groups
  {
    if gs == [] then [] else Sort(groups[gs[0]], ItemLeq) + Laid(gs[1..], groups)
  }

  lemma {:induction false} LaidCount(gs: seq<Group>, groups: Groups, s: seq<Item>, x: Item)
    requires Distinct(gs) && GroupedAs(groups, s) && forall g :: g in gs ==> g in groups
    ensures multiset(Laid(gs, groups))[x] == if GroupOf(x) in gs then multiset(s)[x] else 0
  {
    if gs != [] {
      LaidCount(gs[1..], groups, s, x);
      assert groups[gs[0]] == Filter(s, gs[0]);
      FilterIs(s, gs[0], x);
      SortHolds(groups[gs[0]], ItemLeq);
      assert gs == [gs[0]] + gs[1..];
    }
  }

  /** One group, sorted. */
  lemma {:induction false} BlockIs(s: seq<Item>, g: Group, d: set<Item>, b: seq<Item>)
    requires TotalOn(ItemLeq, d) && Within(s, d) && b == Sort(Filter(s, g), ItemLeq)
    ensures Sorted(b, ItemLeq) && Within(b, d) && forall i :: 0 <= i < |b| ==> GroupOf(b[i]) == g
  {
    var f := Filter(s, g);
    forall i | 0 <= i < |f| ensures f[i] in d {
      FilterIs(s, g, f[i]);
      assert f[i] in multiset(f) && f[i] in multiset(s);
    }
    SortSorted(f, ItemLeq, d);
    SortHolds(f, ItemLeq);
    SameElements(b, f, d);
    forall i | 0 <= i < |b| ensures GroupOf(b[i]) == g {
      FilterIs(s, g, b[i]);
      assert b[i] in multiset(b);
    }
  }

  lemma {:induction false} BlocksSorted(a: seq<Item>, b: seq<Item>, g: Group)
    requires Sorted(a, ItemLeq) && Sorted(b, ItemLeq)
    requires forall i :: 0 <= i < |a| ==> GroupOf(a[i]) == g
    requires forall i :: 0 <= i < |b| ==> GroupOf(b[i]) != g && GroupLeq(g, GroupOf(b[i]))
    ensures Sorted(a + b, ItemLeq)
  {
    var s := a + b;
    forall i, j | 0 <= i < j < |s| ensures ItemLeq(s[i], s[j]) {
      assert |a| <= j ==> s[j] == b[j - |a|];
      assert |a| <= i ==> s[i] == b[i - |a|];
    }
  }

  lemma {:induction false} LaidSorted(gs: seq<Group>, groups: Groups, s: seq<Item>, d: set<Item>)
    requires Sorted(gs, GroupLeq) && Distinct(gs) && GroupedAs(groups, s) && forall g :: g in gs ==> g in groups
    requires TotalOn(ItemLeq, d) && Within(s, d)
    ensures Sorted(Laid(gs, groups), ItemLeq) && Within(Laid(gs, groups), d)
    ensures forall i :: 0 <= i < |Laid(gs, groups)| ==> GroupOf(Laid(gs, groups)[i]) in gs
  {
    if gs != [] {
      var a, b := Sort(groups[gs[0]], ItemLeq), Laid(gs[1..], groups);
      assert groups[gs[0]] == Filter(s, gs[0]);
      BlockIs(s, gs[0], d, a);
      LaidSorted(gs[1..], groups, s, d);
      forall i | 0 <= i < |b| ensures GroupOf(b[i]) != gs[0] && GroupLeq(gs[0], GroupOf(b[i])) {
        var j :| 0 <= j < |gs[1..]| && gs[1..][j] == GroupOf(b[i]);
        assert gs[j + 1] == GroupOf(b[i]);
      }
      BlocksSorted(a, b, gs[0]);
    }
  }

  /** Laying out the groups in order is sorting all the items. */
  lemma {:induction false} LaidIsSort(gs: seq<Group>, groups: Groups, s: seq<Item>)
    requires Visits(gs, groups.Keys) && GroupedAs(groups, s) && DistinctKeys(s)
    ensures Laid(gs, groups) == Sort(s, ItemLeq)
  {
    var d := set x | x in s;
    DistinctIdentify(s, d);
    LaidSorted(gs, groups, s, d);
    forall x ensures multiset(Laid(gs, groups))[x] == multiset(s)[x] {
      LaidCount(gs, groups, s, x);
      FilterIs(s, GroupOf(x), x);
    }
    assert multiset(Laid(gs, groups)) == multiset(s);
    SortIsCanonical(Laid(gs, groups), s, ItemLeq, d);
  }

  // ----- Cutting a group into batches -----

  lemma {:induction false} LeadingOf(a: seq<Item>, rest: seq<Item>, g: Group, max: nat)
    requires forall i :: 0 <= i < |a| ==> GroupOf(a[i]) == g
    requires rest != [] ==> GroupOf(rest[0]) != g
    ensures Leading(a + rest, g, max) == Min(|a|, max)
  {
    if a == [] {
      assert a + rest == rest;
    } else if max != 0 {
      LeadingOf(a[1..], rest, g, max - 1);
      assert (a + rest)[1..] == a[1..] + rest;
    }
  }

  ghost predicate OfGroup(s: seq<Item>, g: Group) {
    forall i :: 0 <= i < |s| ==> GroupOf(s[i]) == g
  }

  lemma {:induction false} CutBatch(a: seq<Item>, rest: seq<Item>, g: Group, max: positive, n: nat)
    requires a != [] && OfGroup(a, g) && (rest != [] ==> GroupOf(rest[0]) != g) && n == Min(|a|, max)
    ensures Cut(a + rest, max) == [a[..n]] + Cut(a[n..] + rest, max)
  {
    LeadingOf(a, rest, g, max);
    assert (a + rest)[0] == a[0];
    assert (a + rest)[..n] == a[..n] && (a + rest)[n..] == a[n..] + rest;
  }

  lemma {:induction false} CutAt(items: seq<Item>, rest: seq<Item>, g: Group, max: positive, from: nat, to: nat)
    requires OfGroup(items, g) && (rest != [] ==> GroupOf(rest[0]) != g)
    requires from < |items| && to == Min(|items|, from + max)
    ensures Cut(items[from..] + rest, max) == [items[from..to]] + Cut(items[to..] + rest, max)
  {
    var a := items[from..];
    CutBatch(a, rest, g, max, to - from);
    assert a[..to - from] == items[from..to] && a[to - from..] == items[to..];
  }

  method TopPriority(items: seq<Item>) returns (p: Priority)
    ensures p == Top(items)
  {
    p := Low;
    for i := 0 to |items|
      invariant p == Top(items[..i])
    {
      assert items[..i + 1][..i] == items[..i];
      if Rank(p) < Rank(items[i].priority) {
        p := items[i].priority;
      }
    }
    assert items[..|items|] == items;
  }

  /** `jobs` are the numbered jobs of the batches `built`. */
  ghost predicate Numbered(jobs: seq<Job>, built: seq<seq<Item>>) {
    && |jobs| == |built| < UINT64_MAX
    && forall i :: 0 <= i < |built| ==> built[i] != [] && jobs[i] == JobFor(i, built[i])
  }

  function JobFor(i: nat, batch: seq<Item>): Job
    requires batch != [] && i < UINT64_MAX
  {
    Job(i + 1, GroupOf(batch[0]), Top(batch), batch)
  }

  /** The jobs made so far, and the batches still to come, make up `all`. */
  ghost predicate PartWay(jobs: seq<Job>, done: seq<seq<Item>>, left: seq<seq<Item>>, all: seq<seq<Item>>) {
    Numbered(jobs, done) && all == done + left
  }

  lemma {:induction false} PartWayStep(jobs: seq<Job>, done: seq<seq<Item>>, left: seq<seq<Item>>, all: seq<seq<Item>>)
    requires PartWay(jobs, done, left, all) && left != [] && left[0] != [] && |jobs| + 1 < UINT64_MAX
    ensures PartWay(jobs + [JobFor(|jobs|, left[0])], done + [left[0]], left[1..], all)
  {}

  /** The loop over one group: cuts its items into jobs, or stops when there are too many. */
  method CutGroup(items: seq<Item>, g: Group, max: positive, maxJobs: positive, before: seq<Job>,
                  ghost built: seq<seq<Item>>, ghost rest: seq<Item>, ghost all: seq<seq<Item>>)
    returns (ok: bool, jobs: seq<Job>, ghost done: seq<seq<Item>>)
    requires PartWay(before, built, Cut(items + rest, max), all) && |built| <= maxJobs
    requires OfGroup(items, g) && (rest != [] ==> GroupOf(rest[0]) != g)
    ensures ok ==> PartWay(jobs, done, Cut(rest, max), all) && |jobs| <= maxJobs
    ensures !ok ==> |all| > Min(maxJobs, UINT64_MAX - 1)
  {
    jobs, done := before, built;
    var offset := 0;
    ghost var left := Cut(items + rest, max);
    assert items[offset..] == items;
    while offset < |items|
      invariant 0 <= offset <= |items| && |jobs| <= maxJobs
      invariant left == Cut(items[offset..] + rest, max) && PartWay(jobs, done, left, all)
    {
      var end := Min(|items|, offset + max);
      CutAt(items, rest, g, max, offset, end);
      if |jobs| == maxJobs || |jobs| + 1 == UINT64_MAX {
        return false, jobs, done;
      }
      PartWayStep(jobs, done, left, all);
      var batch := items[offset..end];
      var p := TopPriority(batch);
      assert batch == left[0] && GroupOf(batch[0]) == g;
      jobs := jobs + [Job(|jobs| + 1, g, p, batch)];
      done := done + [batch];
      offset := end;
      left := left[1..];
    }
    assert items[offset..] + rest == rest;
    ok := true;
  }

  /** The groups still to be visited. */
  ghost predicate Ready(gs: seq<Group>, groups: Groups, s: seq<Item>) {
    && Sorted(gs, GroupLeq) && Distinct(gs) && (forall g :: g in gs ==> g in groups)
    && GroupedAs(groups, s) && DistinctKeys(s)
  }

  /** What `CutGroup` needs to know of the group visited first and of what follows. */
  lemma {:induction false} GroupIsCut(gs: seq<Group>, groups: Groups, s: seq<Item>)
    requires gs != [] && Ready(gs, groups, s)
    ensures Ready(gs[1..], groups, s) && OfGroup(Sort(groups[gs[0]], ItemLeq), gs[0])
    ensures Laid(gs[1..], groups) != [] ==> GroupOf(Laid(gs[1..], groups)[0]) != gs[0]
    ensures Laid(gs, groups) == Sort(groups[gs[0]], ItemLeq) + Laid(gs[1..], groups)
  {
    var d := set x | x in s;
    DistinctIdentify(s, d);
    assert groups[gs[0]] == Filter(s, gs[0]);
    BlockIs(s, gs[0], d, Sort(groups[gs[0]], ItemLeq));
    LaidSorted(gs[1..], groups, s, d);
  }

  /** The second loop: the jobs of all groups. */
  method CutGroups(gs: seq<Group>, groups: Groups, max: positive, maxJobs: positive, ghost s: seq<Item>)
    returns (ok: bool, jobs: seq<Job>)
    requires Ready(gs, groups, s)
    ensures ok <==> |Cut(Laid(gs, groups), max)| <= Min(maxJobs, UINT64_MAX - 1)
    ensures ok ==> Numbered(jobs, Cut(Laid(gs, groups), max))
  {
    jobs := [];
    ghost var built: seq<seq<Item>> := [];
    ghost var all := Cut(Laid(gs, groups), max);
    var left := gs;
    while left != []
      invariant |jobs| <= maxJobs && Ready(left, groups, s)
      invariant PartWay(jobs, built, Cut(Laid(left, groups), max), all)
      decreases |left|
    {
      GroupIsCut(left, groups, s);
      ok, jobs, built := CutGroup(Sort(groups[left[0]], ItemLeq), left[0], max, maxJobs, jobs, built,
                                  Laid(left[1..], groups), all);
      if !ok {
        return;
      }
      left := left[1..];
    }
    assert all == built;
    ok := true;
  }

  /** `applyWatchSnapshot` up to publication: succeeds exactly when every watch can be compiled, no
      key repeats and the batches are not too many, and then makes exactly one job per batch. */
  method Compile(es: seq<Effective>, data: DataCatalog, max: positive, maxJobs: positive)
    returns (status: Code, jobs: seq<Job>)
    ensures status == if !Fine(es, data) then InvalidArgument
                      else if |Batches(es, max)| > Min(maxJobs, UINT64_MAX - 1) then ResourceExhausted
                      else Success
    ensures status.Success? ==> Numbered(jobs, Batches(es, max))
  {
    jobs := [];
    var ok, groups := GroupWatches(es, data);
    if !ok {
      return InvalidArgument, jobs;
    }
    var gs := VisitOrder(groups.Keys);
    LaidIsSort(gs, groups, ItemsOf(es));
    ok, jobs := CutGroups(gs, groups, max, maxJobs, ItemsOf(es));
    status := if ok then Success else ResourceExhausted;
  }

  // ----- What a plan promises -----

  lemma {:induction false} InFlatten(batches: seq<seq<Item>>, i: nat, k: nat)
    requires i < |batches| && k < |batches[i]|
    ensures batches[i][k] in Flatten(batches)
  {
    if i != 0 {
      InFlatten(batches[1..], i - 1, k);
    }
  }

  lemma {:induction false} TopIsMost(items: seq<Item>, k: nat)
    requires k < |items|
    ensures Rank(items[k].priority) <= Rank(Top(items))
    ensures exists j :: 0 <= j < |items| && items[j].priority == Top(items)
  {
    var n := |items| - 1;
    if n == 0 {
      assert items[..n] == [];
      assert items[0].priority == Top(items);
    } else {
      TopIsMost(items[..n], if k < n then k else 0);
      var j :| 0 <= j < n && items[..n][j].priority == Top(items[..n]);
      assert items[j].priority == Top(items) || items[n].priority == Top(items);
    }
  }

  ghost predicate GoodJob(job: Job, max: positive) {
    && 0 < |job.items| <= max && 0 < job.group.period
    && (forall k :: 0 <= k < |job.items| ==>
                      && GroupOf(job.items[k]) == job.group && job.group.period <= job.items[k].freshness
                      && Rank(job.items[k].priority) <= Rank(job.priority))
    && exists k :: 0 <= k < |job.items| && job.items[k].priority == job.priority
  }

  /** Every job of a plan is homogeneous, has between one and `max` items and a positive period, and
      runs at the highest of its items' priorities; jobs are numbered from one. */
  lemma {:induction false} JobsAreGood(es: seq<Effective>, data: DataCatalog, max: positive, jobs: seq<Job>, i: nat)
    requires AllCompilable(es, data) && Numbered(jobs, Batches(es, max)) && i < |jobs|
    ensures GoodJob(jobs[i], max) && jobs[i].id == i + 1
  {
    var batches := Batches(es, max);
    BatchesPartition(es, max);
    assert batches[i] in batches;
    forall k | 0 <= k < |jobs[i].items|
      ensures var x := jobs[i].items[k]; 0 < x.period <= x.freshness && Rank(x.priority) <= Rank(jobs[i].priority)
    {
      InFlatten(batches, i, k);
      TopIsMost(batches[i], k);
      FromWatch(es, data, batches, batches[i][k]);
    }
    TopIsMost(batches[i], 0);
  }

  lemma {:induction false} FromWatch(es: seq<Effective>, data: DataCatalog, batches: seq<seq<Item>>, x: Item)
    requires AllCompilable(es, data) && x in Flatten(batches) && multiset(Flatten(batches)) == multiset(ItemsOf(es))
    ensures 0 < x.period <= x.freshness
    ensures Planned(x, data) && exists j :: 0 <= j < |es| && Serves(x, es[j])
  {
    assert x in multiset(Flatten(batches));
    assert x in ItemsOf(es);
    var j :| 0 <= j < |ItemsOf(es)| && ItemsOf(es)[j] == x;
    assert Serves(x, es[j]);
  }

  /** An item may be read: it has a provider, and its data is known to the active catalog. */
  predicate Planned(x: Item, data: DataCatalog) {
    && x.key.provider != "" && x.key.dataId != 0
    && (x.key.kind.MetricData? ==> x.key.dataId in data.described)
    && (x.key.kind.HeartbeatData? ==> data.heartbeat == Some(x.key.dataId))
  }

  predicate Serves(x: Item, e: Effective) {
    (x.key, x.period, x.freshness, x.priority, x.watches) == (e.key, e.period, e.freshness, e.priority, e.watches)
  }

  /** Every item of a job has the provider, period, kind and isolation class of the job, is known to the catalog and
      carries what some effective watch asks for. */
  lemma {:induction false} ItemsBelong(es: seq<Effective>, data: DataCatalog, max: positive, jobs: seq<Job>,
                                       i: nat, k: nat)
    requires AllCompilable(es, data) && Numbered(jobs, Batches(es, max)) && i < |jobs| && k < |jobs[i].items|
    ensures var x, g := jobs[i].items[k], jobs[i].group;
            && x.key.provider == g.provider && x.period == g.period && x.key.kind == g.kind
            && x.key.isolation == g.isolation && Planned(x, data)
            && exists j :: 0 <= j < |es| && Serves(x, es[j])
  {
    var batches := Batches(es, max);
    BatchesPartition(es, max);
    JobsAreGood(es, data, max, jobs, i);
    InFlatten(batches, i, k);
    FromWatch(es, data, batches, batches[i][k]);
  }

  lemma {:induction false} FlattenHas(batches: seq<seq<Item>>, x: Item) returns (i: nat, k: nat)
    requires x in Flatten(batches)
    ensures i < |batches| && k < |batches[i]| && batches[i][k] == x
  {
    if x in batches[0] {
      i := 0;
      k :| k < |batches[0]| && batches[0][k] == x;
    } else {
      i, k := FlattenHas(batches[1..], x);
      i := i + 1;
    }
  }

  /** No effective watch is left without a job. */
  lemma {:induction false} EveryWatchIsServed(es: seq<Effective>, max: positive, jobs: seq<Job>, j: nat)
    returns (i: nat, k: nat)
    requires Numbered(jobs, Batches(es, max)) && j < |es|
    ensures i < |jobs| && k < |jobs[i].items| && Serves(jobs[i].items[k], es[j])
  {
    BatchesPartition(es, max);
    assert ItemsOf(es)[j] in multiset(ItemsOf(es));
    i, k := FlattenHas(Batches(es, max), ItemsOf(es)[j]);
  }
}
