/** The stateful part of `WatchManager`: creating, removing, publishing and crediting watches. */
module WatchManager {
  import opened Base
  import opened Collections
  import opened Domain
  import opened SampleCredit
  import opened Watch

  datatype Limits = Limits(maxLogical: positive, maxEffective: positive, maxMetrics: positive)

  datatype Descriptor = Descriptor(polled: bool, minPeriod: uint64)

  datatype HeartbeatEntry = HeartbeatEntry(dataId: Option<uint32>, freshness: uint64)

  datatype CatalogInfo = CatalogInfo(
    generation: uint64,
    unsupported: bool,
    entity: Option<EntityRef>,
    provider: string,
    descriptors: map<uint32, Descriptor>,
    supported: map<uint32, bool>,
    heartbeat: HeartbeatEntry,
    heartbeatSupported: bool)

  /** What the last published snapshot was built from, besides the logical watches. */
  datatype Basis = Basis(catalog: Option<CatalogInfo>, baseline: Option<Effective>)

  /** Everything the manager holds, the instants credited to each live watch, and the basis of the
      snapshot.  The snapshot's catalog generation is that of its basis. */
  datatype Contents = Contents(
    catalog: Option<CatalogInfo>,
    logical: Watches,
    counts: map<uint64, uint64>,
    times: map<uint64, int>,
    baseline: Option<Effective>,
    nextId: uint64,
    version: uint64,
    effective: EffectiveMap,
    credited: map<uint64, seq<int>>,
    basis: Basis)

  function ProviderOf(c: Option<CatalogInfo>): string { if c.Some? then c.value.provider else "" }

  function BookOf(c: Contents, id: uint64): Book {
    if id !in c.logical then Gone
    else
      Live(if id in c.counts && id in c.times then Some(Tally(c.counts[id], c.times[id])) else None,
           if id in c.credited then c.credited[id] else [])
  }

  // ----- The invariant -----

  ghost predicate BooksInv(c: Contents) {
    && CountersOfLive(c)
    && forall id :: id in c.logical ==> BookInv(c.logical[id].requirement.sampleLimit, BookOf(c, id))
  }

  ghost predicate WellFormedWatch(lim: Limits, w: LogicalWatch) {
    && ValidTiming(w.requirement.period, w.requirement.freshness, w.requirement.retention)
    && Distinct(w.requirement.metrics) && 0 < |w.requirement.metrics| <= lim.maxMetrics
    && forall m :: m in w.requirement.metrics ==> m != 0
  }

  ghost predicate WatchesInv(lim: Limits, c: Contents) {
    && |c.logical| <= lim.maxLogical && |c.effective| <= lim.maxEffective
    && forall id :: id in c.logical ==>
                      c.logical[id].id == id && id < c.nextId && WellFormedWatch(lim, c.logical[id])
  }

  predicate BaselineOk(b: Option<Effective>) {
    b.Some? ==>
      && b.value.key.kind.HeartbeatData? && b.value.watches == []
      && ValidTiming(b.value.period, b.value.freshness, b.value.retention)
  }

  predicate Supports(k: CatalogInfo, m: uint32) {
    m in k.descriptors && k.descriptors[m].polled && m in k.supported && k.supported[m]
  }

  /** A watch that a catalog can serve. */
  predicate Serves(k: Option<CatalogInfo>, w: LogicalWatch) {
    && k.Some? && k.value.entity == Some(w.requirement.entity) && w.requirement.generation == k.value.generation
    && forall m :: m in w.requirement.metrics ==> Supports(k.value, m)
  }

  /** The one key under which a catalog's heartbeat is collected. */
  function BaselineKey(k: CatalogInfo): EffectiveKey
    requires k.entity.Some? && k.heartbeat.dataId.Some?
  {
    EffectiveKey(k.provider, k.entity.value, HeartbeatData, k.heartbeat.dataId.value, 0)
  }

  /** A heartbeat baseline that a catalog can serve. */
  predicate BaselineServed(k: Option<CatalogInfo>, b: Option<Effective>) {
    b.Some? ==>
      && k.Some? && k.value.entity.Some? && k.value.heartbeat.dataId.Some? && k.value.heartbeatSupported
      && b.value.key == BaselineKey(k.value)
  }

  /** The snapshot is what a catalog and a baseline make of the live watches. */
  ghost predicate Agrees(c: Contents, k: Option<CatalogInfo>, b: Option<Effective>) {
    && (forall id :: id in c.logical ==> Serves(k, c.logical[id]))
    && EffectiveOk(ProviderOf(k), c.logical, b, c.effective)
    && BaselineOk(b) && BaselineServed(k, b)
  }

  /** The snapshot always agrees with its basis. */
  ghost predicate Coherent(c: Contents) { Agrees(c, c.basis.catalog, c.basis.baseline) }

  /** The basis is the active catalog and baseline.  An activation at the very last snapshot version
      fails after both have been replaced, so only there can they differ. */
  predicate Current(c: Contents) { c.basis == Basis(c.catalog, c.baseline) }

  /** Even then the active catalog is no older than that of the basis. */
  predicate BasisIsNoNewer(c: Contents) {
    c.basis.catalog.Some? ==> c.catalog.Some? && c.basis.catalog.value.generation <= c.catalog.value.generation
  }

  ghost predicate ManagerInv(lim: Limits, c: Contents) {
    && BooksInv(c) && WatchesInv(lim, c) && BaselineOk(c.baseline) && Coherent(c) && BasisIsNoNewer(c)
    && (c.version < UINT64_MAX ==> Current(c))
  }

  /** In every state each effective watch of the snapshot has its timing in order. */
  lemma {:induction false} EffectiveTiming(lim: Limits, c: Contents, key: EffectiveKey)
    requires ManagerInv(lim, c) && key in c.effective
    ensures ValidTiming(c.effective[key].period, c.effective[key].freshness, c.effective[key].retention)
    ensures c.effective[key].key == key
  {
    var provider := ProviderOf(c.basis.catalog);
    var ids := Naming(provider, c.logical, AllPairs(c.logical), key);
    assert CoversKey(provider, c.logical, AllPairs(c.logical), c.basis.baseline, c.effective, key);
    if ids != {} {
      forall id | id in ids
        ensures ValidTiming(Timing(c.logical, id).period, Timing(c.logical, id).freshness,
                            Timing(c.logical, id).retention)
      {
        assert WellFormedWatch(lim, c.logical[id]);
      }
      MergedTiming(c.logical, ids, key, c.effective[key]);
    }
  }

  // ----- Publishing -----

  function Restrict<T>(m: map<uint64, T>, w: Watches): (r: map<uint64, T>)
    ensures r.Keys == m.Keys * w.Keys && forall id :: id in r ==> r[id] == m[id]
  {
    map id | id in m && id in w :: m[id]
  }

  /** The checks of `publish`, in their order. */
  function PublishStatus(lim: Limits, watches: nat, version: uint64, effective: nat): Code {
    if lim.maxLogical < watches then ResourceExhausted
    else if version == UINT64_MAX then Internal
    else if lim.maxEffective < effective then ResourceExhausted
    else Success
  }

  /** What a successful publication of `next` leaves, given the merged watches. */
  function Published(c: Contents, next: Watches, eff: EffectiveMap): Contents
    requires c.version < UINT64_MAX
  {
    c.(logical := next, counts := Restrict(c.counts, next), times := Restrict(c.times, next),
       credited := Restrict(c.credited, next), version := c.version + 1, effective := eff,
       basis := Basis(c.catalog, c.baseline))
  }

  /** Whether one more watch of some metrics can be published, told from the state before. */
  function AddStatus(lim: Limits, c: Contents, entity: EntityRef, ms: set<uint32>): (status: Code)
    ensures !status.PartialResult?
  {
    PublishStatus(lim, |c.logical| + 1, c.version, |c.effective.Keys + KeysFor(ProviderOf(c.catalog), entity, ms)|)
  }

  /** Only live watches have counters. */
  ghost predicate CountersOfLive(c: Contents) {
    c.counts.Keys == c.times.Keys <= c.logical.Keys && c.credited.Keys <= c.logical.Keys
  }

  lemma {:induction false} PublishedBook(c: Contents, next: Watches, eff: EffectiveMap, n: uint64, id: uint64)
    requires CountersOfLive(c) && c.version < UINT64_MAX && id in next
    ensures BookOf(Published(c, next, eff).(nextId := n), id) ==
            if id in c.logical then BookOf(c, id) else Live(None, [])
  {}

  lemma {:induction false} PublishedBooks(c: Contents, next: Watches, eff: EffectiveMap, n: uint64)
    requires BooksInv(c) && c.version < UINT64_MAX
    requires forall id :: id in next && id in c.logical ==> next[id] == c.logical[id]
    ensures BooksInv(Published(c, next, eff).(nextId := n))
  {
    var p := Published(c, next, eff).(nextId := n);
    forall id | id in next ensures BookInv(next[id].requirement.sampleLimit, BookOf(p, id)) {
      PublishedBook(c, next, eff, n, id);
      FreshBook(next[id].requirement.sampleLimit);
    }
  }

  lemma {:induction false} FreshBook(limit: uint64)
    ensures BookInv(limit, Live(None, []))
  {}

  /** Some watch names the metric of a key. */
  ghost predicate Named(provider: string, w: Watches, key: EffectiveKey) {
    exists id :: id in w && key.dataId in w[id].requirement.metrics && KeyFor(provider, w[id], key.dataId) == key
  }

  /** Which keys the effective watches have. */
  lemma {:induction false} KeyIsNamed(provider: string, w: Watches, b: Option<Effective>, e: EffectiveMap,
                                      key: EffectiveKey)
    requires EffectiveOk(provider, w, b, e)
    ensures key in e <==> Named(provider, w, key) || (b.Some? && key == b.value.key)
  {
    assert CoversKey(provider, w, AllPairs(w), b, e, key);
    var ids := Naming(provider, w, AllPairs(w), key);
    if Named(provider, w, key) {
      var id :| id in w && key.dataId in w[id].requirement.metrics && KeyFor(provider, w[id], key.dataId) == key;
      assert (id, key.dataId) in AllPairs(w);
      assert id in ids;
    }
    if id :| id in ids {
      var p :| p in AllPairs(w) && p.0 in w && KeyFor(provider, w[p.0], p.1) == key && p.0 == id;
    }
  }

  /** Fewer watches never need more effective watches. */
  lemma {:induction false} FewerWatchesFewerKeys(provider: string, w: Watches, v: Watches, b: Option<Effective>,
                                                 e: EffectiveMap, f: EffectiveMap)
    requires Fewer(w, v) && EffectiveOk(provider, w, b, e) && EffectiveOk(provider, v, b, f)
    ensures f.Keys <= e.Keys && |f| <= |e|
  {
    forall key | key in f ensures key in e {
      KeyIsNamed(provider, w, b, e, key);
      KeyIsNamed(provider, v, b, f, key);
    }
    SubsetSize(f.Keys, e.Keys);
    assert |f| == |f.Keys| && |e| == |e.Keys|;
  }

  /** The keys of some metrics of an entity. */
  function KeysFor(provider: string, entity: EntityRef, ms: set<uint32>): set<EffectiveKey> {
    set m | m in ms :: EffectiveKey(provider, entity, MetricData, m, 0)
  }

  function MetricsOf(w: LogicalWatch): set<uint32> { set m | m in w.requirement.metrics }

  /** One more watch adds the keys of its metrics. */
  lemma {:induction false} MoreWatchesMoreKeys(provider: string, w: Watches, x: LogicalWatch, b: Option<Effective>,
                                               e: EffectiveMap, f: EffectiveMap)
    requires x.id !in w && EffectiveOk(provider, w, b, e) && EffectiveOk(provider, w[x.id := x], b, f)
    ensures f.Keys == e.Keys + KeysFor(provider, x.requirement.entity, MetricsOf(x))
  {
    var v, extra := w[x.id := x], KeysFor(provider, x.requirement.entity, MetricsOf(x));
    forall key ensures key in f <==> key in e || key in extra {
      KeyIsNamed(provider, w, b, e, key);
      KeyIsNamed(provider, v, b, f, key);
      MoreIsNamed(provider, w, x, key);
    }
  }

  lemma {:induction false} MoreIsNamed(provider: string, w: Watches, x: LogicalWatch, key: EffectiveKey)
    requires x.id !in w
    ensures Named(provider, w[x.id := x], key) <==>
            Named(provider, w, key) || key in KeysFor(provider, x.requirement.entity, MetricsOf(x))
  {
    var v := w[x.id := x];
    if Named(provider, w, key) {
      var id :| id in w && key.dataId in w[id].requirement.metrics && KeyFor(provider, w[id], key.dataId) == key;
      assert v[id] == w[id];
    }
    if key in KeysFor(provider, x.requirement.entity, MetricsOf(x)) {
      assert key.dataId in v[x.id].requirement.metrics && KeyFor(provider, v[x.id], key.dataId) == key;
    }
    if Named(provider, v, key) {
      var id :| id in v && key.dataId in v[id].requirement.metrics && KeyFor(provider, v[id], key.dataId) == key;
      assert id != x.id ==> v[id] == w[id];
      assert id == x.id ==> key.dataId in MetricsOf(x);
    }
  }

  /** A baseline adds its own key, and one of the same key replaces it. */
  lemma {:induction false} RebaseKeys(provider: string, w: Watches, b: Option<Effective>, next: Option<Effective>,
                                      e: EffectiveMap, f: EffectiveMap)
    requires EffectiveOk(provider, w, b, e) && EffectiveOk(provider, w, next, f)
    requires b.Some? && next.Some? ==> b.value.key == next.value.key
    ensures next.Some? ==> f.Keys == e.Keys + {next.value.key}
    ensures next.None? ==> |f| <= |e|
  {
    forall key
      ensures (key in f) ==
              if next.Some? then key in e || key == next.value.key else key in e && Named(provider, w, key)
    {
      KeyIsNamed(provider, w, b, e, key);
      KeyIsNamed(provider, w, next, f, key);
    }
    if next.None? {
      SubsetSize(f.Keys, e.Keys);
      assert |f| == |f.Keys| && |e| == |e.Keys|;
    }
  }

  /** `v` is some of the watches of `w`, unchanged. */
  ghost predicate Fewer(w: Watches, v: Watches) {
    v.Keys <= w.Keys && forall id :: id in v ==> v[id] == w[id]
  }

  lemma {:induction false} FewerStillFine(lim: Limits, c: Contents, next: Watches)
    requires WatchesInv(lim, c) && Fewer(c.logical, next)
    ensures DistinctMetrics(next) && |next| <= lim.maxLogical
  {
    SubsetSize(next.Keys, c.logical.Keys);
    assert |next| == |next.Keys| && |c.logical| == |c.logical.Keys|;
    forall id | id in next ensures Distinct(next[id].requirement.metrics) {
      assert WellFormedWatch(lim, c.logical[id]);
    }
  }

  lemma {:induction false} FewerKeepsInv(lim: Limits, c: Contents, next: Watches, built: EffectiveMap)
    requires ManagerInv(lim, c) && c.version < UINT64_MAX && Fewer(c.logical, next)
    requires EffectiveOk(ProviderOf(c.catalog), next, c.baseline, built)
    ensures |built| <= lim.maxEffective && ManagerInv(lim, Published(c, next, built))
  {
    assert Current(c);
    FewerStillFine(lim, c, next);
    FewerWatchesFewerKeys(ProviderOf(c.catalog), c.logical, next, c.baseline, c.effective, built);
    PublishedBooks(c, next, built, c.nextId);
    assert Published(c, next, built).(nextId := c.nextId) == Published(c, next, built);
  }

  lemma {:induction false} AddStillFine(lim: Limits, c: Contents, w: LogicalWatch)
    requires WatchesInv(lim, c) && WellFormedWatch(lim, w)
    ensures DistinctMetrics(c.logical[w.id := w])
  {
    var next := c.logical[w.id := w];
    forall id | id in next ensures Distinct(next[id].requirement.metrics) {
      assert id in c.logical ==> WellFormedWatch(lim, c.logical[id]);
    }
  }

  /** What a successful `create` leaves. */
  function Added(c: Contents, w: LogicalWatch, built: EffectiveMap): Contents
    requires c.version < UINT64_MAX && c.nextId < UINT64_MAX
  {
    Published(c, c.logical[w.id := w], built).(nextId := c.nextId + 1)
  }

  lemma {:induction false} AddKeepsWatches(lim: Limits, c: Contents, w: LogicalWatch, built: EffectiveMap)
    requires WatchesInv(lim, c) && c.version < UINT64_MAX && w.id == c.nextId < UINT64_MAX && WellFormedWatch(lim, w)
    requires |c.logical[w.id := w]| <= lim.maxLogical && |built| <= lim.maxEffective
    ensures WatchesInv(lim, Added(c, w, built)) && w.id !in c.logical
  {}

  lemma {:induction false} AddKeepsCoherent(c: Contents, w: LogicalWatch, built: EffectiveMap)
    requires Coherent(c) && Current(c) && c.version < UINT64_MAX && c.nextId < UINT64_MAX && Serves(c.catalog, w)
    requires EffectiveOk(ProviderOf(c.catalog), c.logical[w.id := w], c.baseline, built)
    ensures Coherent(Added(c, w, built)) && Current(Added(c, w, built))
  {
    var a := Added(c, w, built);
    forall id | id in a.logical ensures Serves(a.catalog, a.logical[id]) {
      assert id in c.logical ==> Serves(c.catalog, c.logical[id]);
    }
  }

  lemma {:induction false} AddKeepsBooks(c: Contents, w: LogicalWatch, built: EffectiveMap)
    requires BooksInv(c) && c.version < UINT64_MAX && w.id == c.nextId < UINT64_MAX && w.id !in c.logical
    ensures BooksInv(Added(c, w, built))
  {
    PublishedBooks(c, c.logical[w.id := w], built, c.nextId + 1);
  }

  lemma {:induction false} AddKeepsInv(lim: Limits, c: Contents, w: LogicalWatch, built: EffectiveMap)
    requires ManagerInv(lim, c) && c.version < UINT64_MAX && w.id == c.nextId < UINT64_MAX
    requires WellFormedWatch(lim, w) && Serves(c.catalog, w)
    requires EffectiveOk(ProviderOf(c.catalog), c.logical[w.id := w], c.baseline, built)
    requires |c.logical[w.id := w]| <= lim.maxLogical && |built| <= lim.maxEffective
    ensures ManagerInv(lim, Added(c, w, built))
  {
    AddKeepsWatches(lim, c, w, built);
    AddKeepsBooks(c, w, built);
    AddKeepsCoherent(c, w, built);
  }

  /** The sizes that publishing one more watch is checked with. */
  lemma {:induction false} AddedSize(lim: Limits, c: Contents, w: LogicalWatch, built: EffectiveMap)
    requires ManagerInv(lim, c) && w.id == c.nextId
    requires EffectiveOk(ProviderOf(c.catalog), c.logical[w.id := w], c.baseline, built)
    ensures PublishStatus(lim, |c.logical[w.id := w]|, c.version, |built|) ==
            AddStatus(lim, c, w.requirement.entity, MetricsOf(w))
  {
    assert w.id !in c.logical;
    assert |c.logical[w.id := w]| == |c.logical| + 1;
    if c.version < UINT64_MAX {
      MoreWatchesMoreKeys(ProviderOf(c.catalog), c.logical, w, c.baseline, c.effective, built);
      assert |built| == |built.Keys|;
    }
  }

  function OthersOf(w: Watches, owner: Owner): Watches {
    map id | id in w && w[id].owner != owner :: w[id]
  }

  lemma {:induction false} OthersSize(w: Watches, owner: Owner)
    ensures |OthersOf(w, owner)| == |w| <==> forall id :: id in w ==> w[id].owner != owner
  {
    var o := OthersOf(w, owner);
    SubsetSize(o.Keys, w.Keys);
    assert |o| == |o.Keys| && |w| == |w.Keys|;
    if |o| == |w| {
      assert forall id :: id in w ==> id in o.Keys;
    }
  }

  lemma {:induction false} NothingToMerge(provider: string, built: EffectiveMap)
    requires EffectiveOk(provider, map[], None, built)
    ensures built == map[]
  {
    forall key ensures key !in built {
      KeyIsNamed(provider, map[], None, built, key);
    }
  }

  lemma {:induction false} NothingMerged(provider: string)
    ensures EffectiveOk(provider, map[], None, map[])
  {
    forall key ensures CoversKey(provider, map[], AllPairs(map[]), None, map[], key) {
      assert Naming(provider, map[], AllPairs(map[]), key) == {};
    }
  }

  /** The watches that belong to a catalog's generation and entity. */
  function Retained(w: Watches, k: CatalogInfo): (r: Watches)
    ensures Fewer(w, r)
  {
    map id | id in w && k.entity == Some(w[id].requirement.entity) && w[id].requirement.generation == k.generation
      :: w[id]
  }

  predicate NewerCatalog(c: Contents, k: CatalogInfo) {
    k.generation != 0 && (c.catalog.Some? ==> c.catalog.value.generation < k.generation)
  }

  /** No watch survives a change of generation: each was made for the catalog it was created under. */
  lemma {:induction false} NothingRetained(lim: Limits, c: Contents, k: CatalogInfo)
    requires ManagerInv(lim, c) && NewerCatalog(c, k)
    ensures Retained(c.logical, k) == map[]
  {
    forall id ensures id !in Retained(c.logical, k) {
      if id in c.logical { assert Serves(c.basis.catalog, c.logical[id]); }
    }
  }

  function Switched(c: Contents, k: CatalogInfo): Contents { c.(catalog := Some(k), baseline := None) }

  lemma {:induction false} SwitchKeepsInv(lim: Limits, c: Contents, k: CatalogInfo, built: EffectiveMap)
    requires ManagerInv(lim, c) && NewerCatalog(c, k) && c.version < UINT64_MAX
    requires EffectiveOk(k.provider, Retained(c.logical, k), None, built)
    ensures Retained(c.logical, k) == map[] && built == map[]
    ensures ManagerInv(lim, Published(Switched(c, k), map[], map[]))
  {
    NothingRetained(lim, c, k);
    NothingToMerge(k.provider, built);
    NothingMerged(k.provider);
  }

  lemma {:induction false} SwitchAtTheEnd(lim: Limits, c: Contents, k: CatalogInfo)
    requires ManagerInv(lim, c) && NewerCatalog(c, k) && c.version == UINT64_MAX
    ensures ManagerInv(lim, Switched(c, k))
  {
    SameBooks(c, Switched(c, k));
  }

  /** Without watches a snapshot holds nothing but its baseline. */
  lemma {:induction false} BareSnapshot(c: Contents)
    requires Coherent(c) && c.logical == map[]
    ensures c.effective == map[] <==> c.basis.baseline.None?
  {
    if c.basis.baseline.Some? {
      KeyIsNamed(ProviderOf(c.basis.catalog), map[], c.basis.baseline, c.effective, c.basis.baseline.value.key);
    } else {
      NothingToMerge(ProviderOf(c.basis.catalog), c.effective);
    }
  }

  /** After an activation that failed, be it the first or a later one, the snapshot agrees with the new
      catalog if and only if it was empty. */
  lemma {:induction false} SwitchedAgreesIff(lim: Limits, c: Contents, k: CatalogInfo)
    requires ManagerInv(lim, c) && NewerCatalog(c, k)
    ensures Agrees(Switched(c, k), Some(k), None) <==> c.logical == map[] && c.effective == map[]
    ensures c.logical == map[] ==> (c.effective == map[] <==> c.basis.baseline.None?)
  {
    if c.logical != map[] {
      var id :| id in c.logical;
      assert Serves(c.basis.catalog, c.logical[id]) && !Serves(Some(k), c.logical[id]);
    } else {
      BareSnapshot(c);
      NothingMerged(k.provider);
      if EffectiveOk(k.provider, map[], None, c.effective) {
        NothingToMerge(k.provider, c.effective);
      }
    }
  }

  // A manager that has published its last version with a baseline and no watch.

  function SomeCatalog(generation: uint64): CatalogInfo {
    CatalogInfo(generation, false, Some(EntityRef(Device, 1, 1)), "provider", map[], map[],
                HeartbeatEntry(Some(7), 20), true)
  }

  function SomeBaseline(): Effective {
    Effective(BaselineKey(SomeCatalog(1)), 10, 20, 30, Heartbeat, [])
  }

  function LastSnapshot(): Contents {
    var k, b := SomeCatalog(1), SomeBaseline();
    Contents(Some(k), map[], map[], map[], Some(b), 1, UINT64_MAX, map[b.key := b], map[], Basis(Some(k), Some(b)))
  }

  lemma {:induction false} LastSnapshotIsFine(lim: Limits)
    ensures ManagerInv(lim, LastSnapshot())
  {
    var c := LastSnapshot();
    var b := SomeBaseline();
    assert c.effective.Keys == {b.key};
    forall key ensures CoversKey("provider", map[], AllPairs(map[]), Some(b), c.effective, key) {
      assert Naming("provider", map[], AllPairs(map[]), key) == {};
    }
  }

  /** There the next catalog is refused and yet active, with a snapshot that is not its own; and so is the
      one after it, although the manager has neither a watch nor a baseline any more. */
  lemma {:induction false} LastSwitchDisagrees(lim: Limits)
    ensures var c, d := LastSnapshot(), Switched(LastSnapshot(), SomeCatalog(2));
            && ManagerInv(lim, c) && NewerCatalog(c, SomeCatalog(2)) && !Agrees(d, Some(SomeCatalog(2)), None)
            && ManagerInv(lim, d) && NewerCatalog(d, SomeCatalog(3)) && d.logical == map[] && d.baseline.None?
            && !Agrees(Switched(d, SomeCatalog(3)), Some(SomeCatalog(3)), None)
  {
    var c, d := LastSnapshot(), Switched(LastSnapshot(), SomeCatalog(2));
    LastSnapshotIsFine(lim);
    assert SomeBaseline().key in c.effective;
    SwitchAtTheEnd(lim, c, SomeCatalog(2));
    SwitchedAgreesIff(lim, c, SomeCatalog(2));
    SwitchedAgreesIff(lim, d, SomeCatalog(3));
  }

  lemma {:induction false} RebaseKeepsInv(lim: Limits, c: Contents, next: Option<Effective>, built: EffectiveMap)
    requires ManagerInv(lim, c) && c.version < UINT64_MAX && BaselineOk(next) && BaselineServed(c.catalog, next)
    requires EffectiveOk(ProviderOf(c.catalog), c.logical, next, built) && |built| <= lim.maxEffective
    ensures ManagerInv(lim, Published(c.(baseline := next), c.logical, built))
  {
    var d := c.(baseline := next);
    var p := Published(d, c.logical, built);
    SameBooks(c, d);
    PublishedBooks(d, c.logical, built, c.nextId);
    assert p.(nextId := c.nextId) == p;
    assert WatchesInv(lim, p) && Coherent(p);
  }

  /** Whether the live watches can be published with another baseline, told from the state before. */
  function RebaseStatus(lim: Limits, c: Contents, next: Option<Effective>): Code {
    if c.version == UINT64_MAX then Internal
    else if next.Some? && lim.maxEffective < |c.effective.Keys + {next.value.key}| then ResourceExhausted
    else Success
  }

  lemma {:induction false} RebaseSize(lim: Limits, c: Contents, next: Option<Effective>, built: EffectiveMap)
    requires ManagerInv(lim, c) && BaselineServed(c.catalog, next)
    requires EffectiveOk(ProviderOf(c.catalog), c.logical, next, built)
    ensures PublishStatus(lim, |c.logical|, c.version, |built|) == RebaseStatus(lim, c, next)
  {
    if c.version < UINT64_MAX {
      RebaseKeys(ProviderOf(c.catalog), c.logical, c.baseline, next, c.effective, built);
      assert |built| == |built.Keys|;
    }
  }

  /** The status of `setFirmwareHeartbeatBaseline`, told from the state before it. */
  function BaselineStatus(lim: Limits, c: Contents, period: int, retention: int): Code {
    if c.catalog.None? then NotInitialized
    else
      var k := c.catalog.value;
      if k.unsupported || k.entity.None? || k.heartbeat.dataId.None? || !k.heartbeatSupported then Code.Unsupported
      else if INT64_MAX < k.heartbeat.freshness || !ValidTiming(period, k.heartbeat.freshness, retention) then
        InvalidArgument
      else if c.version == UINT64_MAX then Internal
      else if lim.maxEffective < |c.effective.Keys + {BaselineKey(k)}| then ResourceExhausted
      else Success
  }

  /** The books depend on the watches and their counters only. */
  lemma {:induction false} SameBooks(c: Contents, d: Contents)
    requires BooksInv(c) && d.logical == c.logical && d.counts == c.counts && d.times == c.times
    requires d.credited == c.credited
    ensures BooksInv(d)
  {
    forall id ensures BookOf(d, id) == BookOf(c, id) {}
  }

  /** Only the counters of `d` are new, and they are those of some state `e` whose books balance. */
  lemma {:induction false} NewCountersKeepInv(limits: Limits, c: Contents, d: Contents, e: Contents)
    requires ManagerInv(limits, c) && BooksInv(e) && d.logical == e.logical
    requires d == c.(counts := e.counts, times := e.times, credited := e.credited)
    ensures ManagerInv(limits, d)
  {
    SameBooks(e, d);
  }

  // ----- Crediting samples -----

  function LimitOf(c: Contents, id: uint64): uint64
    requires id in c.logical
  {
    c.logical[id].requirement.sampleLimit
  }

  /** One turn of the loop of `recordSamples`. */
  function RecordOne(c: Contents, id: uint64, r: Range): Contents
    requires ValidRange(r)
  {
    if id !in c.logical then c
    else
      var book := Credit(LimitOf(c, id), BookOf(c, id), r);
      if book.Gone? then
        c.(logical := c.logical - {id}, counts := c.counts - {id}, times := c.times - {id},
           credited := c.credited - {id})
      else if book == BookOf(c, id) || book.tally.None? then c
      else c.(counts := c.counts[id := book.tally.value.count], times := c.times[id := book.tally.value.last],
              credited := c.credited[id := book.credited])
  }

  function RecordAll(c: Contents, ids: seq<uint64>, r: Range): Contents
    requires ValidRange(r)
  {
    if ids == [] then c else RecordOne(RecordAll(c, ids[..|ids| - 1], r), ids[|ids| - 1], r)
  }

  lemma {:induction false} RecordOneBook(c: Contents, id: uint64, r: Range, x: uint64)
    requires CountersOfLive(c) && ValidRange(r)
    ensures CountersOfLive(RecordOne(c, id, r))
    ensures BookOf(RecordOne(c, id, r), x) ==
            if x == id && id in c.logical then Credit(LimitOf(c, id), BookOf(c, id), r) else BookOf(c, x)
  {}

  lemma {:induction false} RecordOneFewer(c: Contents, id: uint64, r: Range)
    requires ValidRange(r)
    ensures Fewer(c.logical, RecordOne(c, id, r).logical)
    ensures RecordOne(c, id, r) == c.(logical := RecordOne(c, id, r).logical, counts := RecordOne(c, id, r).counts,
                                      times := RecordOne(c, id, r).times, credited := RecordOne(c, id, r).credited)
  {}

  lemma {:induction false} RecordAllFewer(c: Contents, ids: seq<uint64>, r: Range)
    requires ValidRange(r)
    ensures var d := RecordAll(c, ids, r);
            && Fewer(c.logical, d.logical)
            && d == c.(logical := d.logical, counts := d.counts, times := d.times, credited := d.credited)
  {
    if ids != [] {
      RecordAllFewer(c, ids[..|ids| - 1], r);
      RecordOneFewer(RecordAll(c, ids[..|ids| - 1], r), ids[|ids| - 1], r);
    }
  }

  /** Each watch is credited on its own: a named one by the whole range, the others not at all. */
  lemma {:induction false} RecordAllBook(c: Contents, ids: seq<uint64>, r: Range, x: uint64)
    requires CountersOfLive(c) && ValidRange(r) && Distinct(ids)
    ensures CountersOfLive(RecordAll(c, ids, r))
    ensures BookOf(RecordAll(c, ids, r), x) ==
            if x in ids && x in c.logical then Credit(LimitOf(c, x), BookOf(c, x), r) else BookOf(c, x)
  {
    if ids != [] {
      var n := |ids| - 1;
      var d := RecordAll(c, ids[..n], r);
      RecordAllBook(c, ids[..n], r, x);
      RecordAllBook(c, ids[..n], r, ids[n]);
      RecordAllFewer(c, ids[..n], r);
      RecordOneBook(d, ids[n], r, x);
      assert ids[n] !in ids[..n] && ids == ids[..n] + [ids[n]];
    }
  }

  lemma {:induction false} RecordKeepsBooks(c: Contents, ids: seq<uint64>, r: Range)
    requires BooksInv(c) && ValidRange(r) && Distinct(ids)
    ensures BooksInv(RecordAll(c, ids, r))
  {
    var d := RecordAll(c, ids, r);
    RecordAllFewer(c, ids, r);
    RecordAllBook(c, ids, r, 0);
    forall x | x in d.logical ensures BookInv(LimitOf(d, x), BookOf(d, x)) {
      RecordAllBook(c, ids, r, x);
      CreditKeepsBook(LimitOf(c, x), BookOf(c, x), r);
    }
  }

  /** Recording a range at once or in two parts leaves the same watches, counts and times. */
  lemma {:induction false} RecordAllSplits(c: Contents, ids: seq<uint64>, r: Range, n: nat, x: uint64)
    requires BooksInv(c) && ValidRange(r) && Distinct(ids) && 0 < n < r.count
    ensures ValidRange(r.(count := n)) && ValidRange(Tail(r, n))
    ensures BookOf(RecordAll(RecordAll(c, ids, r.(count := n)), ids, Tail(r, n)), x) == BookOf(RecordAll(c, ids, r), x)
  {
    PartsAreValid(r, n);
    var half := RecordAll(c, ids, r.(count := n));
    RecordAllBook(c, ids, r, x);
    RecordAllBook(c, ids, r.(count := n), x);
    RecordAllFewer(c, ids, r.(count := n));
    RecordAllBook(half, ids, Tail(r, n), x);
    if x in ids && x in c.logical {
      RecordingSplits(LimitOf(c, x), BookOf(c, x), r, n);
    }
  }

  // ----- Validating a requirement -----

  /** The conversion of an unsigned 64-bit number to a signed one. */
  function AsInt64(n: uint64): int { if n <= INT64_MAX then n else n - UINT64_MAX - 1 }

  predicate SelectionOk(lim: Limits, r: Requirement) {
    0 < |r.metrics| <= lim.maxMetrics && ValidTiming(r.period, r.freshness, r.retention)
  }

  predicate BelowMinimum(k: CatalogInfo, r: Requirement, m: uint32) {
    Supports(k, m) && r.period < AsInt64(k.descriptors[m].minPeriod)
  }

  /** The supported ones among some metrics, in their order. */
  function Supported(k: CatalogInfo, ms: seq<uint32>): seq<uint32> {
    if ms == [] then []
    else
      var n := |ms| - 1;
      Supported(k, ms[..n]) + if Supports(k, ms[n]) then [ms[n]] else []
  }

  lemma {:induction false} SupportedIs(k: CatalogInfo, ms: seq<uint32>)
    ensures forall m :: m in Supported(k, ms) <==> m in ms && Supports(k, m)
    ensures |Supported(k, ms)| <= |ms| && (Distinct(ms) ==> Distinct(Supported(k, ms)))
  {
    if ms != [] {
      SupportedIs(k, ms[..|ms| - 1]);
      assert ms == ms[..|ms| - 1] + [ms[|ms| - 1]];
    }
  }

  lemma {:induction false} SupportedAll(k: CatalogInfo, ms: seq<uint32>)
    ensures |Supported(k, ms)| == |ms| <==> forall m :: m in ms ==> Supports(k, m)
  {
    if ms != [] {
      SupportedAll(k, ms[..|ms| - 1]);
      SupportedIs(k, ms[..|ms| - 1]);
      assert ms == ms[..|ms| - 1] + [ms[|ms| - 1]];
    }
  }

  /** When `validateRequirement` succeeds. */
  ghost predicate MetricsOk(k: CatalogInfo, r: Requirement, ms: seq<uint32>) {
    Distinct(ms) && forall m :: m in ms ==> m != 0 && !BelowMinimum(k, r, m)
  }

  ghost predicate RequirementOk(lim: Limits, k: Option<CatalogInfo>, r: Requirement) {
    && k.Some? && !k.value.unsupported && k.value.entity.Some?
    && r.generation == k.value.generation && Some(r.entity) == k.value.entity
    && SelectionOk(lim, r) && MetricsOk(k.value, r, r.metrics)
  }

  /** The refusal codes of `validateRequirement`, in the order of its checks. */
  ghost function RequirementStatus(lim: Limits, k: Option<CatalogInfo>, r: Requirement): (status: Code)
    ensures status.Success? <==> RequirementOk(lim, k, r)
  {
    if k.None? then NotInitialized
    else if k.value.unsupported || k.value.entity.None? then Code.Unsupported
    else if r.generation != k.value.generation || Some(r.entity) != k.value.entity then StaleGeneration
    else if !SelectionOk(lim, r) || !MetricsOk(k.value, r, r.metrics) then InvalidArgument
    else Success
  }

  lemma {:induction false} SupportedStep(k: CatalogInfo, ms: seq<uint32>, m: uint32)
    ensures Supported(k, ms + [m]) == Supported(k, ms) + if Supports(k, m) then [m] else []
  {
    assert (ms + [m])[..|ms|] == ms;
  }

  lemma {:induction false} MetricsStep(k: CatalogInfo, r: Requirement, s: seq<uint32>, m: uint32)
    requires MetricsOk(k, r, s)
    ensures MetricsOk(k, r, s + [m]) <==> m != 0 && m !in s && !BelowMinimum(k, r, m)
  {
    var t := s + [m];
    assert t[|s|] == m && m in t;
    if m in s {
      var a :| 0 <= a < |s| && s[a] == m;
      assert t[a] == t[|s|];
    }
  }

  lemma {:induction false} MetricsPrefix(k: CatalogInfo, r: Requirement, ms: seq<uint32>, i: nat)
    requires i <= |ms|
    ensures MetricsOk(k, r, ms) ==> MetricsOk(k, r, ms[..i])
  {
    assert forall m :: m in ms[..i] ==> m in ms;
  }

  /** The loop over the metrics of a requirement. */
  method CheckMetrics(k: CatalogInfo, r: Requirement) returns (ok: bool, supported: seq<uint32>)
    ensures ok <==> MetricsOk(k, r, r.metrics)
    ensures ok ==> supported == Supported(k, r.metrics)
  {
    supported := [];
    var unique: set<uint32> := {};
    ghost var done := [];
    for i := 0 to |r.metrics|
      invariant done == r.metrics[..i] && (forall x :: x in unique <==> x in done)
      invariant MetricsOk(k, r, done) && supported == Supported(k, done)
    {
      var m := r.metrics[i];
      MetricsStep(k, r, done, m);
      MetricsPrefix(k, r, r.metrics, i + 1);
      SupportedStep(k, done, m);
      done := done + [m];
      assert done == r.metrics[..i + 1];
      if m == 0 || m in unique {
        return false, supported;
      }
      unique := unique + {m};
      if Supports(k, m) {
        if r.period < AsInt64(k.descriptors[m].minPeriod) {
          return false, supported;
        }
        supported := supported + [m];
      }
    }
    assert r.metrics[..|r.metrics|] == r.metrics;
    ok := true;
  }

  method ValidateRequirement(lim: Limits, k: Option<CatalogInfo>, r: Requirement)
    returns (status: Code, supported: seq<uint32>)
    ensures status == RequirementStatus(lim, k, r)
    ensures status.Success? ==> supported == Supported(k.value, r.metrics)
  {
    supported := [];
    if k.None? {
      return NotInitialized, supported;
    }
    if k.value.unsupported || k.value.entity.None? {
      return Code.Unsupported, supported;
    }
    if r.generation != k.value.generation || Some(r.entity) != k.value.entity {
      return StaleGeneration, supported;
    }
    if !SelectionOk(lim, r) {
      return InvalidArgument, supported;
    }
    var ok;
    ok, supported := CheckMetrics(k.value, r);
    status := if ok then Success else InvalidArgument;
  }

  ghost predicate RisingMetrics(s: seq<uint32>) {
    forall i, j :: 0 <= i < j < |s| ==> s[i] < s[j]
  }

  method InsertMetric(r: seq<uint32>, x: uint32) returns (t: seq<uint32>)
    requires RisingMetrics(r) && x !in r
    ensures RisingMetrics(t) && |t| == |r| + 1 && forall m :: m in t <==> m in r || m == x
  {
    var p := 0;
    while p < |r| && r[p] < x
      invariant 0 <= p <= |r| && forall i :: 0 <= i < p ==> r[i] < x
    {
      p := p + 1;
    }
    InsertedRises(r, p, x);
    InsertedMembers(r, p, x);
    t := r[..p] + [x] + r[p..];
  }

  lemma {:induction false} InsertedRises(r: seq<uint32>, p: nat, x: uint32)
    requires RisingMetrics(r) && x !in r && p <= |r|
    requires (forall i :: 0 <= i < p ==> r[i] < x) && (p < |r| ==> x <= r[p])
    ensures RisingMetrics(r[..p] + [x] + r[p..])
  {
    var t := r[..p] + [x] + r[p..];
    forall i, j | 0 <= i < j < |t| ensures t[i] < t[j] {
      var a, b := if i < p then i else i - 1, if j < p then j else j - 1;
      assert i != p ==> t[i] == r[a];
      assert j != p ==> t[j] == r[b];
      assert i == p && p < b ==> r[p] < r[b];
      assert p < |r| ==> r[p] in r;
    }
  }

  lemma {:induction false} InsertedMembers(r: seq<uint32>, p: nat, x: uint32)
    requires p <= |r|
    ensures forall m :: m in r[..p] + [x] + r[p..] <==> m in r || m == x
  {
    assert r == r[..p] + r[p..];
  }

  lemma {:induction false} SupportedNone(k: CatalogInfo, ms: seq<uint32>)
    ensures Supported(k, ms) == [] <==> forall m :: m in ms ==> !Supports(k, m)
  {
    SupportedIs(k, ms);
    if Supported(k, ms) != [] {
      assert Supported(k, ms)[0] in Supported(k, ms);
    }
  }

  predicate ServesAll(k: CatalogInfo, ms: seq<uint32>) { forall m :: m in ms ==> Supports(k, m) }

  predicate ServesNone(k: CatalogInfo, ms: seq<uint32>) { forall m :: m in ms ==> !Supports(k, m) }

  /** What `create` checks before it publishes. */
  ghost function CreateRefusal(lim: Limits, c: Contents, owner: Owner, r: Requirement): Code {
    if owner.kind.Session? && owner.id == 0 then InvalidArgument
    else if c.nextId == UINT64_MAX then ResourceExhausted
    else if !RequirementOk(lim, c.catalog, r) then RequirementStatus(lim, c.catalog, r)
    else if ServesNone(c.catalog.value, r.metrics) || (!ServesAll(c.catalog.value, r.metrics) && !r.allowPartial) then
      Code.Unsupported
    else Success
  }

  /** The status of `create`, told from the state before it. */
  ghost function CreateStatus(lim: Limits, c: Contents, owner: Owner, r: Requirement): Code {
    var refusal := CreateRefusal(lim, c, owner, r);
    if !refusal.Success? || c.catalog.None? then refusal
    else
      var k := c.catalog.value;
      var status := AddStatus(lim, c, r.entity, set m | m in r.metrics && Supports(k, m));
      if status.Success? && !ServesAll(k, r.metrics) then PartialResult else status
  }

  lemma {:induction false} RefusalMeans(lim: Limits, c: Contents, owner: Owner, r: Requirement)
    ensures var refusal := CreateRefusal(lim, c, owner, r);
            && !refusal.PartialResult?
            && (refusal.Success? ==> c.catalog.Some? && (ServesAll(c.catalog.value, r.metrics) || r.allowPartial))
  {}

  lemma {:induction false} CreateStatusMeans(lim: Limits, c: Contents, owner: Owner, r: Requirement)
    ensures var status := CreateStatus(lim, c, owner, r);
            && (status.PartialResult? ==> r.allowPartial)
            && (status.Success? ==> c.catalog.Some? && ServesAll(c.catalog.value, r.metrics))
            && (Readable(status) ==> CreateRefusal(lim, c, owner, r).Success?)
  {
    RefusalMeans(lim, c, owner, r);
  }

  lemma {:induction false} StoredStatus(lim: Limits, c: Contents, owner: Owner, r: Requirement, w: LogicalWatch)
    requires StoredAs(lim, c.catalog, owner, r, w) && CreateRefusal(lim, c, owner, r).Success?
    ensures var status := AddStatus(lim, c, w.requirement.entity, MetricsOf(w));
            CreateStatus(lim, c, owner, r) ==
            if status.Success? && !ServesAll(c.catalog.value, r.metrics) then PartialResult else status
    ensures !ServesAll(c.catalog.value, r.metrics) ==> r.allowPartial
  {
    assert MetricsOf(w) == set m | m in r.metrics && Supports(c.catalog.value, m);
  }

  /** `w` is what `create` makes of an acceptable requirement: its supported metrics, in order. */
  ghost predicate StoredAs(lim: Limits, k: Option<CatalogInfo>, owner: Owner, r: Requirement, w: LogicalWatch) {
    && RequirementOk(lim, k, r)
    && w == LogicalWatch(w.id, owner, r.(metrics := w.requirement.metrics)) && w.requirement.metrics != []
    && RisingMetrics(w.requirement.metrics)
    && forall m :: m in w.requirement.metrics <==> m in r.metrics && Supports(k.value, m)
  }

  lemma {:induction false} StoredIsFine(lim: Limits, k: Option<CatalogInfo>, owner: Owner, r: Requirement,
                                        w: LogicalWatch)
    requires StoredAs(lim, k, owner, r, w) && |w.requirement.metrics| <= |r.metrics|
    ensures WellFormedWatch(lim, w) && Serves(k, w)
  {}

  /** The supported metrics in ascending order, as `create` stores them. */
  method SortMetrics(ms: seq<uint32>) returns (r: seq<uint32>)
    requires Distinct(ms)
    ensures RisingMetrics(r) && |r| == |ms| && forall m :: m in r <==> m in ms
  {
    r := [];
    for k := 0 to |ms|
      invariant RisingMetrics(r) && |r| == k && forall m :: m in r <==> m in ms[..k]
    {
      assert ms[k] !in ms[..k] && ms[..k + 1] == ms[..k] + [ms[k]];
      r := InsertMetric(r, ms[k]);
    }
    assert ms[..|ms|] == ms;
  }

  // ----- The manager -----

  /** What sorting the ids and looking for equal neighbours finds out. */
  predicate Repeats(ids: seq<uint64>) {
    exists i, j :: 0 <= i < j < |ids| && ids[i] == ids[j]
  }

  class Manager {
    const limits: Limits
    var catalog: Option<CatalogInfo>
    var logical: Watches
    var counts: map<uint64, uint64>
    var times: map<uint64, int>
    var baseline: Option<Effective>
    var nextId: uint64
    var version: uint64
    var effective: EffectiveMap
    ghost var credited: map<uint64, seq<int>>
    ghost var basis: Basis

    constructor (limits: Limits)
      ensures this.limits == limits
      ensures View() == Contents(None, map[], map[], map[], None, 1, 0, map[], map[], Basis(None, None))
      ensures Valid()
    {
      this.limits := limits;
      catalog, logical, counts, times := None, map[], map[], map[];
      baseline, nextId, version, effective, credited, basis := None, 1, 0, map[], map[], Basis(None, None);
      NothingMerged("");
    }

    ghost function View(): Contents
      reads this
    {
      Contents(catalog, logical, counts, times, baseline, nextId, version, effective, credited, basis)
    }

    ghost predicate Valid()
      reads this
    {
      ManagerInv(limits, View())
    }

    /** `publish`: installs a new set of watches, or changes nothing; `built` is what they merge into. */
    method Publish(next: Watches) returns (status: Code, ghost built: EffectiveMap)
      requires DistinctMetrics(next) && BaselineOk(baseline)
      modifies `logical, `counts, `times, `version, `effective, `credited, `basis
      ensures status == PublishStatus(limits, |next|, old(version), |built|)
      ensures EffectiveOk(ProviderOf(catalog), next, baseline, built)
      ensures status.Success? ==> View() == Published(old(View()), next, built)
      ensures !status.Success? ==> View() == old(View())
    {
      var eff := BuildEffective(ProviderOf(catalog), next, baseline);
      built := eff;
      status := PublishStatus(limits, |next|, version, |eff|);
      if status.Success? {
        Install(next, eff);
      }
    }

    method Install(next: Watches, eff: EffectiveMap)
      requires version < UINT64_MAX
      modifies `logical, `counts, `times, `version, `effective, `credited, `basis
      ensures View() == Published(old(View()), next, eff)
    {
      logical, version, effective, basis := next, version + 1, eff, Basis(catalog, baseline);
      counts, times, credited := Restrict(counts, next), Restrict(times, next), Restrict(credited, next);
    }

    /** Publishing fewer of the same watches succeeds until the version counter is exhausted. */
    method PublishFewer(next: Watches) returns (status: Code)
      requires Valid() && Fewer(logical, next)
      modifies `logical, `counts, `times, `version, `effective, `credited, `basis
      ensures Valid()
      ensures status == if old(version) < UINT64_MAX then Success else Internal
      ensures status.Success? ==> View() == Published(old(View()), next, effective)
      ensures !status.Success? ==> View() == old(View())
    {
      ghost var before := View();
      ghost var built;
      FewerStillFine(limits, before, next);
      status, built := Publish(next);
      if before.version < UINT64_MAX {
        FewerKeepsInv(limits, before, next, built);
      }
    }

    /** `create`: validates, stores the supported metrics in order, publishes. */
    method Create(owner: Owner, requirement: Requirement) returns (status: Code, id: uint64)
      requires Valid()
      modifies this
      ensures Valid()
      ensures status == CreateStatus(limits, old(View()), owner, requirement)
      ensures Readable(status) ==>
                && id == old(nextId) < UINT64_MAX && old(version) < UINT64_MAX && id in logical
                && View() == Added(old(View()), logical[id], effective)
                && StoredAs(limits, catalog, owner, requirement, logical[id])
      ensures status.PartialResult? ==> requirement.allowPartial
      ensures status.Success? ==> forall m :: m in requirement.metrics ==> Supports(catalog.value, m)
      ensures !Readable(status) ==> View() == old(View())
    {
      id := 0;
      var watch;
      CreateStatusMeans(limits, View(), owner, requirement);
      status, watch := Draft(owner, requirement);
      if status.Success? {
        status := Enter(owner, requirement, watch);
        if Readable(status) {
          id := watch.id;
        }
      }
    }

    /** The rest of `create`. */
    method Enter(owner: Owner, requirement: Requirement, watch: LogicalWatch) returns (status: Code)
      requires Valid() && CreateRefusal(limits, View(), owner, requirement).Success?
      requires watch.id == nextId < UINT64_MAX && StoredAs(limits, catalog, owner, requirement, watch)
      requires WellFormedWatch(limits, watch) && Serves(catalog, watch)
      modifies this
      ensures Valid()
      ensures status == CreateStatus(limits, old(View()), owner, requirement)
      ensures Readable(status) ==>
                old(version) < UINT64_MAX && View() == Added(old(View()), watch, effective)
      ensures !Readable(status) ==> View() == old(View())
    {
      StoredStatus(limits, View(), owner, requirement, watch);
      var omitted := !ServesAll(catalog.value, requirement.metrics);
      status := Add(watch);
      if status.Success? && omitted {
        status := PartialResult;
      }
    }

    /** The part of `create` before the publication. */
    method Draft(owner: Owner, requirement: Requirement) returns (status: Code, watch: LogicalWatch)
      ensures status == CreateRefusal(limits, View(), owner, requirement)
      ensures status.Success? ==>
                && watch.id == nextId < UINT64_MAX && StoredAs(limits, catalog, owner, requirement, watch)
                && WellFormedWatch(limits, watch) && Serves(catalog, watch)
    {
      watch := LogicalWatch(nextId, owner, requirement);
      if owner.kind.Session? && owner.id == 0 {
        return InvalidArgument, watch;
      }
      if nextId == UINT64_MAX {
        return ResourceExhausted, watch;
      }
      var supported;
      status, supported := ValidateRequirement(limits, catalog, requirement);
      if !status.Success? {
        return status, watch;
      }
      SupportedAll(catalog.value, requirement.metrics);
      SupportedIs(catalog.value, requirement.metrics);
      SupportedNone(catalog.value, requirement.metrics);
      if |supported| != |requirement.metrics| && !requirement.allowPartial {
        return Code.Unsupported, watch;
      }
      if supported == [] {
        return Code.Unsupported, watch;
      }
      var metrics := SortMetrics(supported);
      watch := LogicalWatch(nextId, owner, requirement.(metrics := metrics));
      StoredIsFine(limits, catalog, owner, requirement, watch);
    }

    method Add(watch: LogicalWatch) returns (status: Code)
      requires Valid() && watch.id == nextId < UINT64_MAX && WellFormedWatch(limits, watch) && Serves(catalog, watch)
      modifies this
      ensures Valid()
      ensures status == AddStatus(limits, old(View()), watch.requirement.entity, MetricsOf(watch))
      ensures status.Success? ==>
                old(version) < UINT64_MAX && View() == Added(old(View()), watch, effective)
      ensures !status.Success? ==> View() == old(View())
    {
      ghost var before := View();
      ghost var built;
      var next := logical[watch.id := watch];
      AddStillFine(limits, before, watch);
      status, built := Publish(next);
      AddedSize(limits, before, watch, built);
      if status.Success? {
        UseId();
        assert View() == Added(before, watch, built);
        AddKeepsInv(limits, before, watch, built);
      }
    }

    method UseId()
      requires nextId < UINT64_MAX
      modifies `nextId
      ensures View() == old(View()).(nextId := old(nextId) + 1)
    {
      nextId := nextId + 1;
    }

    /** `destroy`. */
    method Destroy(owner: Owner, id: uint64) returns (status: Code)
      requires Valid()
      modifies this
      ensures Valid()
      ensures status == if id !in old(logical) then NotFound
                        else if old(logical)[id].owner != owner then PermissionDenied
                        else if old(version) == UINT64_MAX then Internal
                        else Success
      ensures status.Success? ==> View() == Published(old(View()), old(logical) - {id}, effective)
      ensures !status.Success? ==> View() == old(View())
    {
      if id !in logical {
        return NotFound;
      }
      if logical[id].owner != owner {
        return PermissionDenied;
      }
      status := PublishFewer(logical - {id});
    }

    /** `removeOwner`. */
    method RemoveOwner(owner: Owner) returns (status: Code)
      requires Valid()
      modifies this
      ensures Valid()
      ensures status == if forall id :: id in old(logical) ==> old(logical)[id].owner != owner then NotFound
                        else if old(version) == UINT64_MAX then Internal
                        else Success
      ensures status.Success? ==> View() == Published(old(View()), OthersOf(old(logical), owner), effective)
      ensures !status.Success? ==> View() == old(View())
    {
      var next := OthersOf(logical, owner);
      OthersSize(logical, owner);
      if |next| == |logical| {
        return NotFound;
      }
      status := PublishFewer(next);
    }

    /** `activateCatalog` with a checked snapshot: a newer generation ends every watch of the older one. */
    method ActivateCatalog(k: CatalogInfo) returns (status: Code)
      requires Valid()
      modifies this
      ensures Valid()
      ensures status.InvalidArgument? <==> k.generation == 0
      ensures status.StaleGeneration? <==>
              k.generation != 0 && old(catalog).Some? && k.generation < old(catalog).value.generation
      ensures status.InvalidArgument? || status.StaleGeneration? ==> View() == old(View())
      ensures k.generation != 0 && old(catalog).Some? && k.generation == old(catalog).value.generation ==>
                status.Success? && View() == old(View())
      ensures k.generation != 0 && (old(catalog).None? || old(catalog).value.generation < k.generation) ==>
                && catalog == Some(k) && baseline == None
                && status == (if old(version) < UINT64_MAX then Success else Internal)
                && (status.Success? ==> logical == map[] && effective == map[] && version == old(version) + 1)
                && (status.Internal? ==> View() == Switched(old(View()), k))
    {
      if k.generation == 0 {
        return InvalidArgument;
      }
      if catalog.Some? && k.generation < catalog.value.generation {
        return StaleGeneration;
      }
      if catalog.Some? && k.generation == catalog.value.generation {
        return Success;
      }
      status := SwitchTo(k);
    }

    method Adopt(k: CatalogInfo)
      modifies `catalog, `baseline
      ensures View() == Switched(old(View()), k)
    {
      catalog, baseline := Some(k), None;
    }

    /** The rest of `activateCatalog` once the catalog is known to be newer. */
    method SwitchTo(k: CatalogInfo) returns (status: Code)
      requires Valid() && NewerCatalog(View(), k)
      modifies this
      ensures Valid() && catalog == Some(k) && baseline == None
      ensures status == if old(version) < UINT64_MAX then Success else Internal
      ensures status.Success? ==> logical == map[] && effective == map[] && version == old(version) + 1
      ensures status.Internal? ==> View() == Switched(old(View()), k)
    {
      ghost var before := View();
      var retained := Retained(logical, k);
      FewerStillFine(limits, before, retained);
      Adopt(k);
      ghost var built;
      status, built := Publish(retained);
      if before.version < UINT64_MAX {
        SwitchKeepsInv(limits, before, k, built);
      } else {
        SwitchAtTheEnd(limits, before, k);
      }
    }

    /** `setFirmwareHeartbeatBaseline`. */
    method SetBaseline(period: int, retention: int) returns (status: Code)
      requires Valid()
      modifies this
      ensures Valid()
      ensures status == BaselineStatus(limits, old(View()), period, retention)
      ensures status.Success? ==> baseline.Some? && old(version) < UINT64_MAX
      ensures status.Success? ==>
                View() == Published(old(View()).(baseline := baseline), old(logical), effective)
      ensures status.Success? ==>
                baseline.value == Effective(BaselineKey(catalog.value), period, catalog.value.heartbeat.freshness,
                                            retention, Heartbeat, [])
      ensures !status.Success? ==> View() == old(View())
    {
      if catalog.None? {
        return NotInitialized;
      }
      var k := catalog.value;
      if k.unsupported || k.entity.None? || k.heartbeat.dataId.None? || !k.heartbeatSupported {
        return Code.Unsupported;
      }
      if k.heartbeat.freshness > INT64_MAX || period <= 0 || period > k.heartbeat.freshness ||
         retention < k.heartbeat.freshness
      {
        return InvalidArgument;
      }
      status := Rebase(Some(Effective(BaselineKey(k), period, k.heartbeat.freshness, retention, Heartbeat, [])));
    }

    /** `clearFirmwareHeartbeatBaseline`. */
    method ClearBaseline() returns (status: Code)
      requires Valid()
      modifies this
      ensures Valid()
      ensures status == if old(baseline).Some? && old(version) == UINT64_MAX then Internal else Success
      ensures old(baseline).None? || status.Internal? ==> View() == old(View())
      ensures old(baseline).Some? && status.Success? ==>
                View() == Published(old(View()).(baseline := None), old(logical), effective)
    {
      if baseline.None? {
        return Success;
      }
      status := Rebase(None);
    }

    /** Replaces the baseline and publishes; restores it when publishing fails. */
    method Rebase(next: Option<Effective>) returns (status: Code)
      requires Valid() && BaselineOk(next) && BaselineServed(catalog, next)
      modifies this
      ensures Valid()
      ensures status == RebaseStatus(limits, old(View()), next)
      ensures status.Success? ==>
                && old(version) < UINT64_MAX
                && View() == Published(old(View()).(baseline := next), old(logical), effective)
      ensures !status.Success? ==> View() == old(View())
    {
      ghost var before := View();
      var previous := baseline;
      Replace(next);
      FewerStillFine(limits, before, logical);
      ghost var built;
      status, built := Publish(logical);
      RebaseSize(limits, before, next, built);
      if status.Success? {
        RebaseKeepsInv(limits, before, next, built);
      } else {
        Replace(previous);
      }
    }

    method Replace(next: Option<Effective>)
      modifies `baseline
      ensures View() == old(View()).(baseline := next)
    {
      baseline := next;
    }

    /** The effect of one range on one watch, in the unsigned arithmetic of the source. */
    static method CreditWatch(limit: uint64, tally: Option<Tally>, r: Range, ghost credited: seq<int>)
      returns (changed: bool, next: Option<Tally>)
      requires ValidRange(r)
      ensures changed <==> Skipped(tally, r) < r.count
      ensures !changed ==> Credit(limit, Live(tally, credited), r) == Live(tally, credited)
      ensures changed && next.None? ==> Credit(limit, Live(tally, credited), r) == Gone
      ensures changed && next.Some? ==>
                Credit(limit, Live(tally, credited), r) ==
                Live(next, credited + Instants(r.first, r.period, Skipped(tally, r), r.count))
    {
      var skipped := 0;
      if tally.Some? && r.first <= tally.value.last {
        skipped := (tally.value.last - r.first) / r.period + 1;
        if r.count <= skipped {
          return false, tally;
        }
      }
      var added := r.count - skipped;
      var current := if tally.Some? then tally.value.count else 0;
      var updated := if added > UINT64_MAX - current then UINT64_MAX else current + added;
      if limit != 0 && limit <= updated {
        return true, None;
      }
      return true, Some(Tally(updated, r.first + (r.count - 1) * r.period));
    }

    /** One turn of the loop of `recordSamples` on copies of the maps; `c` is what they stand for. */
    static method CreditOne(ghost c: Contents, logical: Watches, counts: map<uint64, uint64>, times: map<uint64, int>,
                            id: uint64, r: Range)
      returns (next: Watches, nextCounts: map<uint64, uint64>, nextTimes: map<uint64, int>,
               ghost nextCredited: map<uint64, seq<int>>, changed: bool)
      requires ValidRange(r) && c.logical == logical && c.counts == counts && c.times == times && id in logical
      ensures RecordOne(c, id, r) ==
              c.(logical := next, counts := nextCounts, times := nextTimes, credited := nextCredited)
      ensures !changed ==> RecordOne(c, id, r) == c
      ensures next == logical || (next == logical - {id} && changed)
    {
      next, nextCounts, nextTimes, nextCredited := logical, counts, times, c.credited;
      var tally := if id in counts && id in times then Some(Tally(counts[id], times[id])) else None;
      ghost var instants := if id in c.credited then c.credited[id] else [];
      var updated;
      changed, updated := CreditWatch(logical[id].requirement.sampleLimit, tally, r, instants);
      assert BookOf(c, id) == Live(tally, instants);
      if changed && updated.None? {
        next, nextCounts, nextTimes := logical - {id}, counts - {id}, times - {id};
        nextCredited := c.credited - {id};
      } else if changed {
        nextCounts, nextTimes := counts[id := updated.value.count], times[id := updated.value.last];
        ghost var more := Instants(r.first, r.period, Skipped(tally, r), r.count);
        assert |instants + more| != |instants|;
        nextCredited := c.credited[id := instants + more];
      }
    }

    /** The loop of `recordSamples`. */
    method CreditAllWatches(ids: seq<uint64>, r: Range)
      returns (next: Watches, nextCounts: map<uint64, uint64>, nextTimes: map<uint64, int>,
               ghost nextCredited: map<uint64, seq<int>>, found: bool, changed: bool)
      requires ValidRange(r) && Distinct(ids)
      ensures RecordAll(View(), ids, r) ==
              View().(logical := next, counts := nextCounts, times := nextTimes, credited := nextCredited)
      ensures found <==> exists id :: id in ids && id in logical
      ensures !changed ==> RecordAll(View(), ids, r) == View()
    {
      next, nextCounts, nextTimes, nextCredited := logical, counts, times, credited;
      found, changed := false, false;
      for k := 0 to |ids|
        invariant RecordAll(View(), ids[..k], r) ==
                  View().(logical := next, counts := nextCounts, times := nextTimes, credited := nextCredited)
        invariant found <==> exists i :: 0 <= i < k && ids[i] in logical
        invariant !changed ==> RecordAll(View(), ids[..k], r) == View()
        invariant next.Keys <= logical.Keys && forall id :: id in logical && id !in next ==> id in ids[..k]
      {
        assert ids[..k + 1][..k] == ids[..k] && ids[k] !in ids[..k];
        if ids[k] in next {
          found := true;
          var touched;
          next, nextCounts, nextTimes, nextCredited, touched :=
            CreditOne(RecordAll(View(), ids[..k], r), next, nextCounts, nextTimes, ids[k], r);
          changed := changed || touched;
        }
      }
      assert ids[..|ids|] == ids;
    }

    /** Installs the counters of a state `e` whose books balance. */
    method SetCounters(nextCounts: map<uint64, uint64>, nextTimes: map<uint64, int>, ghost e: Contents)
      requires Valid() && BooksInv(e) && e.logical == logical && e.counts == nextCounts && e.times == nextTimes
      modifies `counts, `times, `credited
      ensures Valid()
      ensures counts == nextCounts && times == nextTimes && credited == e.credited
    {
      ghost var before := View();
      counts, times, credited := nextCounts, nextTimes, e.credited;
      NewCountersKeepInv(limits, before, View(), e);
    }

    /** The second half of `recordSamples`: publishes when a watch has reached its limit, then installs the counters. */
    method InstallCredits(ghost target: Contents, next: Watches, nextCounts: map<uint64, uint64>,
                          nextTimes: map<uint64, int>)
      returns (status: Code)
      requires Valid() && BooksInv(target) && Fewer(logical, next)
      requires target == View().(logical := next, counts := nextCounts, times := nextTimes, credited := target.credited)
      modifies `logical, `counts, `times, `version, `effective, `credited, `basis
      ensures Valid()
      ensures status.Success? || (status.Internal? && old(version) == UINT64_MAX)
      ensures status.Success? ==>
                && View() == target.(version := version, effective := effective)
                && version == old(version) + (if logical == old(logical) then 0 else 1)
      ensures !status.Success? ==> View() == old(View())
    {
      status := Success;
      if next != logical {
        status := PublishFewer(next);
      }
      if status.Success? {
        SetCounters(nextCounts, nextTimes, target);
      }
    }

    /** `recordSamples`. */
    method RecordSamples(ids: seq<uint64>, first: int, period: int, count: uint64) returns (status: Code)
      requires Valid()
      modifies this
      ensures Valid()
      ensures status.InvalidArgument? <==> !(ids != [] && Distinct(ids) && ValidRange(Range(first, period, count)))
      ensures status.NotFound? <==>
              && ids != [] && Distinct(ids) && ValidRange(Range(first, period, count))
              && forall id :: id in ids ==> id !in old(logical)
      ensures status.Success? || status.NotFound? || status.InvalidArgument? ||
              (status.Internal? && old(version) == UINT64_MAX)
      ensures status.Success? ==>
                && ValidRange(Range(first, period, count))
                && View() == RecordAll(old(View()), ids, Range(first, period, count))
                             .(version := version, effective := effective)
                && version == old(version) + (if logical == old(logical) then 0 else 1)
      ensures !status.Success? ==> View() == old(View())
    {
      var r := Range(first, period, count);
      if ids == [] || first < 0 || period <= 0 || count == 0 || Repeats(ids) {
        return InvalidArgument;
      }
      ChecksAreExact(r);
      if !RangeChecks(r) {
        return InvalidArgument;
      }
      var next, nextCounts, nextTimes, nextCredited, found, changed := CreditAllWatches(ids, r);
      if !found {
        return NotFound;
      }
      if !changed {
        return Success;
      }
      ghost var target := RecordAll(View(), ids, r);
      RecordAllFewer(View(), ids, r);
      RecordKeepsBooks(View(), ids, r);
      status := InstallCredits(target, next, nextCounts, nextTimes);
    }
  }
}
