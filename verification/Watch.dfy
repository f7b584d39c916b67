/** `WatchManager`: logical watches, the effective watches they merge into, and the sample counts
    that end limited watches. */
module Watch {
  import opened Base
  import opened Collections
  import opened Domain

  datatype OwnerKind = Session | FirmwareHeartbeat | SystemBaseline

  datatype Owner = Owner(kind: OwnerKind, id: uint64)

  datatype Priority = Low | Normal | High | Heartbeat

  function Rank(p: Priority): nat {
    match p case Low => 0 case Normal => 1 case High => 2 case Heartbeat => 3
  }

  datatype Requirement = Requirement(
    generation: uint64,
    entity: EntityRef,
    metrics: seq<uint32>,
    period: int,
    freshness: int,
    retention: int,
    sampleLimit: uint64,
    priority: Priority,
    allowPartial: bool)

  datatype LogicalWatch = LogicalWatch(id: uint64, owner: Owner, requirement: Requirement)

  datatype DataKind = MetricData | HeartbeatData

  datatype EffectiveKey = EffectiveKey(
    provider: string, entity: EntityRef, kind: DataKind, dataId: uint32, isolation: uint32)

  datatype Effective = Effective(
    key: EffectiveKey, period: int, freshness: int, retention: int, priority: Priority, watches: seq<uint64>)

  predicate ValidTiming(period: int, freshness: int, retention: int) {
    0 < period <= freshness <= retention
  }

  // ----- Merging -----

  type Watches = map<uint64, LogicalWatch>

  function KeyFor(provider: string, w: LogicalWatch, metric: uint32): EffectiveKey {
    EffectiveKey(provider, w.requirement.entity, MetricData, metric, 0)
  }

  function First(key: EffectiveKey, r: Requirement, id: uint64): Effective {
    Effective(key, r.period, r.freshness, r.retention, r.priority, [id])
  }

  function Merge(e: Effective, r: Requirement, id: uint64): Effective {
    Effective(e.key, Min(e.period, r.period), Min(e.freshness, r.freshness), Max(e.retention, r.retention),
              if Rank(e.priority) < Rank(r.priority) then r.priority else e.priority, e.watches + [id])
  }

  ghost predicate RisingIds(s: seq<uint64>) {
    forall i, j :: 0 <= i < j < |s| ==> s[i] < s[j]
  }

  function Timing(w: Watches, id: uint64): Requirement
    requires id in w
  {
    w[id].requirement
  }

  /** `e` bounds every requirement in `ids` ... */
  ghost predicate Bounds(w: Watches, ids: set<uint64>, e: Effective)
    requires ids <= w.Keys
  {
    forall id :: id in ids ==>
                   && e.period <= Timing(w, id).period && e.freshness <= Timing(w, id).freshness
                   && Timing(w, id).retention <= e.retention && Rank(Timing(w, id).priority) <= Rank(e.priority)
  }

  /** ... and each of its bounds is reached by one of them. */
  ghost predicate Reached(w: Watches, ids: set<uint64>, e: Effective)
    requires ids <= w.Keys
  {
    && (exists id :: id in ids && Timing(w, id).period == e.period)
    && (exists id :: id in ids && Timing(w, id).freshness == e.freshness)
    && (exists id :: id in ids && Timing(w, id).retention == e.retention)
    && (exists id :: id in ids && Timing(w, id).priority == e.priority)
  }

  /** `e` is the minimum period and freshness, the maximum retention and priority, and the sorted
      list, of the watches `ids`. */
  ghost predicate Merged(w: Watches, ids: set<uint64>, key: EffectiveKey, e: Effective) {
    && ids <= w.Keys && e.key == key
    && (set id | id in e.watches) == ids && RisingIds(e.watches)
    && Bounds(w, ids, e) && Reached(w, ids, e)
  }

  lemma {:induction false} FirstIsMerged(w: Watches, id: uint64, key: EffectiveKey)
    requires id in w
    ensures Merged(w, {id}, key, First(key, w[id].requirement, id))
  {
    assert id in {id} && Timing(w, id) == w[id].requirement;
  }

  lemma {:induction false} MergeReaches(w: Watches, ids: set<uint64>, e: Effective, id: uint64)
    requires ids <= w.Keys && Reached(w, ids, e) && id in w
    ensures Reached(w, ids + {id}, Merge(e, Timing(w, id), id))
  {
    var a :| a in ids && Timing(w, a).period == e.period;
    var b :| b in ids && Timing(w, b).freshness == e.freshness;
    var c :| c in ids && Timing(w, c).retention == e.retention;
    var d :| d in ids && Timing(w, d).priority == e.priority;
    var all := ids + {id};
    assert a in all && b in all && c in all && d in all && id in all;
    var m := Merge(e, Timing(w, id), id);
    assert Timing(w, a).period == m.period || Timing(w, id).period == m.period;
    assert Timing(w, b).freshness == m.freshness || Timing(w, id).freshness == m.freshness;
    assert Timing(w, c).retention == m.retention || Timing(w, id).retention == m.retention;
    assert Timing(w, d).priority == m.priority || Timing(w, id).priority == m.priority;
  }

  lemma {:induction false} MergeBounds(w: Watches, ids: set<uint64>, e: Effective, id: uint64)
    requires ids <= w.Keys && Bounds(w, ids, e) && id in w
    ensures Bounds(w, ids + {id}, Merge(e, Timing(w, id), id))
  {}

  lemma {:induction false} RisingExtends(s: seq<uint64>, id: uint64)
    requires RisingIds(s) && forall x :: x in s ==> x < id
    ensures RisingIds(s + [id]) && (set x | x in s + [id]) == (set x | x in s) + {id}
  {
    forall i | 0 <= i < |s| ensures s[i] < id { assert s[i] in s; }
  }

  lemma {:induction false} MergeExtends(w: Watches, ids: set<uint64>, key: EffectiveKey, e: Effective, id: uint64)
    requires Merged(w, ids, key, e) && id in w && forall x :: x in ids ==> x < id
    ensures Merged(w, ids + {id}, key, Merge(e, w[id].requirement, id))
  {
    MergeReaches(w, ids, e, id);
    MergeBounds(w, ids, e, id);
    assert forall x :: x in e.watches ==> x in ids;
    RisingExtends(e.watches, id);
  }

  /** Merging keeps period, freshness and retention in order. */
  lemma {:induction false} MergedTiming(w: Watches, ids: set<uint64>, key: EffectiveKey, e: Effective)
    requires Merged(w, ids, key, e)
    requires forall id :: id in ids ==>
                            ValidTiming(Timing(w, id).period, Timing(w, id).freshness, Timing(w, id).retention)
    ensures ValidTiming(e.period, e.freshness, e.retention)
  {
    var a :| a in ids && Timing(w, a).period == e.period;
    var b :| b in ids && Timing(w, b).freshness == e.freshness;
  }

  // ----- The effective watches of a set of logical ones -----

  /** The watches whose share of `done` pairs (watch, metric) falls on `key`. */
  ghost function Naming(provider: string, w: Watches, done: set<(uint64, uint32)>, key: EffectiveKey): set<uint64> {
    set p | p in done && p.0 in w && KeyFor(provider, w[p.0], p.1) == key :: p.0
  }

  ghost function AllPairs(w: Watches): set<(uint64, uint32)> {
    set id, i | id in w && 0 <= i < |w[id].requirement.metrics| :: (id, w[id].requirement.metrics[i])
  }

  type EffectiveMap = map<EffectiveKey, Effective>

  ghost predicate CoversKey(provider: string, w: Watches, done: set<(uint64, uint32)>, baseline: Option<Effective>,
                            eff: EffectiveMap, key: EffectiveKey)
  {
    var ids := Naming(provider, w, done, key);
    if ids != {} then key in eff && Merged(w, ids, key, eff[key])
    else if baseline.Some? && key == baseline.value.key then key in eff && eff[key] == baseline.value
    else key !in eff
  }

  ghost predicate Covers(provider: string, w: Watches, done: set<(uint64, uint32)>, baseline: Option<Effective>,
                         eff: EffectiveMap)
  {
    forall key :: CoversKey(provider, w, done, baseline, eff, key)
  }

  /** The published effective watches are exactly the merges of the live watches, and the baseline. */
  ghost predicate EffectiveOk(provider: string, w: Watches, baseline: Option<Effective>, eff: EffectiveMap) {
    Covers(provider, w, AllPairs(w), baseline, eff)
  }

  lemma {:induction false} NamingExtends(provider: string, w: Watches, done: set<(uint64, uint32)>, id: uint64,
                                         m: uint32, key: EffectiveKey)
    requires id in w
    ensures Naming(provider, w, done + {(id, m)}, key) ==
            if KeyFor(provider, w[id], m) == key then Naming(provider, w, done, key) + {id}
            else Naming(provider, w, done, key)
  {
    var all := done + {(id, m)};
    assert (id, m) in all;
    forall x | x in Naming(provider, w, done, key) ensures x in Naming(provider, w, all, key) {
      var p :| p in done && p.0 in w && KeyFor(provider, w[p.0], p.1) == key && p.0 == x;
      assert p in all;
    }
  }

  /** What folding one metric of one watch does to the effective watches. */
  function Fold(provider: string, w: Watches, eff: EffectiveMap, id: uint64, m: uint32): EffectiveMap
    requires id in w
  {
    var key := KeyFor(provider, w[id], m);
    var r := w[id].requirement;
    eff[key := if key in eff then Merge(eff[key], r, id) else First(key, r, id)]
  }

  lemma {:induction false} FoldCoversKey(provider: string, w: Watches, done: set<(uint64, uint32)>,
                                         baseline: Option<Effective>, eff: EffectiveMap, id: uint64, m: uint32)
    requires id in w && CoversKey(provider, w, done, baseline, eff, KeyFor(provider, w[id], m))
    requires baseline.Some? ==> baseline.value.key.kind.HeartbeatData?
    requires forall p :: p in done ==> p.0 < id || (p.0 == id && p.1 != m)
    ensures CoversKey(provider, w, done + {(id, m)}, baseline, Fold(provider, w, eff, id, m),
                      KeyFor(provider, w[id], m))
  {
    var key := KeyFor(provider, w[id], m);
    var ids := Naming(provider, w, done, key);
    NamingExtends(provider, w, done, id, m, key);
    forall x | x in ids ensures x < id {
      var p :| p in done && p.0 in w && KeyFor(provider, w[p.0], p.1) == key && p.0 == x;
    }
    if key in eff {
      MergeExtends(w, ids, key, eff[key], id);
    } else {
      FirstIsMerged(w, id, key);
      assert ids + {id} == {id};
    }
  }

  lemma {:induction false} FoldCovers(provider: string, w: Watches, done: set<(uint64, uint32)>,
                                      baseline: Option<Effective>, eff: EffectiveMap, id: uint64, m: uint32)
    requires id in w && Covers(provider, w, done, baseline, eff)
    requires baseline.Some? ==> baseline.value.key.kind.HeartbeatData?
    requires forall p :: p in done ==> p.0 < id || (p.0 == id && p.1 != m)
    ensures Covers(provider, w, done + {(id, m)}, baseline, Fold(provider, w, eff, id, m))
  {
    forall key ensures CoversKey(provider, w, done + {(id, m)}, baseline, Fold(provider, w, eff, id, m), key) {
      assert CoversKey(provider, w, done, baseline, eff, key);
      if key == KeyFor(provider, w[id], m) {
        FoldCoversKey(provider, w, done, baseline, eff, id, m);
      } else {
        NamingExtends(provider, w, done, id, m, key);
      }
    }
  }

  method Smallest(s: set<uint64>) returns (m: uint64)
    requires s != {}
    ensures m in s && forall x :: x in s ==> m <= x
  {
    m :| m in s;
    var rest := s - {m};
    while rest != {}
      invariant m in s && rest <= s && forall x :: x in s ==> x in rest || m <= x
      decreases rest
    {
      var y :| y in rest;
      rest := rest - {y};
      if y < m {
        m := y;
      }
    }
  }

  /** The order of visiting a `std::map`. */
  method SortedIds(s: set<uint64>) returns (r: seq<uint64>)
    ensures RisingIds(r) && (set x | x in r) == s
  {
    r := [];
    var rest := s;
    while rest != {}
      invariant rest <= s && (set x | x in r) == s - rest
      invariant RisingIds(r) && forall x, y :: x in r && y in rest ==> x < y
      decreases rest
    {
      var m := Smallest(rest);
      RisingExtends(r, m);
      assert s - (rest - {m}) == (s - rest) + {m};
      r := r + [m];
      rest := rest - {m};
    }
  }

  ghost predicate DistinctMetrics(w: Watches) {
    forall id :: id in w ==> Distinct(w[id].requirement.metrics)
  }

  ghost function PairsOf(id: uint64, ms: seq<uint32>): set<(uint64, uint32)> {
    set i | 0 <= i < |ms| :: (id, ms[i])
  }

  /** Folds all metrics of one watch. */
  method FoldWatch(provider: string, w: Watches, ghost done: set<(uint64, uint32)>, baseline: Option<Effective>,
                   eff: EffectiveMap, id: uint64)
    returns (eff': EffectiveMap)
    requires id in w && DistinctMetrics(w) && Covers(provider, w, done, baseline, eff)
    requires baseline.Some? ==> baseline.value.key.kind.HeartbeatData?
    requires forall p :: p in done ==> p.0 < id
    ensures Covers(provider, w, done + PairsOf(id, w[id].requirement.metrics), baseline, eff')
  {
    var ms := w[id].requirement.metrics;
    eff' := eff;
    assert done + PairsOf(id, ms[..0]) == done;
    for k := 0 to |ms|
      invariant Covers(provider, w, done + PairsOf(id, ms[..k]), baseline, eff')
    {
      ghost var now := done + PairsOf(id, ms[..k]);
      forall p | p in now ensures p.0 < id || (p.0 == id && p.1 != ms[k]) {
        if p in PairsOf(id, ms[..k]) {
          var i :| 0 <= i < k && p == (id, ms[..k][i]);
          assert ms[i] != ms[k];
        }
      }
      FoldCovers(provider, w, now, baseline, eff', id, ms[k]);
      PairsExtend(id, ms, k);
      assert now + {(id, ms[k])} == done + PairsOf(id, ms[..k + 1]);
      eff' := Fold(provider, w, eff', id, ms[k]);
    }
    assert ms[..|ms|] == ms;
  }

  lemma {:induction false} PairsExtend(id: uint64, ms: seq<uint32>, k: nat)
    requires k < |ms|
    ensures PairsOf(id, ms[..k + 1]) == PairsOf(id, ms[..k]) + {(id, ms[k])}
  {
    var a, b := PairsOf(id, ms[..k + 1]), PairsOf(id, ms[..k]);
    forall p | p in b ensures p in a {
      var i :| 0 <= i < k && p == (id, ms[..k][i]);
      assert p == (id, ms[..k + 1][i]);
    }
    assert (id, ms[k]) == (id, ms[..k + 1][k]);
    forall p | p in a ensures p in b + {(id, ms[k])} {
      var i :| 0 <= i < k + 1 && p == (id, ms[..k + 1][i]);
      if i < k { assert p == (id, ms[..k][i]); }
    }
  }

  ghost function PairsUpTo(w: Watches, ids: seq<uint64>): set<(uint64, uint32)>
    requires forall id :: id in ids ==> id in w
  {
    if ids == [] then {}
    else PairsUpTo(w, ids[..|ids| - 1]) + PairsOf(ids[|ids| - 1], w[ids[|ids| - 1]].requirement.metrics)
  }

  lemma {:induction false} PairsUpToMembers(w: Watches, ids: seq<uint64>)
    requires forall id :: id in ids ==> id in w
    ensures forall p :: p in PairsUpTo(w, ids) <==> p.0 in ids && p in PairsOf(p.0, w[p.0].requirement.metrics)
  {
    if ids != [] { PairsUpToMembers(w, ids[..|ids| - 1]); }
  }

  /** The pairs of the first ids have smaller ids, and the next id adds its own pairs. */
  lemma {:induction false} PairsBefore(w: Watches, ids: seq<uint64>, k: nat)
    requires RisingIds(ids) && k < |ids| && forall id :: id in ids ==> id in w
    ensures forall p :: p in PairsUpTo(w, ids[..k]) ==> p.0 < ids[k]
    ensures PairsUpTo(w, ids[..k + 1]) == PairsUpTo(w, ids[..k]) + PairsOf(ids[k], w[ids[k]].requirement.metrics)
  {
    PairsUpToMembers(w, ids[..k]);
    assert ids[..k + 1][..k] == ids[..k];
  }

  lemma {:induction false} PairsUpToAll(w: Watches, ids: seq<uint64>)
    requires (set id | id in ids) == w.Keys
    ensures forall id :: id in ids ==> id in w
    ensures PairsUpTo(w, ids) == AllPairs(w)
  {
    forall id | id in ids ensures id in w {
      assert id in set x | x in ids;
    }
    PairsUpToMembers(w, ids);
    forall p | p in AllPairs(w) ensures p in PairsUpTo(w, ids) {
      assert p.0 in w.Keys;
    }
  }

  /** `buildSnapshot`: merges the logical watches in the order of their ids. */
  method BuildEffective(provider: string, w: Watches, baseline: Option<Effective>) returns (eff: EffectiveMap)
    requires DistinctMetrics(w) && (baseline.Some? ==> baseline.value.key.kind.HeartbeatData?)
    ensures EffectiveOk(provider, w, baseline, eff)
  {
    eff := if baseline.Some? then map[baseline.value.key := baseline.value] else map[];
    var ids := SortedIds(w.Keys);
    PairsUpToAll(w, ids);
    for k := 0 to |ids|
      invariant Covers(provider, w, PairsUpTo(w, ids[..k]), baseline, eff)
    {
      PairsBefore(w, ids, k);
      eff := FoldWatch(provider, w, PairsUpTo(w, ids[..k]), baseline, eff, ids[k]);
    }
    assert ids[..|ids|] == ids;
  }
}
