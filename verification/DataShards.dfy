/** The shards of the data store: where entries lie, how many bytes they take, and how the oldest history
    is evicted to keep the global byte limit. */
module DataShards {
  import opened Base
  import opened Domain
  import opened DataLog

  type Shard = map<DataKey, Entry>

  /** Any assignment of keys to shards will do. */
  type Hash = DataKey -> nat

  datatype Limits = Limits(
    shards: positive, maxKeys: positive, history: HistoryLimits, maxBytes: positive, maxValueBytes: positive,
    maxQuery: positive, maxTombstones: positive)

  // ----- Shards -----

  function Index(hash: Hash, n: positive, k: DataKey): nat { hash(k) % n }

  function Find(shards: seq<Shard>, hash: Hash, k: DataKey): Option<Entry>
    requires shards != []
  {
    var shard := shards[Index(hash, |shards|, k)];
    if k in shard then Some(shard[k]) else None
  }

  function Put(shards: seq<Shard>, hash: Hash, k: DataKey, e: Entry): seq<Shard>
    requires shards != []
  {
    var i := Index(hash, |shards|, k);
    shards[i := shards[i][k := e]]
  }

  /** Every key lies in its own shard. */
  ghost predicate Placed(shards: seq<Shard>, hash: Hash)
    requires shards != []
  {
    forall i, k :: 0 <= i < |shards| && k in shards[i] ==> Index(hash, |shards|, k) == i
  }

  lemma {:induction false} PutFind(shards: seq<Shard>, hash: Hash, k: DataKey, e: Entry, j: DataKey)
    requires shards != []
    ensures Find(Put(shards, hash, k, e), hash, j) == if j == k then Some(e) else Find(shards, hash, j)
  {}

  lemma {:induction false} PutPlaced(shards: seq<Shard>, hash: Hash, k: DataKey, e: Entry)
    requires shards != [] && Placed(shards, hash)
    ensures Placed(Put(shards, hash, k, e), hash)
  {}

  /** The shards tell the log of one key ... */
  ghost predicate TellsKey(h: HistoryLimits, shards: seq<Shard>, hash: Hash, log: seq<Observation>,
                           gone: seq<Observation>, k: DataKey)
    requires shards != []
  {
    EntryInv(h, Find(shards, hash, k), LogOf(log, k), gone)
  }

  /** ... and of every key, but for the samples `gone` for space. */
  ghost predicate Refines(h: HistoryLimits, shards: seq<Shard>, hash: Hash, log: seq<Observation>,
                          gone: seq<Observation>)
    requires shards != []
  {
    forall k :: TellsKey(h, shards, hash, log, gone, k)
  }

  /** Replacing one entry by one that tells its key's new log. */
  lemma {:induction false} PutRefines(h: HistoryLimits, shards: seq<Shard>, hash: Hash, log: seq<Observation>,
                                      gone: seq<Observation>, next: seq<Observation>, more: seq<Observation>,
                                      k: DataKey, e: Entry)
    requires shards != [] && Refines(h, shards, hash, log, gone) && EntryInv(h, Some(e), LogOf(next, k), gone + more)
    requires forall j :: j != k ==> LogOf(next, j) == LogOf(log, j)
    ensures Refines(h, Put(shards, hash, k, e), hash, next, gone + more)
  {
    forall j ensures TellsKey(h, Put(shards, hash, k, e), hash, next, gone + more, j) {
      PutFind(shards, hash, k, e, j);
      assert TellsKey(h, shards, hash, log, gone, j);
      MoreGone(h, Find(shards, hash, j), LogOf(log, j), gone, more);
    }
  }

  lemma {:induction false} CommitOneRefines(h: HistoryLimits, shards: seq<Shard>, hash: Hash, log: seq<Observation>,
                                            gone: seq<Observation>, o: Observation, k: DataKey, e: Option<Entry>)
    requires shards != [] && Refines(h, shards, hash, log, gone) && k == KeyOf(o) && e == Find(shards, hash, k)
    requires !Backward(e, o)
    ensures Refines(h, Put(shards, hash, k, Update(h, e, o)), hash, log + [o], gone)
  {
    assert TellsKey(h, shards, hash, log, gone, k);
    UpdateTells(h, e, LogOf(log, k), o, gone);
    forall j ensures LogOf(log + [o], j) == LogOf(log, j) + if k == j then [o] else [] { LogOfStep(log, o, j); }
    assert gone + [] == gone;
    PutRefines(h, shards, hash, log, gone, log + [o], [], k, Update(h, e, o));
  }

  // ----- Bytes -----

  const SIZEOF_ENTRY: positive

  function ObservationBytes(o: Observation): positive {
    SIZEOF_OBSERVATION + (if o.value.Some? then ValueBytes(o.value.value) else 0)
    + |o.source.provider| + |o.source.nativeSource| + |o.error.status.message| + |o.derivation.processorId|
    + 8 * |o.derivation.inputSequences|
    + if o.latestFailure.Some? then |o.latestFailure.value.status.message| else 0
  }

  function HistoryBytes(h: seq<Observation>): nat {
    if h == [] then 0 else ObservationBytes(h[0]) + HistoryBytes(h[1..])
  }

  function EntryBytes(e: Entry): positive {
    SIZEOF_ENTRY + ObservationBytes(e.latest)
    + (if e.lastValid.Some? then ObservationBytes(e.lastValid.value) else 0) + HistoryBytes(e.history)
  }

  ghost function ShardBytes(m: Shard): nat {
    if m == map[] then 0
    else
      var k :| k in m;
      EntryBytes(m[k]) + ShardBytes(m - {k})
  }

  /** The sum does not depend on the order in which the keys are taken. */
  lemma {:induction false} ShardBytesSplit(m: Shard, k: DataKey)
    requires k in m
    ensures ShardBytes(m) == EntryBytes(m[k]) + ShardBytes(m - {k})
    decreases |m|
  {
    var j :| j in m && ShardBytes(m) == EntryBytes(m[j]) + ShardBytes(m - {j});
    if j != k {
      ShardBytesSplit(m - {j}, k);
      ShardBytesSplit(m - {k}, j);
      assert m - {j} - {k} == m - {k} - {j};
    }
  }

  lemma {:induction false} ShardBytesUpdate(m: Shard, k: DataKey, e: Entry)
    requires k in m
    ensures ShardBytes(m[k := e]) == ShardBytes(m) - EntryBytes(m[k]) + EntryBytes(e)
  {
    ShardBytesSplit(m, k);
    ShardBytesSplit(m[k := e], k);
    assert m[k := e] - {k} == m - {k};
  }

  ghost function TotalBytes(shards: seq<Shard>): nat {
    if shards == [] then 0 else TotalBytes(shards[..|shards| - 1]) + ShardBytes(shards[|shards| - 1])
  }

  lemma {:induction false} TotalUpdate(shards: seq<Shard>, i: nat, m: Shard)
    requires i < |shards|
    ensures TotalBytes(shards[i := m]) == TotalBytes(shards) - ShardBytes(shards[i]) + ShardBytes(m)
  {
    var n := |shards| - 1;
    if i < n {
      TotalUpdate(shards[..n], i, m);
      assert shards[i := m][..n] == shards[..n][i := m];
    } else {
      assert shards[i := m][..n] == shards[..n];
    }
  }

  function KeyCount(shards: seq<Shard>): nat {
    if shards == [] then 0 else KeyCount(shards[..|shards| - 1]) + |shards[|shards| - 1]|
  }

  // ----- Evicting history -----

  predicate Evictable(e: Entry) { e.history != [] && e.history[0].observedTime < INT64_MAX }

  function Popped(e: Entry): Entry
    requires e.history != []
  {
    e.(history := e.history[1..])
  }

  lemma {:induction false} PopBytes(shards: seq<Shard>, hash: Hash, k: DataKey, e: Entry)
    requires shards != [] && Find(shards, hash, k) == Some(e) && e.history != []
    ensures TotalBytes(Put(shards, hash, k, Popped(e))) == TotalBytes(shards) - ObservationBytes(e.history[0])
  {
    var i := Index(hash, |shards|, k);
    ShardBytesUpdate(shards[i], k, Popped(e));
    TotalUpdate(shards, i, shards[i][k := Popped(e)]);
  }

  /** Samples of a history belong to its key. */
  lemma {:induction false} HistoryOfKey(h: HistoryLimits, shards: seq<Shard>, hash: Hash, log: seq<Observation>,
                                        gone: seq<Observation>, k: DataKey, o: Observation)
    requires shards != [] && Refines(h, shards, hash, log, gone)
    requires Find(shards, hash, k).Some? && o in Find(shards, hash, k).value.history
    ensures KeyOf(o) == k
  {
    assert TellsKey(h, shards, hash, log, gone, k);
    assert o in Valids(LogOf(log, k));
    ValidsMembers(LogOf(log, k), o);
    LogOfMembers(log, k, o);
  }

  lemma {:induction false} PopRefines(h: HistoryLimits, shards: seq<Shard>, hash: Hash, log: seq<Observation>,
                                      gone: seq<Observation>, k: DataKey, e: Entry)
    requires shards != [] && Refines(h, shards, hash, log, gone) && Find(shards, hash, k) == Some(e) && e.history != []
    ensures Refines(h, Put(shards, hash, k, Popped(e)), hash, log, gone + [e.history[0]])
  {
    assert TellsKey(h, shards, hash, log, gone, k);
    EvictTells(h, e, LogOf(log, k), gone);
    PutRefines(h, shards, hash, log, gone, log, [e.history[0]], k, Popped(e));
  }

  /** No history sample that is kept is older than time `t`. */
  ghost predicate AllFrom(shards: seq<Shard>, hash: Hash, t: int)
    requires shards != []
  {
    forall k :: KeyFrom(Find(shards, hash, k), t)
  }

  ghost predicate KeyFrom(e: Option<Entry>, t: int) {
    e.Some? ==> forall i :: 0 <= i < |e.value.history| ==> t <= e.value.history[i].observedTime
  }

  /** The sample at the front of `k` is as old as any sample kept. */
  ghost predicate OldestAt(shards: seq<Shard>, hash: Hash, k: DataKey)
    requires shards != []
  {
    && Find(shards, hash, k).Some? && Evictable(Find(shards, hash, k).value)
    && forall j :: Find(shards, hash, j).Some? && Evictable(Find(shards, hash, j).value) ==>
                     Find(shards, hash, k).value.history[0].observedTime
                     <= Find(shards, hash, j).value.history[0].observedTime
  }

  lemma {:induction false} OldestIsOldest(h: HistoryLimits, shards: seq<Shard>, hash: Hash, log: seq<Observation>,
                                          gone: seq<Observation>, k: DataKey)
    requires shards != [] && Refines(h, shards, hash, log, gone) && OldestAt(shards, hash, k)
    ensures AllFrom(shards, hash, Find(shards, hash, k).value.history[0].observedTime)
  {
    var t := Find(shards, hash, k).value.history[0].observedTime;
    forall j ensures KeyFrom(Find(shards, hash, j), t) {
      assert TellsKey(h, shards, hash, log, gone, j);
      if Find(shards, hash, j).Some? {
        var e := Find(shards, hash, j).value;
        HistoryIs(h, e, LogOf(log, j), gone);
      }
    }
  }

  lemma {:induction false} PopFrom(shards: seq<Shard>, hash: Hash, k: DataKey, e: Entry, t: int)
    requires shards != [] && Find(shards, hash, k) == Some(e) && e.history != [] && AllFrom(shards, hash, t)
    ensures AllFrom(Put(shards, hash, k, Popped(e)), hash, t)
  {
    var next := Put(shards, hash, k, Popped(e));
    forall j ensures KeyFrom(Find(next, hash, j), t) {
      PutFind(shards, hash, k, Popped(e), j);
      assert KeyFrom(Find(shards, hash, j), t);
    }
  }

  lemma {:induction false} HistoryBytesStep(h: seq<Observation>, o: Observation)
    ensures HistoryBytes(h + [o]) == HistoryBytes(h) + ObservationBytes(o)
  {
    if h != [] {
      HistoryBytesStep(h[1..], o);
      assert (h + [o])[1..] == h[1..] + [o];
    }
  }

  lemma {:induction false} KeyCountUpdate(shards: seq<Shard>, i: nat, m: Shard)
    requires i < |shards| && |m| == |shards[i]|
    ensures KeyCount(shards[i := m]) == KeyCount(shards)
  {
    var n := |shards| - 1;
    if i < n {
      KeyCountUpdate(shards[..n], i, m);
      assert shards[i := m][..n] == shards[..n][i := m];
    } else {
      assert shards[i := m][..n] == shards[..n];
    }
  }

  lemma {:induction false} SameSize(m: Shard, k: DataKey, e: Entry)
    requires k in m
    ensures |m[k := e]| == |m|
  {
    assert m[k := e].Keys == m.Keys;
  }

  /** The oldest front of a shard below `limit`. */
  method OldestInShard(m: Shard, limit: int) returns (best: Option<DataKey>, time: int)
    requires limit <= INT64_MAX
    ensures time <= limit
    ensures best.Some? ==> best.value in m && Evictable(m[best.value]) && m[best.value].history[0].observedTime == time
    ensures best.None? ==> time == limit
    ensures forall k :: k in m && Evictable(m[k]) ==> time <= m[k].history[0].observedTime
  {
    best, time := None, limit;
    var rest := m.Keys;
    while rest != {}
      invariant rest <= m.Keys && time <= limit
      invariant best.Some? ==>
                  best.value in m && Evictable(m[best.value]) && m[best.value].history[0].observedTime == time
      invariant best.None? ==> time == limit
      invariant forall k :: k in m && k !in rest && Evictable(m[k]) ==> time <= m[k].history[0].observedTime
      decreases |rest|
    {
      var k :| k in rest;
      rest := rest - {k};
      if m[k].history != [] && m[k].history[0].observedTime < time {
        best, time := Some(k), m[k].history[0].observedTime;
      }
    }
  }

  /** The double loop that looks for the oldest history sample in any shard. */
  method FindOldest(shards: seq<Shard>, hash: Hash) returns (best: Option<DataKey>)
    requires shards != [] && Placed(shards, hash)
    ensures best.Some? ==> OldestAt(shards, hash, best.value)
    ensures best.None? ==> forall k :: Find(shards, hash, k).Some? ==> !Evictable(Find(shards, hash, k).value)
  {
    best := None;
    var time := INT64_MAX;
    for i := 0 to |shards|
      invariant time <= INT64_MAX && (best.None? ==> time == INT64_MAX)
      invariant best.Some? ==>
                  && Find(shards, hash, best.value).Some? && Evictable(Find(shards, hash, best.value).value)
                  && Find(shards, hash, best.value).value.history[0].observedTime == time
      invariant forall j, k :: 0 <= j < i && k in shards[j] && Evictable(shards[j][k]) ==>
                                 time <= shards[j][k].history[0].observedTime
    {
      var found, t := OldestInShard(shards[i], time);
      if found.Some? {
        best, time := found, t;
      }
    }
  }

  // ----- What eviction can reach -----

  /** The part of a history that byte eviction cannot touch. */
  function Stuck(h: seq<Observation>): seq<Observation> {
    if h != [] && h[0].observedTime < INT64_MAX then Stuck(h[1..]) else h
  }

  function FloorEntry(e: Entry): Entry { e.(history := Stuck(e.history)) }

  function FloorShard(m: Shard): Shard { map k | k in m :: FloorEntry(m[k]) }

  /** The shards without any history that can be evicted. */
  function Floor(shards: seq<Shard>): seq<Shard> {
    seq(|shards|, i requires 0 <= i < |shards| => FloorShard(shards[i]))
  }

  lemma {:induction false} PopFloor(shards: seq<Shard>, hash: Hash, k: DataKey, e: Entry)
    requires shards != [] && Find(shards, hash, k) == Some(e) && Evictable(e)
    ensures Floor(Put(shards, hash, k, Popped(e))) == Floor(shards)
  {
    var next, i := Put(shards, hash, k, Popped(e)), Index(hash, |shards|, k);
    assert FloorEntry(Popped(e)) == FloorEntry(e);
    assert FloorShard(next[i]) == FloorShard(shards[i]);
    forall j | 0 <= j < |shards| ensures FloorShard(next[j]) == FloorShard(shards[j]) {}
  }

  lemma {:induction false} StuckBytes(h: seq<Observation>)
    ensures HistoryBytes(Stuck(h)) <= HistoryBytes(h)
  {
    if h != [] && h[0].observedTime < INT64_MAX {
      StuckBytes(h[1..]);
    }
  }

  lemma {:induction false} FloorShardBytes(m: Shard)
    ensures ShardBytes(FloorShard(m)) <= ShardBytes(m)
    decreases |m|
  {
    if m == map[] {
      assert FloorShard(m) == map[];
    } else {
      var k :| k in m;
      ShardBytesSplit(m, k);
      ShardBytesSplit(FloorShard(m), k);
      assert FloorShard(m) - {k} == FloorShard(m - {k});
      StuckBytes(m[k].history);
      FloorShardBytes(m - {k});
    }
  }

  lemma {:induction false} FloorBytes(shards: seq<Shard>)
    ensures TotalBytes(Floor(shards)) <= TotalBytes(shards)
  {
    if shards != [] {
      var n := |shards| - 1;
      FloorBytes(shards[..n]);
      FloorShardBytes(shards[n]);
      assert Floor(shards)[..n] == Floor(shards[..n]);
    }
  }

  /** Nothing can be evicted exactly from a floor. */
  lemma {:induction false} FloorIsFixed(shards: seq<Shard>, hash: Hash)
    requires shards != [] && Placed(shards, hash)
    requires forall k :: Find(shards, hash, k).Some? ==> !Evictable(Find(shards, hash, k).value)
    ensures Floor(shards) == shards
  {
    forall i | 0 <= i < |shards| ensures FloorShard(shards[i]) == shards[i] {
      forall k | k in shards[i] ensures FloorEntry(shards[i][k]) == shards[i][k] {
        assert Find(shards, hash, k) == Some(shards[i][k]);
      }
    }
  }

  // ----- What was evicted -----

  /** What eviction did to one key: a run `lost` from the front of its history is missing, all else is
      as it was. */
  ghost predicate KeyEvicted(before: Option<Entry>, after: Option<Entry>, lost: seq<Observation>) {
    if before.None? then after.None? && lost == []
    else after.Some? && after.value == before.value.(history := after.value.history)
         && before.value.history == lost + after.value.history
  }

  ghost predicate EvictedAt(hash: Hash, before: seq<Shard>, after: seq<Shard>, dropped: seq<Observation>, k: DataKey)
    requires before != [] && after != []
  {
    KeyEvicted(Find(before, hash, k), Find(after, hash, k), LogOf(dropped, k))
  }

  /** `dropped` lists what each key has lost. */
  ghost predicate Lost(hash: Hash, before: seq<Shard>, after: seq<Shard>, dropped: seq<Observation>)
    requires before != [] && after != []
  {
    forall k :: EvictedAt(hash, before, after, dropped, k)
  }

  /** What evicting leaves: `dropped` is exactly what the histories have lost from their fronts, oldest
      first; no sample lost is newer than any kept anywhere; nothing was dropped without need; the
      running total is exact; and the same log is told. */
  ghost predicate Evicted(lim: Limits, hash: Hash, log: seq<Observation>, gone: seq<Observation>, before: seq<Shard>,
                          after: seq<Shard>, dropped: seq<Observation>)
    requires before != [] && after != []
  {
    && |after| == |before| && Placed(after, hash) && Refines(lim.history, after, hash, log, gone + dropped)
    && KeyCount(after) == KeyCount(before) && Floor(after) == Floor(before) && Lost(hash, before, after, dropped)
    && TotalBytes(before) == TotalBytes(after) + HistoryBytes(dropped)
    && Rising(dropped) && (forall i :: 0 <= i < |dropped| ==> AllFrom(after, hash, dropped[i].observedTime))
    && (dropped != [] ==> TotalBytes(after) + ObservationBytes(dropped[|dropped| - 1]) > lim.maxBytes)
  }

  lemma {:induction false} NothingLost(hash: Hash, shards: seq<Shard>)
    requires shards != []
    ensures Lost(hash, shards, shards, [])
  {
    forall k ensures EvictedAt(hash, shards, shards, [], k) {
      if Find(shards, hash, k).Some? {
        var h := Find(shards, hash, k).value.history;
        assert h == [] + h;
      }
    }
  }

  lemma {:induction false} LoseOne(hash: Hash, before: seq<Shard>, after: seq<Shard>, dropped: seq<Observation>,
                                   k: DataKey, e: Entry)
    requires before != [] && after != [] && Lost(hash, before, after, dropped)
    requires Find(after, hash, k) == Some(e) && e.history != [] && KeyOf(e.history[0]) == k
    ensures Lost(hash, before, Put(after, hash, k, Popped(e)), dropped + [e.history[0]])
  {
    var next, x := Put(after, hash, k, Popped(e)), e.history[0];
    forall j ensures EvictedAt(hash, before, next, dropped + [x], j) {
      assert EvictedAt(hash, before, after, dropped, j);
      PutFind(after, hash, k, Popped(e), j);
      LogOfStep(dropped, x, j);
      if j == k {
        assert e.history == [x] + Popped(e).history;
        assert LogOf(dropped, k) + [x] + Popped(e).history == LogOf(dropped, k) + ([x] + Popped(e).history);
      } else {
        assert LogOf(dropped, j) + [] == LogOf(dropped, j);
      }
    }
  }

  lemma {:induction false} DroppedRise(hash: Hash, after: seq<Shard>, dropped: seq<Observation>, k: DataKey, e: Entry)
    requires after != [] && Rising(dropped) && Find(after, hash, k) == Some(e) && e.history != []
    requires forall i :: 0 <= i < |dropped| ==> AllFrom(after, hash, dropped[i].observedTime)
    ensures Rising(dropped + [e.history[0]])
  {
    forall i | 0 <= i < |dropped| ensures dropped[i].observedTime <= e.history[0].observedTime {
      assert AllFrom(after, hash, dropped[i].observedTime);
      assert KeyFrom(Find(after, hash, k), dropped[i].observedTime);
    }
  }

  lemma {:induction false} EvictStep(lim: Limits, hash: Hash, log: seq<Observation>, gone: seq<Observation>,
                                     before: seq<Shard>, after: seq<Shard>, dropped: seq<Observation>, k: DataKey,
                                     e: Entry)
    requires before != [] && after != [] && Evicted(lim, hash, log, gone, before, after, dropped)
    requires OldestAt(after, hash, k) && Find(after, hash, k) == Some(e) && TotalBytes(after) > lim.maxBytes
    ensures Evicted(lim, hash, log, gone, before, Put(after, hash, k, Popped(e)), dropped + [e.history[0]])
  {
    var next, x := Put(after, hash, k, Popped(e)), e.history[0];
    PutPlaced(after, hash, k, Popped(e));
    PopRefines(lim.history, after, hash, log, gone + dropped, k, e);
    assert gone + dropped + [x] == gone + (dropped + [x]);
    HistoryOfKey(lim.history, after, hash, log, gone + dropped, k, x);
    LoseOne(hash, before, after, dropped, k, e);
    PopFloor(after, hash, k, e);
    PopBytes(after, hash, k, e);
    HistoryBytesStep(dropped, x);
    var i := Index(hash, |after|, k);
    SameSize(after[i], k, Popped(e));
    KeyCountUpdate(after, i, after[i][k := Popped(e)]);
    OldestIsOldest(lim.history, after, hash, log, gone + dropped, k);
    DroppedRise(hash, after, dropped, k, e);
    forall j | 0 <= j < |dropped| + 1 ensures AllFrom(next, hash, (dropped + [x])[j].observedTime) {
      PopFrom(after, hash, k, e, (dropped + [x])[j].observedTime);
    }
  }

  /** The eviction loop of `commit`. */
  method EvictHistory(lim: Limits, hash: Hash, before: seq<Shard>, bytes: nat, ghost log: seq<Observation>,
                      ghost gone: seq<Observation>)
    returns (after: seq<Shard>, total: nat, ghost dropped: seq<Observation>)
    requires before != [] && Placed(before, hash) && Refines(lim.history, before, hash, log, gone)
    requires bytes == TotalBytes(before)
    ensures after != [] && Evicted(lim, hash, log, gone, before, after, dropped) && total == TotalBytes(after)
    ensures total <= lim.maxBytes <==> TotalBytes(Floor(before)) <= lim.maxBytes
  {
    after, total, dropped := before, bytes, [];
    NothingLost(hash, before);
    assert gone + [] == gone;
    while total > lim.maxBytes
      invariant after != [] && Evicted(lim, hash, log, gone, before, after, dropped) && total == TotalBytes(after)
      decreases total
    {
      var best := FindOldest(after, hash);
      if best.None? {
        FloorIsFixed(after, hash);
        return;
      }
      var k := best.value;
      var e := Find(after, hash, k).value;
      EvictStep(lim, hash, log, gone, before, after, dropped, k, e);
      PopBytes(after, hash, k, e);
      total := total - ObservationBytes(e.history[0]);
      dropped := dropped + [e.history[0]];
      after := Put(after, hash, k, Popped(e));
    }
    FloorBytes(after);
  }
}
