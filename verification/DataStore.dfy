/** `DataManager`: a sharded, all-or-nothing batch cache that refines the plain commit log. */
module DataStore {
  import opened Base
  import opened Collections
  import opened Domain
  import opened DataLog
  import opened DataRead
  import opened DataShards
  import opened KeyOrder

  // ----- Checking a batch -----

  predicate ValueMatches(kind: ValueKind, v: MetricValue) {
    match kind
    case Int64Kind => v.Int64Value?
    case Uint64Kind => v.Uint64Value?
    case EnumKind => v.Uint64Value?
    case DoubleKind => v.DoubleValue?
    case BoolKind => v.BoolValue?
    case StringKind => v.StringValue?
  }

  predicate MeetsContract(lim: Limits, d: Descriptor, o: Observation) {
    && ValidObservation(o) && o.semanticVersion == d.semanticVersion
    && (o.value.Some? ==> ValueMatches(d.valueKind, o.value.value) && ValueBytes(o.value.value) <= lim.maxValueBytes)
  }

  /** Why `commit` refuses one observation, `seen` when its key came before. */
  function Refusal(lim: Limits, c: CatalogState, seen: bool, o: Observation): Code {
    if seen then InvalidArgument
    else if o.commitEpoch != 0 || o.catalogGeneration != c.generation || o.status.Stale? then StaleGeneration
    else if o.entity !in c.entities then StaleGeneration
    else if o.metric !in c.metrics then Code.Unsupported
    else if !MeetsContract(lim, c.metrics[o.metric], o) then InvalidArgument
    else Success
  }

  function BatchKeys(batch: seq<Observation>): set<DataKey> { set o | o in batch :: KeyOf(o) }

  /** The first refusal in a batch. */
  function FirstRefusal(lim: Limits, c: CatalogState, batch: seq<Observation>): (r: Code)
    ensures !r.PartialResult?
  {
    if batch == [] then Success
    else
      var n := |batch| - 1;
      var before := FirstRefusal(lim, c, batch[..n]);
      if !before.Success? then before else Refusal(lim, c, KeyOf(batch[n]) in BatchKeys(batch[..n]), batch[n])
  }

  lemma {:induction false} RefusalStands(lim: Limits, c: CatalogState, batch: seq<Observation>, n: nat)
    requires n <= |batch| && !FirstRefusal(lim, c, batch[..n]).Success?
    ensures FirstRefusal(lim, c, batch) == FirstRefusal(lim, c, batch[..n])
  {
    if n == |batch| {
      assert batch[..n] == batch;
    } else {
      assert batch[..|batch| - 1][..n] == batch[..n];
      RefusalStands(lim, c, batch[..|batch| - 1], n);
    }
  }

  /** An accepted batch holds each key once and only observations that meet their contract. */
  lemma {:induction false} AcceptedIsSound(lim: Limits, c: CatalogState, batch: seq<Observation>)
    requires FirstRefusal(lim, c, batch).Success?
    ensures forall i :: 0 <= i < |batch| ==>
                          && ValidObservation(batch[i]) && !batch[i].status.Stale?
                          && batch[i].catalogGeneration == c.generation
                          && batch[i].entity in c.entities && batch[i].metric in c.metrics
    ensures forall i, j :: 0 <= i < j < |batch| ==> KeyOf(batch[i]) != KeyOf(batch[j])
  {
    if batch != [] {
      var n := |batch| - 1;
      AcceptedIsSound(lim, c, batch[..n]);
      assert forall i :: 0 <= i < n ==> batch[..n][i] == batch[i] && batch[i] in batch[..n];
    }
  }

  lemma {:induction false} RefusalStep(lim: Limits, c: CatalogState, batch: seq<Observation>, o: Observation)
    ensures FirstRefusal(lim, c, batch + [o]) ==
            if !FirstRefusal(lim, c, batch).Success? then FirstRefusal(lim, c, batch)
            else Refusal(lim, c, KeyOf(o) in BatchKeys(batch), o)
    ensures BatchKeys(batch + [o]) == BatchKeys(batch) + {KeyOf(o)}
  {
    assert (batch + [o])[..|batch|] == batch;
    assert o in batch + [o];
    forall k | k in BatchKeys(batch) ensures k in BatchKeys(batch + [o]) {
      var x :| x in batch && KeyOf(x) == k;
      assert x in batch + [o];
    }
  }

  /** The first loop of `commit`. */
  method CheckBatch(lim: Limits, c: CatalogState, batch: seq<Observation>) returns (status: Code)
    ensures status == FirstRefusal(lim, c, batch)
  {
    var unique: set<DataKey> := {};
    status := Success;
    for i := 0 to |batch|
      invariant unique == BatchKeys(batch[..i]) && FirstRefusal(lim, c, batch[..i]).Success? && status.Success?
    {
      TakeStep(batch, i);
      RefusalStep(lim, c, batch[..i], batch[i]);
      status := Refusal(lim, c, KeyOf(batch[i]) in unique, batch[i]);
      if !status.Success? {
        RefusalStands(lim, c, batch, i + 1);
        return;
      }
      unique := unique + {KeyOf(batch[i])};
    }
    assert batch[..|batch|] == batch;
  }

  // ----- Staging a batch -----

  function Stamp(o: Observation, epoch: uint64): Observation { o.(commitEpoch := epoch) }

  function Stamped(batch: seq<Observation>, epoch: uint64): seq<Observation> {
    seq(|batch|, i requires 0 <= i < |batch| => Stamp(batch[i], epoch))
  }

  /** The observation is older than the last one committed for its key. */
  predicate OlderThanLog(log: seq<Observation>, o: Observation) {
    var l := LogOf(log, KeyOf(o));
    l != [] && o.observedTime < l[|l| - 1].observedTime
  }

  predicate HasFailure(batch: seq<Observation>) {
    exists i :: 0 <= i < |batch| && !batch[i].status.Valid?
  }

  /** A copy of the shards that tells `log` but for the samples `gone`. */
  ghost predicate Copy(lim: Limits, hash: Hash, n: nat, staged: seq<Shard>, log: seq<Observation>,
                       gone: seq<Observation>)
  {
    staged != [] && |staged| == n && Placed(staged, hash) && Refines(lim.history, staged, hash, log, gone)
  }

  /** The shards with a batch applied, observation by observation. */
  function Apply(h: HistoryLimits, shards: seq<Shard>, hash: Hash, batch: seq<Observation>): (r: seq<Shard>)
    requires shards != []
    ensures |r| == |shards|
  {
    if batch == [] then shards
    else
      var n := |batch| - 1;
      var s, k := Apply(h, shards, hash, batch[..n]), KeyOf(batch[n]);
      Put(s, hash, k, Update(h, Find(s, hash, k), batch[n]))
  }

  lemma {:induction false} ApplyStep(h: HistoryLimits, shards: seq<Shard>, hash: Hash, batch: seq<Observation>,
                                     o: Observation)
    requires shards != []
    ensures var s := Apply(h, shards, hash, batch);
            Apply(h, shards, hash, batch + [o]) == Put(s, hash, KeyOf(o), Update(h, Find(s, hash, KeyOf(o)), o))
  {
    assert (batch + [o])[..|batch|] == batch;
  }

  lemma {:induction false} StageStep(lim: Limits, hash: Hash, n: nat, staged: seq<Shard>, log: seq<Observation>,
                                     gone: seq<Observation>, o: Observation, k: DataKey, e: Option<Entry>)
    requires Copy(lim, hash, n, staged, log, gone) && k == KeyOf(o) && e == Find(staged, hash, k)
    ensures Backward(e, o) <==> OlderThanLog(log, o)
    ensures !Backward(e, o) ==> Copy(lim, hash, n, Put(staged, hash, k, Update(lim.history, e, o)), log + [o], gone)
  {
    assert TellsKey(lim.history, staged, hash, log, gone, k);
    if !Backward(e, o) {
      CommitOneRefines(lim.history, staged, hash, log, gone, o, k, e);
      PutPlaced(staged, hash, k, Update(lim.history, e, o));
    }
  }

  /** No observation of the batch is older than what is committed for its key before it. */
  predicate InOrder(log: seq<Observation>, batch: seq<Observation>) {
    batch == [] ||
    var n := |batch| - 1;
    InOrder(log, batch[..n]) && !OlderThanLog(log + batch[..n], batch[n])
  }

  lemma {:induction false} OrderStep(log: seq<Observation>, batch: seq<Observation>, o: Observation)
    ensures InOrder(log, batch + [o]) <==> InOrder(log, batch) && !OlderThanLog(log + batch, o)
  {
    assert (batch + [o])[..|batch|] == batch;
  }

  lemma {:induction false} DisorderStands(log: seq<Observation>, batch: seq<Observation>, n: nat)
    requires n <= |batch| && !InOrder(log, batch[..n])
    ensures !InOrder(log, batch)
  {
    if n == |batch| {
      assert batch[..n] == batch;
    } else {
      assert batch[..|batch| - 1][..n] == batch[..n];
      DisorderStands(log, batch[..|batch| - 1], n);
    }
  }

  /** `staged` is the shards with the batch applied, and tells the log with the batch. */
  ghost predicate StagedFrom(lim: Limits, hash: Hash, shards: seq<Shard>, log: seq<Observation>,
                             gone: seq<Observation>, batch: seq<Observation>, staged: seq<Shard>)
  {
    && shards != [] && staged == Apply(lim.history, shards, hash, batch)
    && Copy(lim, hash, |shards|, staged, log + batch, gone)
  }

  /** The staging loop of `commit`: applies the stamped batch to a copy, or finds an observation older
      than the latest of its key. */
  method StageBatch(lim: Limits, hash: Hash, shards: seq<Shard>, batch: seq<Observation>, ghost log: seq<Observation>,
                    ghost gone: seq<Observation>)
    returns (ok: bool, staged: seq<Shard>)
    requires Copy(lim, hash, |shards|, shards, log, gone)
    ensures ok <==> InOrder(log, batch)
    ensures ok ==> StagedFrom(lim, hash, shards, log, gone, batch, staged)
  {
    staged := shards;
    ghost var done: seq<Observation> := [];
    assert log + done == log;
    for i := 0 to |batch|
      invariant done == batch[..i] && Copy(lim, hash, |shards|, staged, log + done, gone) && InOrder(log, done)
      invariant staged == Apply(lim.history, shards, hash, done)
    {
      var o := batch[i];
      var k := KeyOf(o);
      var e := Find(staged, hash, k);
      StageStep(lim, hash, |shards|, staged, log + done, gone, o, k, e);
      ApplyStep(lim.history, shards, hash, done, o);
      OrderStep(log, done, o);
      assert log + done + [o] == log + (done + [o]);
      done := done + [o];
      TakeStep(batch, i);
      if e.Some? && o.observedTime < e.value.latest.observedTime {
        DisorderStands(log, batch, i + 1);
        return false, staged;
      }
      var next := CommitObservation(lim.history, e, o);
      staged := Put(staged, hash, k, next);
    }
    assert done == batch;
    ok := true;
  }

  method CommitObservation(h: HistoryLimits, e: Option<Entry>, o: Observation) returns (next: Entry)
    ensures next == Update(h, e, o)
  {
    var history := if e.Some? then e.value.history else [];
    if o.status.Valid? {
      history := TrimHistory(h, history + [o], o.observedTime);
      next := Entry(o, Some(o), history);
    } else {
      next := Entry(o, if e.Some? then e.value.lastValid else None, history);
    }
  }

  method SumShard(m: Shard) returns (bytes: nat)
    ensures bytes == ShardBytes(m)
  {
    bytes := 0;
    var rest := m;
    while rest != map[]
      invariant bytes + ShardBytes(rest) == ShardBytes(m)
      decreases |rest|
    {
      var k :| k in rest;
      ShardBytesSplit(rest, k);
      bytes := bytes + EntryBytes(rest[k]);
      rest := rest - {k};
    }
  }

  /** The counting loop of `commit`. */
  method Count(shards: seq<Shard>) returns (keys: nat, bytes: nat)
    ensures keys == KeyCount(shards) && bytes == TotalBytes(shards)
  {
    keys, bytes := 0, 0;
    for i := 0 to |shards|
      invariant keys == KeyCount(shards[..i]) && bytes == TotalBytes(shards[..i])
    {
      assert shards[..i + 1][..i] == shards[..i];
      var b := SumShard(shards[i]);
      keys, bytes := keys + |shards[i]|, bytes + b;
    }
    assert shards[..|shards|] == shards;
  }

  lemma {:induction false} FailureStep(s: seq<Observation>, o: Observation)
    ensures HasFailure(s + [o]) <==> HasFailure(s) || !o.status.Valid?
  {
    var t := s + [o];
    assert t[|s|] == o && forall i :: 0 <= i < |s| ==> t[i] == s[i];
  }

  method AnyFailure(batch: seq<Observation>) returns (partial: bool)
    ensures partial <==> HasFailure(batch)
  {
    for i := 0 to |batch|
      invariant forall j :: 0 <= j < i ==> batch[j].status.Valid?
    {
      if !batch[i].status.Valid? {
        return true;
      }
    }
    partial := false;
  }

  // ----- Retired entities -----

  datatype Tombstone = Tombstone(entity: EntityRef, generation: uint64)

  /** The entities of the old catalog that the new one lacks, in order. */
  function RetiredBy(old_: seq<EntityRef>, next: CatalogState): seq<Tombstone> {
    if old_ == [] then []
    else
      var n := |old_| - 1;
      RetiredBy(old_[..n], next)
      + if old_[n] in next.entities then [] else [Tombstone(old_[n], next.generation)]
  }

  function Newest(s: seq<Tombstone>, n: nat): seq<Tombstone> { if |s| <= n then s else s[|s| - n..] }

  lemma {:induction false} NewestStep(s: seq<Tombstone>, x: Tombstone, n: nat)
    ensures Newest(Newest(s, n) + [x], n) == Newest(s + [x], n)
  {}

  /** The loop of `activateCatalog` that buries retired entities and forgets the oldest graves. */
  method Bury(old_: seq<EntityRef>, next: CatalogState, max: positive, graves: seq<Tombstone>,
              ghost all: seq<Tombstone>)
    returns (r: seq<Tombstone>)
    requires graves == Newest(all, max)
    ensures r == Newest(all + RetiredBy(old_, next), max)
  {
    r := graves;
    ghost var told := all;
    assert all + [] == all;
    for i := 0 to |old_|
      invariant told == all + RetiredBy(old_[..i], next) && r == Newest(told, max)
    {
      assert old_[..i + 1][..i] == old_[..i];
      if old_[i] !in next.entities {
        var x := Tombstone(old_[i], next.generation);
        NewestStep(told, x, max);
        told := told + [x];
        r := r + [x];
        while |r| > max
          invariant Newest(r, max) == Newest(told, max) && |r| <= max + 1 && (|r| <= max ==> r == Newest(told, max))
        {
          r := r[1..];
        }
      }
    }
    assert old_[..|old_|] == old_;
  }

  // ----- The store -----

  /** All that the store holds; the log it stands for; the samples evicted for space and the entities
      retired so far. */
  datatype Contents = Contents(
    catalog: CatalogState, shards: seq<Shard>, epoch: uint64, tombstones: seq<Tombstone>, log: seq<Observation>,
    gone: seq<Observation>, retired: seq<Tombstone>)

  ghost predicate Inv(lim: Limits, hash: Hash, c: Contents) {
    && Copy(lim, hash, lim.shards, c.shards, c.log, c.gone)
    && GoodCatalog(c.catalog) && GoodLog(c.catalog, c.epoch, c.log)
    && KeyCount(c.shards) <= lim.maxKeys && TotalBytes(c.shards) <= lim.maxBytes
    && c.tombstones == Newest(c.retired, lim.maxTombstones)
  }

  lemma {:induction false} StampedIsGood(lim: Limits, c: CatalogState, epoch: uint64, log: seq<Observation>,
                                         batch: seq<Observation>)
    requires GoodLog(c, epoch, log) && FirstRefusal(lim, c, batch).Success? && epoch < UINT64_MAX
    ensures GoodLog(c, epoch + 1, log + Stamped(batch, epoch + 1))
  {
    AcceptedIsSound(lim, c, batch);
    var all := log + Stamped(batch, epoch + 1);
    forall o | o in all ensures GoodCommit(c, epoch + 1, o) {
      if o in log {
        assert GoodCommit(c, epoch, o);
      } else {
        var i :| 0 <= i < |batch| && o == Stamp(batch[i], epoch + 1);
      }
    }
  }

  function CommitGate(c: CatalogState, epoch: uint64, batch: seq<Observation>): Code {
    if batch == [] then InvalidArgument
    else if c.generation == 0 then NotInitialized
    else if c.unsupported then Code.Unsupported
    else if epoch == UINT64_MAX then Internal
    else Success
  }

  /** The outcome of a commit as far as it does not depend on sizes. */
  function CommitCheck(lim: Limits, c: CatalogState, epoch: uint64, log: seq<Observation>, batch: seq<Observation>):
    (r: Code)
    ensures !r.PartialResult? && (r.Success? ==> epoch < UINT64_MAX)
  {
    var gate := CommitGate(c, epoch, batch);
    if !gate.Success? then gate
    else if !FirstRefusal(lim, c, batch).Success? then FirstRefusal(lim, c, batch)
    else if !InOrder(log, Stamped(batch, epoch + 1)) then InvalidArgument
    else Success
  }

  /** The staged shards have few enough keys, and fit once all history that can go is gone. */
  ghost predicate Room(lim: Limits, staged: seq<Shard>) {
    KeyCount(staged) <= lim.maxKeys && TotalBytes(Floor(staged)) <= lim.maxBytes
  }

  /** The store after an accepted commit that left the shards `after`. */
  ghost function Committed(c: Contents, batch: seq<Observation>, after: seq<Shard>, dropped: seq<Observation>): Contents
    requires c.epoch < UINT64_MAX
  {
    c.(shards := after, epoch := c.epoch + 1, log := c.log + Stamped(batch, c.epoch + 1), gone := c.gone + dropped)
  }

  /** The shards `after` come from the staged ones by evicting the oldest history, and fit. */
  ghost predicate Fitted(lim: Limits, hash: Hash, log: seq<Observation>, gone: seq<Observation>, staged: seq<Shard>,
                         after: seq<Shard>, dropped: seq<Observation>)
  {
    && staged != [] && after != [] && Evicted(lim, hash, log, gone, staged, after, dropped)
    && TotalBytes(after) <= lim.maxBytes
  }

  /** How a commit of `batch` turns out: refused by the checks, refused for lack of room, or accepted
      with the batch applied and the oldest history `dropped` as far as needed. */
  ghost predicate CommitOutcome(lim: Limits, hash: Hash, c: Contents, batch: seq<Observation>, status: Code,
                                next: Contents, dropped: seq<Observation>)
    requires c.shards != []
  {
    var check := CommitCheck(lim, c.catalog, c.epoch, c.log, batch);
    if !check.Success? then status == check && next == c
    else
      var stamped := Stamped(batch, c.epoch + 1);
      var staged := Apply(lim.history, c.shards, hash, stamped);
      if !Room(lim, staged) then status.ResourceExhausted? && next == c
      else
        && status == (if HasFailure(batch) then PartialResult else Success)
        && next == Committed(c, batch, next.shards, dropped)
        && Fitted(lim, hash, c.log + stamped, c.gone, staged, next.shards, dropped)
  }

  /** What an accepted commit leaves. */
  lemma {:induction false} CommitKeeps(lim: Limits, hash: Hash, c: Contents, batch: seq<Observation>,
                                       staged: seq<Shard>, after: seq<Shard>, dropped: seq<Observation>)
    requires Inv(lim, hash, c) && c.epoch < UINT64_MAX && FirstRefusal(lim, c.catalog, batch).Success?
    requires |staged| == lim.shards && KeyCount(staged) <= lim.maxKeys
    requires Fitted(lim, hash, c.log + Stamped(batch, c.epoch + 1), c.gone, staged, after, dropped)
    ensures Inv(lim, hash, Committed(c, batch, after, dropped))
  {
    StampedIsGood(lim, c.catalog, c.epoch, c.log, batch);
  }

  lemma {:induction false} EmptyTotals(n: nat)
    ensures TotalBytes(seq(n, _ => map[])) == 0 && KeyCount(seq(n, _ => map[])) == 0
  {
    if n != 0 {
      EmptyTotals(n - 1);
      var s: seq<Shard> := seq(n, _ => map[]);
      assert s[..n - 1] == seq(n - 1, _ => map[]);
    }
  }

  lemma {:induction false} EmptyIsFine(lim: Limits, hash: Hash, c: CatalogState, epoch: uint64, retired: seq<Tombstone>)
    requires GoodCatalog(c)
    ensures Inv(lim, hash, Contents(c, seq(lim.shards, _ => map[]), epoch, Newest(retired, lim.maxTombstones), [], [],
                                    retired))
  {
    EmptyTotals(lim.shards);
  }

  /** The checks and the staging of `commit`, on a copy. */
  method Prepare(lim: Limits, hash: Hash, catalog: CatalogState, shards: seq<Shard>, epoch: uint64,
                 batch: seq<Observation>, ghost c: Contents)
    returns (status: Code, staged: seq<Shard>)
    requires Copy(lim, hash, lim.shards, c.shards, c.log, c.gone)
    requires c.catalog == catalog && c.shards == shards && c.epoch == epoch
    ensures status == CommitCheck(lim, c.catalog, c.epoch, c.log, batch)
    ensures status.Success? ==> StagedFrom(lim, hash, c.shards, c.log, c.gone, Stamped(batch, c.epoch + 1), staged)
  {
    staged := shards;
    status := CommitGate(catalog, epoch, batch);
    if status.Success? {
      status := CheckBatch(lim, catalog, batch);
      if status.Success? {
        var stamped := Stamped(batch, epoch + 1);
        assert stamped == Stamped(batch, c.epoch + 1);
        var ok;
        ok, staged := StageBatch(lim, hash, shards, stamped, c.log, c.gone);
        status := if ok then Success else InvalidArgument;
      }
    }
  }

  /** The sizes of a staged batch: counted, and history dropped until they fit. */
  method Fit(lim: Limits, hash: Hash, staged: seq<Shard>, ghost told: seq<Observation>, ghost gone: seq<Observation>)
    returns (ok: bool, after: seq<Shard>, ghost dropped: seq<Observation>)
    requires Copy(lim, hash, lim.shards, staged, told, gone)
    ensures ok <==> Room(lim, staged)
    ensures ok ==> Fitted(lim, hash, told, gone, staged, after, dropped)
  {
    var keys, bytes := Count(staged);
    after, dropped := staged, [];
    if keys > lim.maxKeys {
      return false, after, dropped;
    }
    var total;
    after, total, dropped := EvictHistory(lim, hash, staged, bytes, told, gone);
    ok := total <= lim.maxBytes;
  }

  lemma {:induction false} AcceptedOutcome(lim: Limits, hash: Hash, c: Contents, batch: seq<Observation>,
                                           staged: seq<Shard>, after: seq<Shard>, dropped: seq<Observation>)
    requires Inv(lim, hash, c) && CommitCheck(lim, c.catalog, c.epoch, c.log, batch).Success?
    requires staged == Apply(lim.history, c.shards, hash, Stamped(batch, c.epoch + 1)) && Room(lim, staged)
    requires Fitted(lim, hash, c.log + Stamped(batch, c.epoch + 1), c.gone, staged, after, dropped)
    ensures Inv(lim, hash, Committed(c, batch, after, dropped))
    ensures CommitOutcome(lim, hash, c, batch, if HasFailure(batch) then PartialResult else Success,
                          Committed(c, batch, after, dropped), dropped)
  {
    CommitKeeps(lim, hash, c, batch, staged, after, dropped);
  }

  /** The second half of `commit`: `after` is what the staged batch is trimmed to. */
  method Accept(lim: Limits, hash: Hash, staged: seq<Shard>, batch: seq<Observation>, ghost c: Contents)
    returns (status: Code, after: seq<Shard>, ghost dropped: seq<Observation>)
    requires Inv(lim, hash, c) && CommitCheck(lim, c.catalog, c.epoch, c.log, batch).Success?
    requires staged == Apply(lim.history, c.shards, hash, Stamped(batch, c.epoch + 1))
    requires Copy(lim, hash, lim.shards, staged, c.log + Stamped(batch, c.epoch + 1), c.gone)
    ensures status.ResourceExhausted? || Readable(status)
    ensures Readable(status) ==> Inv(lim, hash, Committed(c, batch, after, dropped))
    ensures CommitOutcome(lim, hash, c, batch, status,
                          if Readable(status) then Committed(c, batch, after, dropped) else c, dropped)
  {
    var ok, partial;
    ok, after, dropped := Fit(lim, hash, staged, c.log + Stamped(batch, c.epoch + 1), c.gone);
    partial := AnyFailure(batch);
    if ok {
      AcceptedOutcome(lim, hash, c, batch, staged, after, dropped);
    }
    status := if !ok then ResourceExhausted else if partial then PartialResult else Success;
  }

  /** `commit` on values; on success `after` are the new shards. */
  method CommitBatch(lim: Limits, hash: Hash, catalog: CatalogState, shards: seq<Shard>, epoch: uint64,
                     batch: seq<Observation>, ghost c: Contents)
    returns (status: Code, after: seq<Shard>, ghost dropped: seq<Observation>)
    requires Inv(lim, hash, c) && c.catalog == catalog && c.shards == shards && c.epoch == epoch
    ensures Readable(status) ==> epoch < UINT64_MAX && Inv(lim, hash, Committed(c, batch, after, dropped))
    ensures CommitOutcome(lim, hash, c, batch, status,
                          if Readable(status) then Committed(c, batch, after, dropped) else c, dropped)
  {
    after, dropped := shards, [];
    var staged;
    status, staged := Prepare(lim, hash, catalog, shards, epoch, batch, c);
    if status.Success? {
      status, after, dropped := Accept(lim, hash, staged, batch, c);
    }
  }

  // ----- A sample that eviction cannot touch -----

  const DEVICE := EntityRef(Device, 1, 1)

  function SampleAt(t: int): Observation {
    Observation(DEVICE, 1, Some(BoolValue(true)), Valid, 0, None, t, 1, 0, 1, 0, 0, SourceMetadata("p", ""), None, None,
                ErrorMetadata(Status(Success, ""), 0, false), Derivation("", [], 0, 0))
  }

  /** Room for one entry without history. */
  function TightLimits(): Limits {
    Limits(1, 1, HistoryLimits(1, 1), SIZEOF_ENTRY + 2 * ObservationBytes(SampleAt(0)), 8, 1, 1)
  }

  function EmptyStore(): Contents {
    Contents(CatalogState(1, false, [DEVICE], map[1 := Descriptor(1, BoolKind, 0)]), [map[]], 0, [], [], [], [])
  }

  lemma {:induction false} OneEntry(hash: Hash, o: Observation)
    requires o.status.Valid?
    ensures Apply(HistoryLimits(1, 1), [map[]], hash, [o]) == [map[KeyOf(o) := Entry(o, Some(o), [o])]]
  {
    assert [o][..0] == [];
    assert Update(HistoryLimits(1, 1), None, o) == Entry(o, Some(o), [o]);
    var none: Shard := map[];
    assert none[KeyOf(o) := Entry(o, Some(o), [o])] == map[KeyOf(o) := Entry(o, Some(o), [o])];
  }

  lemma {:induction false} OneEntryBytes(k: DataKey, e: Entry)
    ensures TotalBytes([map[k := e]]) == EntryBytes(e) && KeyCount([map[k := e]]) == 1
  {
    var m: Shard := map[k := e];
    ShardBytesSplit(m, k);
    assert m - {k} == map[] && [m][..0] == [];
  }

  lemma {:induction false} SampleIsChecked(t: int)
    requires 0 <= t
    ensures var c := EmptyStore(); CommitCheck(TightLimits(), c.catalog, c.epoch, c.log, [SampleAt(t)]).Success?
  {
    var o := Stamp(SampleAt(t), 1);
    var lim, c := TightLimits(), EmptyStore();
    assert [SampleAt(t)][..0] == [] && Stamped([SampleAt(t)], 1) == [o] && [o][..0] == [];
    assert BatchKeys([]) == {};
    assert SampleAt(t).entity in c.catalog.entities;
    assert ValidObservation(SampleAt(t));
    assert Refusal(lim, c.catalog, false, SampleAt(t)).Success?;
    assert FirstRefusal(lim, c.catalog, [SampleAt(t)]).Success?;
    assert InOrder([], [o]);
  }

  lemma {:induction false} EmptyStoreIsFine(hash: Hash)
    ensures Inv(TightLimits(), hash, EmptyStore())
  {
    EmptyIsFine(TightLimits(), hash, EmptyStore().catalog, 0, []);
    assert EmptyStore().shards == seq(1, _ => map[]);
  }

  lemma {:induction false} RoomForOne(o: Observation, t: int)
    requires o == Stamp(SampleAt(t), 1)
    ensures Room(TightLimits(), [map[KeyOf(o) := Entry(o, Some(o), [o])]]) <==> t < INT64_MAX
  {
    var k, e := KeyOf(o), Entry(o, Some(o), [o]);
    var m: Shard := map[k := e];
    var floored := FloorEntry(e);
    assert FloorShard(m) == map[k := floored];
    assert Floor([m]) == [map[k := floored]];
    OneEntryBytes(k, e);
    OneEntryBytes(k, floored);
    assert Stuck([o]) == if t < INT64_MAX then [] else [o];
    assert ObservationBytes(o) == ObservationBytes(SampleAt(0));
    assert HistoryBytes([o]) == ObservationBytes(o);
  }

  /** With room for one entry without history, a first sample is refused exactly at the largest time: it
      stays in the history although dropping it would make room, as it does at every other time. */
  lemma {:induction false} LargestTimeIsRefused(hash: Hash, t: int)
    requires 0 <= t <= INT64_MAX
    ensures var lim, c := TightLimits(), EmptyStore();
            && Inv(lim, hash, c) && CommitCheck(lim, c.catalog, c.epoch, c.log, [SampleAt(t)]).Success?
            && (Room(lim, Apply(lim.history, c.shards, hash, Stamped([SampleAt(t)], 1))) <==> t < INT64_MAX)
  {
    var o := Stamp(SampleAt(t), 1);
    EmptyStoreIsFine(hash);
    SampleIsChecked(t);
    assert Stamped([SampleAt(t)], 1) == [o];
    OneEntry(hash, o);
    RoomForOne(o, t);
  }

  /** An entity of a catalog snapshot, as far as the store looks at it. */
  datatype EntityRecord = EntityRecord(ref: EntityRef, target: Target)

  datatype CatalogView = CatalogView(generation: uint64, unsupported: bool, entities: seq<EntityRecord>)

  /** `checked` is the status of the target catalog's own check. */
  datatype TargetCatalog = TargetCatalog(target: Target, metrics: map<uint32, Descriptor>, checked: Code)

  predicate Activatable(r: EntityRecord, t: TargetCatalog) {
    r.target == t.target && r.ref.kind.Device? && r.ref.generation != 0
  }

  /** What the store keeps of a snapshot. */
  function StateOf(v: CatalogView, t: TargetCatalog): CatalogState {
    CatalogState(v.generation, v.unsupported,
                 seq(|v.entities|, i requires 0 <= i < |v.entities| => v.entities[i].ref), t.metrics)
  }

  lemma {:induction false} ActivatableIsGood(v: CatalogView, t: TargetCatalog)
    requires forall i :: 0 <= i < |v.entities| ==> Activatable(v.entities[i], t)
    ensures GoodCatalog(StateOf(v, t))
  {
    var c := StateOf(v, t);
    forall e | e in c.entities ensures e.kind.Device? && e.generation != 0 {
      var i :| 0 <= i < |c.entities| && c.entities[i] == e;
      assert Activatable(v.entities[i], t);
    }
  }

  class Store {
    const lim: Limits
    const hash: Hash
    var catalog: CatalogState
    var shards: seq<Shard>
    var epoch: uint64
    var tombstones: seq<Tombstone>
    ghost var log: seq<Observation>
    ghost var gone: seq<Observation>
    ghost var retired: seq<Tombstone>

    ghost function View(): Contents
      reads this
    {
      Contents(catalog, shards, epoch, tombstones, log, gone, retired)
    }

    ghost predicate Valid()
      reads this
    {
      Inv(lim, hash, View())
    }

    constructor (lim: Limits, hash: Hash)
      ensures Valid() && this.lim == lim && this.hash == hash
      ensures epoch == 0 && log == [] && retired == [] && catalog.generation == 0
    {
      this.lim, this.hash := lim, hash;
      catalog := CatalogState(0, false, [], map[]);
      shards := seq(lim.shards, _ => map[]);
      epoch, tombstones, log, gone, retired := 0, [], [], [], [];
      EmptyIsFine(lim, hash, CatalogState(0, false, [], map[]), 0, []);
    }

    /** `activateCatalog`: a newer catalog starts an empty log, and what it lacks is buried. */
    method ActivateCatalog(view: CatalogView, target: TargetCatalog) returns (status: Code)
      requires Valid()
      modifies `catalog, `shards, `tombstones, `log, `gone, `retired
      ensures Valid()
      ensures status == if view.generation == 0 then InvalidArgument
                        else if !target.checked.Success? then target.checked
                        else if exists r :: r in view.entities && !Activatable(r, target) then InvalidArgument
                        else if view.generation < old(catalog).generation then StaleGeneration
                        else Success
      ensures if status.Success? && view.generation != old(catalog).generation
              then && catalog == StateOf(view, target) && log == []
                   && retired == old(retired) + RetiredBy(old(catalog).entities, catalog)
              else View() == old(View())
    {
      if view.generation == 0 {
        return InvalidArgument;
      }
      if !target.checked.Success? {
        return target.checked;
      }
      for i := 0 to |view.entities|
        invariant forall j :: 0 <= j < i ==> Activatable(view.entities[j], target)
      {
        if !Activatable(view.entities[i], target) {
          assert view.entities[i] in view.entities;
          return InvalidArgument;
        }
      }
      if view.generation < catalog.generation {
        return StaleGeneration;
      }
      if view.generation != catalog.generation {
        ActivatableIsGood(view, target);
        Replace(StateOf(view, target));
      }
      status := Success;
    }

    method Replace(next: CatalogState)
      requires Valid() && GoodCatalog(next)
      modifies `catalog, `shards, `tombstones, `log, `gone, `retired
      ensures Valid() && catalog == next && log == []
      ensures retired == old(retired) + RetiredBy(old(catalog).entities, next)
    {
      tombstones := Bury(catalog.entities, next, lim.maxTombstones, tombstones, retired);
      retired := retired + RetiredBy(catalog.entities, next);
      catalog, shards, log, gone := next, seq(lim.shards, _ => map[]), [], [];
      EmptyIsFine(lim, hash, next, epoch, retired);
    }

    /** `commit`: all or nothing.  An accepted batch is appended to the log under the next epoch; the shards
        are the old ones with the batch applied and the oldest history evicted as far as needed, tell that
        log and keep both limits; a refused one changes nothing. */
    method Commit(batch: seq<Observation>) returns (status: Code, ghost dropped: seq<Observation>)
      requires Valid()
      modifies `shards, `epoch, `log, `gone
      ensures Valid() && CommitOutcome(lim, hash, old(View()), batch, status, View(), dropped)
    {
      var after;
      status, after, dropped := CommitBatch(lim, hash, catalog, shards, epoch, batch, View());
      if Readable(status) {
        Install(after, Committed(View(), batch, after, dropped));
      }
    }

    method Install(after: seq<Shard>, ghost next: Contents)
      requires epoch < UINT64_MAX
      requires next == View().(shards := after, epoch := epoch + 1, log := next.log, gone := next.gone)
      modifies `shards, `epoch, `log, `gone
      ensures View() == next
    {
      shards, epoch, log, gone := after, epoch + 1, next.log, next.gone;
    }

    /** One key of `readLatest`, from its shard. */
    method LookUp(k: DataKey, allowStale: bool, now: int) returns (r: Looked)
      requires Valid()
      ensures r == Look(catalog, epoch, LogOf(log, k), k, allowStale, now)
    {
      assert TellsKey(lim.history, shards, hash, log, gone, k);
      var entity := FindEntity(catalog.entities, k.entity);
      if entity.None? {
        return Failed(NotFound);
      }
      if entity.value != k.entity {
        return Failed(StaleGeneration);
      }
      if k.metric !in catalog.metrics {
        return Item(Missing(k, 0, catalog.generation, epoch, now, Code.Unsupported, ObservationStatus.Unsupported,
                            "metric is not in active catalog"));
      }
      var stored := Find(shards, hash, k);
      if stored.None? {
        return Item(Missing(k, catalog.metrics[k.metric].semanticVersion, catalog.generation, epoch, now, Unavailable,
                            NotAvailable, "metric has not been sampled"));
      }
      var latest, valid := stored.value.latest, stored.value.lastValid;
      if !latest.status.Valid? && allowStale && valid.Some? {
        if now < valid.value.observedTime {
          return Failed(InvalidArgument);
        }
        return Item(Relabelled(valid.value, latest, now));
      }
      r := Item(latest);
    }

    /** `readLatest` answers from the shards what the log tells. */
    method ReadLatest(keys: seq<DataKey>, allowStale: bool, now: int, required: uint64)
      returns (status: Code, items: seq<Observation>)
      requires Valid()
      ensures match ReadSpec(catalog, lim.maxQuery, epoch, log, keys, allowStale, now, required)
              case Refused(code) => status == code && items == []
              case Items(xs) => items == xs && status == if HasFailure(xs) then PartialResult else Success
    {
      items := [];
      status := ReadGate(catalog, lim.maxQuery, keys, now, required);
      if !status.Success? {
        return;
      }
      var sorted := SortKeys(keys);
      var partial := false;
      for i := 0 to |sorted|
        invariant LookAll(catalog, epoch, log, sorted[..i], allowStale, now) == Items(items)
        invariant partial <==> HasFailure(items)
      {
        TakeStep(sorted, i);
        LookAllStep(catalog, epoch, log, sorted[..i], sorted[i], allowStale, now);
        var r := LookUp(sorted[i], allowStale, now);
        if r.Failed? {
          LookAllRefused(catalog, epoch, log, sorted, i + 1, allowStale, now);
          return r.status, [];
        }
        FailureStep(items, r.o);
        items := items + [r.o];
        partial := partial || !r.o.status.Valid?;
      }
      assert sorted[..|sorted|] == sorted;
      status := if partial then PartialResult else Success;
    }

    /** `history`: the consecutive valid commits of one key that end in the last one and are within both
        limits, except for what was evicted for space. */
    method History(k: DataKey) returns (status: Code, samples: seq<Observation>)
      requires Valid()
      ensures status == if catalog.generation == 0 then NotInitialized
                        else if LogOf(log, k) == [] then NotFound else Success
      ensures status.Success? ==>
                var v := Valids(LogOf(log, k));
                && Suffix(samples, v) && KeptFrom(lim.history, v, |v| - |samples|, gone)
                && Rising(samples) && WithinLimits(lim.history, samples)
                && (samples != [] ==> LastOf(v) == Some(samples[|samples| - 1]))
    {
      samples := [];
      if catalog.generation == 0 {
        return NotInitialized, samples;
      }
      assert TellsKey(lim.history, shards, hash, log, gone, k);
      var stored := Find(shards, hash, k);
      if stored.None? {
        return NotFound, samples;
      }
      HistoryIs(lim.history, stored.value, LogOf(log, k), gone);
      status, samples := Success, stored.value.history;
    }
  }
}
