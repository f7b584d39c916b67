/** `QueryEngine`: consistency levels, the fresh-read decision and the truncation of answers. */
module Query {
  import opened Base
  import opened Domain
  import opened DataLog
  import opened DataRead
  import opened KeyOrder
  import opened Collections

  datatype ReadPolicy = CacheOnly | CacheOrFresh | FreshRequired

  datatype Consistency = BestEffort | AtLeastEpoch | SameBatch

  datatype Limits = Limits(maxItems: positive, maxBytes: positive)

  datatype Request = Request(
    selection: seq<DataKey>, policy: ReadPolicy, consistency: Consistency, requiredEpoch: uint64, maxItems: uint64,
    maxBytes: uint64, maxAge: uint64)

  /** What one `readLatest` returned. */
  datatype Snapshot = Snapshot(status: Code, generation: uint64, epoch: uint64, items: seq<Observation>)

  datatype Result = Result(
    status: Code, generation: uint64, epoch: uint64, requiredItems: nat, requiredBytes: uint64, truncated: bool,
    items: seq<Observation>)

  // ----- Sizes -----

  const SIZEOF_ERROR: positive

  function ItemBytes(o: Observation): positive {
    SIZEOF_OBSERVATION + |o.source.provider| + |o.source.nativeSource| + |o.error.status.message|
    + |o.derivation.processorId| + 8 * |o.derivation.inputSequences|
    + (if o.latestFailure.Some? then SIZEOF_ERROR + |o.latestFailure.value.status.message| else 0)
    + if o.value.Some? then ValueBytes(o.value.value) else 0
  }

  function Bytes(items: seq<Observation>): nat {
    if items == [] then 0 else Bytes(items[..|items| - 1]) + ItemBytes(items[|items| - 1])
  }

  lemma {:induction false} BytesStep(items: seq<Observation>, i: nat)
    requires i < |items|
    ensures Bytes(items[..i + 1]) == Bytes(items[..i]) + ItemBytes(items[i])
  {
    assert items[..i + 1][..i] == items[..i];
  }

  lemma {:induction false} BytesGrow(items: seq<Observation>, i: nat, j: nat)
    requires i <= j <= |items|
    ensures Bytes(items[..i]) <= Bytes(items[..j]) && (i < j ==> Bytes(items[..i]) < Bytes(items[..j]))
  {
    if i < j {
      BytesGrow(items, i, j - 1);
      BytesStep(items, j - 1);
    }
  }

  /** An object in memory is smaller than the address space. */
  ghost predicate Representable(items: seq<Observation>) {
    forall i :: 0 <= i < |items| ==> ItemBytes(items[i]) <= UINT64_MAX
  }

  // ----- Truncation -----

  /** The first `n` items stay within both limits. */
  predicate Fits(items: seq<Observation>, maxItems: nat, maxBytes: nat, n: nat)
    requires n <= |items|
  {
    n <= maxItems && Bytes(items[..n]) <= maxBytes
  }

  /** `n` is the length of the longest prefix within both limits. */
  ghost predicate LongestFit(items: seq<Observation>, maxItems: nat, maxBytes: nat, n: nat) {
    n <= |items| && forall m :: 0 <= m <= |items| ==> (Fits(items, maxItems, maxBytes, m) <==> m <= n)
  }

  lemma {:induction false} StopIsLongest(items: seq<Observation>, maxItems: nat, maxBytes: nat, n: nat)
    requires n <= |items| && Fits(items, maxItems, maxBytes, n)
    requires n < |items| ==> !Fits(items, maxItems, maxBytes, n + 1)
    ensures LongestFit(items, maxItems, maxBytes, n)
  {
    forall m | 0 <= m <= |items| ensures Fits(items, maxItems, maxBytes, m) <==> m <= n {
      if m <= n {
        BytesGrow(items, m, n);
      } else {
        BytesGrow(items, n + 1, m);
      }
    }
  }

  /** The loop that adds up the size of the whole answer, stopping before the sum wraps. */
  method RequiredBytes(items: seq<Observation>) returns (ok: bool, bytes: uint64)
    requires Representable(items)
    ensures ok <==> Bytes(items) <= UINT64_MAX
    ensures ok ==> bytes == Bytes(items)
  {
    bytes := 0;
    for i := 0 to |items|
      invariant bytes == Bytes(items[..i])
    {
      BytesStep(items, i);
      if bytes > UINT64_MAX - ItemBytes(items[i]) {
        BytesGrow(items, i + 1, |items|);
        assert items[..|items|] == items;
        return false, bytes;
      }
      bytes := bytes + ItemBytes(items[i]);
    }
    assert items[..|items|] == items;
    ok := true;
  }

  /** The loop that takes items while they fit; no intermediate value wraps. */
  method TakeFitting(items: seq<Observation>, maxItems: uint64, maxBytes: uint64) returns (n: nat)
    requires Representable(items)
    ensures LongestFit(items, maxItems, maxBytes, n)
  {
    var returned: uint64 := 0;
    n := 0;
    while n < |items|
      invariant n <= |items| && returned == Bytes(items[..n]) && Fits(items, maxItems, maxBytes, n)
    {
      BytesStep(items, n);
      var room: uint64 := maxBytes - returned;
      if n == maxItems || ItemBytes(items[n]) > room {
        StopIsLongest(items, maxItems, maxBytes, n);
        return;
      }
      returned := returned + ItemBytes(items[n]);
      n := n + 1;
    }
    StopIsLongest(items, maxItems, maxBytes, n);
  }

  // ----- Consistency -----

  predicate AllFrom(items: seq<Observation>, epoch: uint64) {
    forall i :: 0 <= i < |items| ==> epoch <= items[i].commitEpoch
  }

  predicate OneBatch(items: seq<Observation>) {
    forall i :: 0 <= i < |items| ==> items[i].commitEpoch == items[0].commitEpoch
  }

  /** What a consistency level promises of the items. */
  predicate Consistent(q: Request, items: seq<Observation>) {
    match q.consistency
    case BestEffort => true
    case AtLeastEpoch => AllFrom(items, q.requiredEpoch)
    case SameBatch => OneBatch(items)
  }

  /** What `finalize` makes of a snapshot: without items when the snapshot cannot be read, is torn or
      too big to measure, and otherwise with its longest fitting prefix. */
  ghost predicate Finalized(q: Request, s: Snapshot, freshStatus: Code, r: Result) {
    && r.generation == s.generation && r.epoch == s.epoch && r.requiredItems == |s.items|
    && if !Readable(s.status) then r.status == s.status && r.items == [] && !r.truncated
       else if q.consistency.SameBatch? && !OneBatch(s.items) then
         r.status.Unavailable? && r.items == [] && !r.truncated
       else if Bytes(s.items) > UINT64_MAX then r.status.ResourceExhausted? && r.items == [] && !r.truncated
       else
         && r.requiredBytes == Bytes(s.items) && r.items <= s.items
         && LongestFit(s.items, q.maxItems, q.maxBytes, |r.items|)
         && (r.truncated <==> |r.items| < |s.items|)
         && r.status == if r.truncated then BufferTooSmall
                        else if Readable(freshStatus) then s.status else freshStatus
  }

  method SameEpoch(items: seq<Observation>) returns (same: bool)
    ensures same <==> OneBatch(items)
  {
    for i := 0 to |items|
      invariant forall j :: 0 <= j < i ==> items[j].commitEpoch == items[0].commitEpoch
    {
      if items[i].commitEpoch != items[0].commitEpoch {
        return false;
      }
    }
    same := true;
  }

  /** `finalize`. */
  method Finalize(q: Request, s: Snapshot, freshStatus: Code) returns (r: Result)
    requires Representable(s.items)
    ensures Finalized(q, s, freshStatus, r)
  {
    r := Result(s.status, s.generation, s.epoch, |s.items|, 0, false, []);
    if !Readable(s.status) {
      return;
    }
    if q.consistency.SameBatch? {
      var same := SameEpoch(s.items);
      if !same {
        return r.(status := Unavailable);
      }
    }
    var ok, bytes := RequiredBytes(s.items);
    r := r.(requiredBytes := bytes);
    if !ok {
      return r.(status := ResourceExhausted);
    }
    var n := TakeFitting(s.items, q.maxItems, q.maxBytes);
    var truncated := n < |s.items|;
    r := r.(items := s.items[..n], truncated := truncated,
            status := if truncated then BufferTooSmall else if Readable(freshStatus) then s.status else freshStatus);
  }

  // ----- Fresh reads -----

  /** The oldest age the request accepts: the smaller of two limits, where 0 stands for no limit. */
  function AgeLimit(freshness: uint64, maxAge: uint64): uint64 {
    if maxAge != 0 && (freshness == 0 || maxAge < freshness) then maxAge else freshness
  }

  predicate NeedsFresh(q: Request, metrics: map<uint32, Descriptor>, o: Observation, now: int) {
    && !q.policy.CacheOnly? && !o.status.Unsupported?
    && (|| q.policy.FreshRequired? || !o.status.Valid?
        || (&& o.metric in metrics
            && var limit := AgeLimit(metrics[o.metric].freshness, q.maxAge);
               limit != 0 && (now < o.observedTime || now - o.observedTime > limit)))
  }

  /** Older than a limit that is set; an observation from the future counts as too old. */
  predicate TooOld(limit: uint64, o: Observation, now: int) {
    limit != 0 && (now < o.observedTime || limit < now - o.observedTime)
  }

  /** When an item needs a fresh read, by policy: an age is judged by each of the two limits on its own. */
  lemma {:induction false} NeedsFreshIff(q: Request, metrics: map<uint32, Descriptor>, o: Observation, now: int)
    ensures NeedsFresh(q, metrics, o, now) <==>
            if q.policy.CacheOnly? || o.status.Unsupported? then false
            else if q.policy.FreshRequired? || !o.status.Valid? then true
            else o.metric in metrics && (TooOld(metrics[o.metric].freshness, o, now) || TooOld(q.maxAge, o, now))
  {}

  /** The keys of the items that need a fresh read, in their order. */
  function KeysToRefresh(q: Request, metrics: map<uint32, Descriptor>, items: seq<Observation>, now: int): seq<DataKey>
  {
    if items == [] then []
    else
      var n := |items| - 1;
      KeysToRefresh(q, metrics, items[..n], now) +
      if NeedsFresh(q, metrics, items[n], now) then [KeyOf(items[n])] else []
  }

  /** Some item of this key needs a fresh read. */
  predicate Stale(q: Request, metrics: map<uint32, Descriptor>, items: seq<Observation>, now: int, k: DataKey) {
    exists i :: 0 <= i < |items| && NeedsFresh(q, metrics, items[i], now) && KeyOf(items[i]) == k
  }

  lemma {:induction false} RefreshMembers(q: Request, metrics: map<uint32, Descriptor>, items: seq<Observation>,
                                          now: int, k: DataKey)
    ensures k in KeysToRefresh(q, metrics, items, now) <==> Stale(q, metrics, items, now, k)
  {
    if items != [] {
      var n := |items| - 1;
      RefreshMembers(q, metrics, items[..n], now, k);
      assert Stale(q, metrics, items, now, k) <==>
             Stale(q, metrics, items[..n], now, k) || (NeedsFresh(q, metrics, items[n], now) && KeyOf(items[n]) == k)
      by {
        assert forall i :: 0 <= i < n ==> items[..n][i] == items[i];
      }
    }
  }

  /** `keysNeedingFreshRead`: no key is returned without an item that needs it, and none is left out. */
  method FindStale(q: Request, metrics: map<uint32, Descriptor>, items: seq<Observation>, now: int)
    returns (keys: seq<DataKey>)
    ensures keys == KeysToRefresh(q, metrics, items, now)
    ensures forall k :: k in keys <==> Stale(q, metrics, items, now, k)
  {
    keys := [];
    for i := 0 to |items|
      invariant keys == KeysToRefresh(q, metrics, items[..i], now)
    {
      assert items[..i + 1][..i] == items[..i];
      if NeedsFresh(q, metrics, items[i], now) {
        keys := keys + [KeyOf(items[i])];
      }
    }
    assert items[..|items|] == items;
    forall k ensures k in keys <==> Stale(q, metrics, items, now, k) {
      RefreshMembers(q, metrics, items, now, k);
    }
  }

  // ----- The whole query -----

  predicate ValidRequest(lim: Limits, q: Request) {
    && 0 < |q.selection| <= lim.maxItems && 0 < q.maxItems <= lim.maxItems && 0 < q.maxBytes <= lim.maxBytes
    && !EqualNeighbours(SortKeys(q.selection))
    && (q.consistency.AtLeastEpoch? <==> q.requiredEpoch != 0)
  }

  /** What the data store, the clock and the collection runtime answer while the query runs: the wait
      for the required epoch, the first read, the fresh read and the read after it, and the further
      waits and reads; when those run out the deadline has passed. */
  datatype World = World(
    metrics: map<uint32, Descriptor>, now: int, firstWait: Code, first: Snapshot, freshStatus: Code, second: Snapshot,
    later: seq<(Code, Snapshot)>)

  ghost predicate Observable(w: World) {
    && Representable(w.first.items) && Representable(w.second.items)
    && forall i :: 0 <= i < |w.later| ==> Representable(w.later[i].1.items)
  }

  /** The read in hand after a number of successful waits. */
  function ReadAt(start: Snapshot, later: seq<(Code, Snapshot)>, k: nat): Snapshot
    requires k <= |later|
  {
    if k == 0 then start else later[k - 1].1
  }

  predicate Lagging(q: Request, s: Snapshot) {
    Readable(s.status) && !AllFrom(s.items, q.requiredEpoch)
  }

  /** The read after `k` waits lagged, and the next wait was successful. */
  predicate Lagged(q: Request, start: Snapshot, later: seq<(Code, Snapshot)>, k: nat)
    requires k < |later|
  {
    Lagging(q, ReadAt(start, later, k)) && later[k].0.Success?
  }

  /** `s` is the first read that is not lagging, after `k` waits; or the last one, without its items,
      when the next wait fails or the deadline passes. */
  predicate Awaited(q: Request, start: Snapshot, later: seq<(Code, Snapshot)>, k: nat, s: Snapshot) {
    && k <= |later|
    && (forall i :: 0 <= i < k ==> Lagged(q, start, later, i))
    && if !Lagging(q, ReadAt(start, later, k)) then s == ReadAt(start, later, k)
       else
         && (k < |later| ==> !later[k].0.Success?)
         && s == ReadAt(start, later, k).(items := [], status := if k < |later| then later[k].0 else Timeout)
  }

  /** Whatever the wait ends with can be served. */
  lemma {:induction false} AwaitedServes(q: Request, start: Snapshot, later: seq<(Code, Snapshot)>, k: nat, s: Snapshot)
    requires Representable(start.items) && forall i :: 0 <= i < |later| ==> Representable(later[i].1.items)
    requires Awaited(q, start, later, k, s)
    ensures Representable(s.items) && (Readable(s.status) ==> AllFrom(s.items, q.requiredEpoch))
  {}

  /** The loop that waits until every item has reached the epoch, or drops the items. */
  method AwaitEpoch(q: Request, start: Snapshot, later: seq<(Code, Snapshot)>)
    returns (s: Snapshot, ghost waits: nat)
    ensures Awaited(q, start, later, waits, s)
  {
    s, waits := start, 0;
    var i := 0;
    while Lagging(q, s)
      invariant 0 <= i <= |later| && waits == i && s == ReadAt(start, later, i)
      invariant forall j :: 0 <= j < i ==> Lagged(q, start, later, j)
      decreases |later| - i
    {
      if i == |later| || !later[i].0.Success? {
        var status := if i == |later| then Timeout else later[i].0;
        return s.(status := status, items := []), waits;
      }
      assert Lagged(q, start, later, i);
      s := later[i].1;
      i, waits := i + 1, waits + 1;
    }
  }

  /** The read that is answered from, before any waiting for an epoch, and the fresh-read status. */
  function Answering(q: Request, w: World): (Snapshot, Code) {
    if Readable(w.first.status) && KeysToRefresh(q, w.metrics, w.first.items, w.now) != [] then
      (w.second, w.freshStatus)
    else (w.first, Success)
  }

  /** A request that is wrong, or whose epoch is not reached in time, is answered at once. */
  function Refusal(lim: Limits, q: Request, w: World): Code {
    if !ValidRequest(lim, q) then InvalidArgument
    else if q.consistency.AtLeastEpoch? then w.firstWait else Success
  }

  /** Which requests are refused outright, and which read is answered from: the one after a fresh read if and only
      if the first could be read and some item of it needs one. */
  lemma {:induction false} AnswersFrom(lim: Limits, q: Request, w: World)
    ensures Refusal(lim, q, w) ==
            if || q.selection == [] || lim.maxItems < |q.selection| || !Distinct(q.selection)
               || q.maxItems == 0 || lim.maxItems < q.maxItems || q.maxBytes == 0 || lim.maxBytes < q.maxBytes
               || (q.consistency.AtLeastEpoch? && q.requiredEpoch == 0)
               || (!q.consistency.AtLeastEpoch? && q.requiredEpoch != 0)
            then InvalidArgument
            else if q.consistency.AtLeastEpoch? then w.firstWait
            else Success
    ensures Answering(q, w) ==
            if && w.first.status in {Success, PartialResult}
               && exists i :: 0 <= i < |w.first.items| && NeedsFresh(q, w.metrics, w.first.items[i], w.now)
            then (w.second, w.freshStatus) else (w.first, Success)
  {
    SortKeysIs(q.selection);
    NeighboursSuffice(SortKeys(q.selection));
    DistinctInAnyOrder(SortKeys(q.selection), q.selection);
    NothingStale(q, w.metrics, w.first.items, w.now);
  }

  lemma {:induction false} NothingStale(q: Request, metrics: map<uint32, Descriptor>, items: seq<Observation>, now: int)
    ensures KeysToRefresh(q, metrics, items, now) != [] <==>
            exists i :: 0 <= i < |items| && NeedsFresh(q, metrics, items[i], now)
  {
    var keys := KeysToRefresh(q, metrics, items, now);
    if keys != [] {
      RefreshMembers(q, metrics, items, now, keys[0]);
    }
    forall i | 0 <= i < |items| && NeedsFresh(q, metrics, items[i], now)
      ensures KeyOf(items[i]) in keys
    {
      RefreshMembers(q, metrics, items, now, KeyOf(items[i]));
    }
  }

  /** `execute`: whatever carries items keeps the promise of its consistency level, and is the longest
      fitting prefix of the snapshot that was served. */
  method Execute(lim: Limits, q: Request, w: World) returns (r: Result, ghost served: Snapshot, ghost waits: nat)
    requires Observable(w)
    ensures !Refusal(lim, q, w).Success? ==> r.status == Refusal(lim, q, w) && r.items == []
    ensures Refusal(lim, q, w).Success? ==> Finalized(q, served, Answering(q, w).1, r)
    ensures Refusal(lim, q, w).Success? ==>
              if q.consistency.AtLeastEpoch? then Awaited(q, Answering(q, w).0, w.later, waits, served)
              else served == Answering(q, w).0
    ensures Consistent(q, r.items)
    ensures Refusal(lim, q, w).Success? && Readable(r.status) ==> r.items == served.items && Consistent(q, served.items)
  {
    served, waits := w.first, 0;
    var none := Result(InvalidArgument, 0, 0, 0, 0, false, []);
    if !ValidRequest(lim, q) {
      return none, served, waits;
    }
    if q.consistency.AtLeastEpoch? && !w.firstWait.Success? {
      return none.(status := w.firstWait), served, waits;
    }
    var s, freshStatus := w.first, Success;
    if Readable(s.status) {
      var keys := FindStale(q, w.metrics, s.items, w.now);
      if keys != [] {
        s, freshStatus := w.second, w.freshStatus;
      }
      if q.consistency.AtLeastEpoch? {
        ghost var start := s;
        s, waits := AwaitEpoch(q, s, w.later);
        AwaitedServes(q, start, w.later, waits, s);
      }
    }
    served := s;
    r := Finalize(q, s, freshStatus);
    PrefixConsistent(q, s.items, r.items);
  }

  lemma {:induction false} PrefixConsistent(q: Request, items: seq<Observation>, p: seq<Observation>)
    requires p <= items
    ensures Consistent(q, items) ==> Consistent(q, p)
  {
    assert forall i :: 0 <= i < |p| ==> p[i] == items[i];
  }

  /** With snapshots read from the data store, the items are valid observations of the selected keys in
      key order. */
  lemma {:induction false} ItemsFromStore(c: CatalogState, epoch: uint64, log: seq<Observation>, q: Request,
                                          allowStale: bool, now: int, items: seq<Observation>, i: nat)
    requires GoodCatalog(c) && GoodLog(c, epoch, log) && c.generation != 0 && 0 <= now
    requires LookAll(c, epoch, log, SortKeys(q.selection), allowStale, now).Items?
    requires items <= LookAll(c, epoch, log, SortKeys(q.selection), allowStale, now).items && i < |items|
    ensures |items| <= |SortKeys(q.selection)| && KeyOf(items[i]) == SortKeys(q.selection)[i]
    ensures items[i].metric != 0 ==> ValidObservation(items[i])
  {
    ItemsAreValid(c, epoch, log, SortKeys(q.selection), allowStale, now);
  }
}
