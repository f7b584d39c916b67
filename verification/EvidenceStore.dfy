/** Heartbeat evidence and the health results that point into it:
    `DataManager::commitHeartbeatEvidence` and `commitHealth`. */
module EvidenceStore {
  import opened Base
  import opened Collections
  import opened Domain

  datatype Limits = Limits(maxItems: positive, maxBytes: positive, ttl: positive, maxHealth: positive,
                           maxRefs: positive, maxResultBytes: positive, maxHealthBytes: positive)

  /** What the active catalog says of the heartbeat. */
  datatype Catalog = Catalog(
    generation: uint64, unsupported: bool, entities: seq<EntityRef>, present: bool, dataId: Option<uint32>,
    supported: bool, freshness: uint64)

  type HealthMap = map<EntityRef, HealthResult>

  datatype State = State(
    catalog: Catalog, evidence: seq<Evidence>, latest: map<EntityRef, uint64>, health: HealthMap, nextId: uint64,
    epoch: uint64)

  const SIZEOF_EVIDENCE: positive
  const SIZEOF_REF: positive
  const SIZEOF_LIMITATION: positive
  const SIZEOF_HEALTH: positive

  function EvidenceBytes(e: Evidence): positive {
    SIZEOF_EVIDENCE + |e.source.provider| + |e.source.nativeSource| + |e.error.status.message|
  }

  function AllBytes(s: seq<Evidence>): nat {
    if s == [] then 0 else AllBytes(s[..|s| - 1]) + EvidenceBytes(s[|s| - 1])
  }

  // ----- The order of evidence -----

  /** `b` is evidence of the same device committed after `a`. */
  ghost predicate Follows(a: Evidence, b: Evidence) {
    && a.id < b.id && a.observedTime < b.observedTime
    && (a.status.Valid? && b.status.Valid? ==>
          && a.token < b.token && a.sampleTime.Some? && b.sampleTime.Some? && a.sampleTime.value < b.sampleTime.value)
  }

  ghost predicate Chain(s: seq<Evidence>) {
    forall i, j :: 0 <= i < j < |s| ==> Follows(s[i], s[j])
  }

  lemma {:induction false} ChainWithout(s: seq<Evidence>, k: nat)
    requires Chain(s) && k < |s|
    ensures Chain(Without(s, k))
  {
    var r := Without(s, k);
    assert forall i :: 0 <= i < |r| ==> r[i] == s[if i < k then i else i + 1];
  }

  lemma {:induction false} ChainStep(s: seq<Evidence>, e: Evidence)
    requires Chain(s) && forall i :: 0 <= i < |s| ==> Follows(s[i], e)
    ensures Chain(s + [e])
  {}

  // ----- References -----

  predicate Refers(r: HealthResult, id: uint64) {
    exists i :: 0 <= i < |r.evidence| && r.evidence[i].id == id
  }

  predicate Referenced(h: HealthMap, id: uint64) {
    exists e :: e in h && Refers(h[e], id)
  }

  /** The stored record a reference names, field for field. */
  predicate Matches(e: Evidence, entity: EntityRef, generation: uint64, r: EvidenceRef) {
    RefTo(e) == r && e.entity == entity && e.catalogGeneration == generation
  }

  predicate Stored(s: seq<Evidence>, entity: EntityRef, generation: uint64, r: EvidenceRef) {
    exists i :: 0 <= i < |s| && Matches(s[i], entity, generation, r)
  }

  ghost predicate ResultStored(s: seq<Evidence>, r: HealthResult) {
    forall i :: 0 <= i < |r.evidence| ==> Stored(s, r.entity, r.catalogGeneration, r.evidence[i])
  }

  /** Every reference held by a stored health result matches a stored record. */
  ghost predicate RefsStored(s: seq<Evidence>, h: HealthMap) {
    forall e :: e in h ==> h[e].entity == e && ResultStored(s, h[e])
  }

  lemma {:induction false} StoredWithout(s: seq<Evidence>, k: nat, entity: EntityRef, generation: uint64,
                                         r: EvidenceRef)
    requires k < |s| && Stored(s, entity, generation, r) && s[k].id != r.id
    ensures Stored(Without(s, k), entity, generation, r)
  {
    var i :| 0 <= i < |s| && Matches(s[i], entity, generation, r);
    var j := if i < k then i else i - 1;
    assert Matches(Without(s, k)[j], entity, generation, r);
  }

  /** A record that no result refers to can go. */
  lemma {:induction false} RefsWithout(s: seq<Evidence>, h: HealthMap, k: nat)
    requires RefsStored(s, h) && k < |s| && !Referenced(h, s[k].id)
    ensures RefsStored(Without(s, k), h)
  {
    forall e, i | e in h && 0 <= i < |h[e].evidence|
      ensures Stored(Without(s, k), h[e].entity, h[e].catalogGeneration, h[e].evidence[i])
    {
      assert Stored(s, h[e].entity, h[e].catalogGeneration, h[e].evidence[i]);
      assert Refers(h[e], h[e].evidence[i].id);
      StoredWithout(s, k, h[e].entity, h[e].catalogGeneration, h[e].evidence[i]);
    }
  }

  lemma {:induction false} RefsStep(s: seq<Evidence>, h: HealthMap, x: Evidence)
    requires RefsStored(s, h)
    ensures RefsStored(s + [x], h)
  {
    forall e, i | e in h && 0 <= i < |h[e].evidence|
      ensures Stored(s + [x], h[e].entity, h[e].catalogGeneration, h[e].evidence[i])
    {
      assert Stored(s, h[e].entity, h[e].catalogGeneration, h[e].evidence[i]);
      var j :| 0 <= j < |s| && Matches(s[j], h[e].entity, h[e].catalogGeneration, h[e].evidence[i]);
      assert Matches((s + [x])[j], h[e].entity, h[e].catalogGeneration, h[e].evidence[i]);
    }
  }

  // ----- The invariant -----

  /** All that is stored belongs to the catalog and to earlier ids. */
  ghost predicate Belongs(c: Catalog, nextId: nat, e: Evidence) {
    && 1 <= e.id < nextId && e.entity in c.entities && e.catalogGeneration == c.generation && ValidEvidence(e)
    && Some(e.providerDataId) == c.dataId && c.supported
  }

  /** Every record belongs to the catalog and to earlier ids, and the ids rise. */
  ghost predicate AllBelong(c: Catalog, nextId: nat, s: seq<Evidence>) {
    && (forall i :: 0 <= i < |s| ==> Belongs(c, nextId, s[i]))
    && (forall i, j :: 0 <= i < j < |s| ==> s[i].id < s[j].id)
  }

  ghost predicate EvidenceInv(c: Catalog, s: seq<Evidence>, h: HealthMap, nextId: nat) {
    AllBelong(c, nextId, s) && RefsStored(s, h) && (|c.entities| == 1 ==> Chain(s))
  }

  /** With one device the latest entry names the last record. */
  ghost predicate LatestInv(c: Catalog, s: seq<Evidence>, latest: map<EntityRef, uint64>) {
    |c.entities| == 1 ==>
      var e := c.entities[0];
      latest.Keys <= {e} && if s == [] then e !in latest else e in latest && latest[e] == s[|s| - 1].id
  }

  predicate ResultFits(lim: Limits, r: HealthResult) {
    |r.evidence| <= lim.maxRefs && ResultBytes(r) <= lim.maxResultBytes
  }

  /** The health results respect every limit: of each, and of all together. */
  ghost predicate HealthFits(lim: Limits, h: HealthMap) {
    && |h| <= lim.maxHealth && HealthBytes(h) <= lim.maxHealthBytes
    && forall e :: e in h ==> ResultFits(lim, h[e])
  }

  ghost predicate Inv(lim: Limits, s: State) {
    && 1 <= s.nextId && EvidenceInv(s.catalog, s.evidence, s.health, s.nextId)
    && LatestInv(s.catalog, s.evidence, s.latest) && ResultsOf(s.health, s.catalog.generation)
    && |s.evidence| <= lim.maxItems && AllBytes(s.evidence) <= lim.maxBytes && HealthFits(lim, s.health)
    && DevicesOnly(s.catalog)
  }

  lemma {:induction false} RemoveKeeps(c: Catalog, s: seq<Evidence>, h: HealthMap, nextId: nat, k: nat)
    requires EvidenceInv(c, s, h, nextId) && k < |s| && !Referenced(h, s[k].id)
    ensures EvidenceInv(c, Without(s, k), h, nextId)
  {
    var r := Without(s, k);
    assert forall i :: 0 <= i < |r| ==> r[i] == s[if i < k then i else i + 1];
    RefsWithout(s, h, k);
    if |c.entities| == 1 {
      ChainWithout(s, k);
    }
  }

  // ----- Committing evidence -----

  function CheckEvidence(s: State, e: Evidence): Code {
    if e.id != 0 || !ValidEvidence(e) then InvalidArgument
    else if s.catalog.generation == 0 then NotInitialized
    else if s.catalog.unsupported then Code.Unsupported
    else if e.catalogGeneration != s.catalog.generation || e.entity !in s.catalog.entities then StaleGeneration
    else if !s.catalog.present || s.catalog.dataId != Some(e.providerDataId) || !s.catalog.supported then
      Code.Unsupported
    else if s.epoch == UINT64_MAX || s.nextId == UINT64_MAX then Internal
    else Success
  }

  function RecordWith(s: seq<Evidence>, id: uint64): Option<Evidence> {
    if s == [] then None else if s[0].id == id then Some(s[0]) else RecordWith(s[1..], id)
  }

  function LatestOf(s: State, entity: EntityRef): Option<Evidence> {
    if entity in s.latest then RecordWith(s.evidence, s.latest[entity]) else None
  }

  function LastValid(s: seq<Evidence>, entity: EntityRef): Option<Evidence> {
    if s == [] then None
    else
      var x := s[|s| - 1];
      if x.entity == entity && x.status.Valid? then Some(x) else LastValid(s[..|s| - 1], entity)
  }

  datatype Newness = Repeated(id: uint64) | NotNewer | Newer

  predicate AfterValid(v: Evidence, e: Evidence) {
    && v.token < e.token
    && (v.sampleTime.Some? && e.sampleTime.Some? ==> v.sampleTime.value < e.sampleTime.value)
  }

  /** How new evidence compares with what is stored of its device. */
  function Compare(s: State, e: Evidence): Newness {
    var latest, valid := LatestOf(s, e.entity), LastValid(s.evidence, e.entity);
    if latest.Some? && latest.value.(id := 0) == e then Repeated(latest.value.id)
    else if latest.Some? && e.observedTime <= latest.value.observedTime then NotNewer
    else if e.status.Valid? && valid.Some? && !AfterValid(valid.value, e) then NotNewer
    else Newer
  }

  predicate Expired(lim: Limits, h: HealthMap, x: Evidence, c: Evidence) {
    && c.id != x.id && c.observedTime <= x.observedTime && x.observedTime - c.observedTime > lim.ttl
    && !Referenced(h, c.id)
  }

  /** The loop that erases expired records from index `i` on. */
  function Unexpired(lim: Limits, h: HealthMap, s: seq<Evidence>, x: Evidence, i: nat): seq<Evidence>
    requires i <= |s|
    decreases |s| - i
  {
    if i == |s| then s
    else if Expired(lim, h, x, s[i]) then Unexpired(lim, h, Without(s, i), x, i)
    else Unexpired(lim, h, s, x, i + 1)
  }

  predicate Loose(h: HealthMap, x: Evidence, c: Evidence) { c.id != x.id && !Referenced(h, c.id) }

  /** The first record that may be evicted, from index `i` on. */
  function FirstLoose(h: HealthMap, s: seq<Evidence>, x: Evidence, i: nat): (k: nat)
    requires i <= |s|
    ensures i <= k <= |s| && (k < |s| ==> Loose(h, x, s[k])) && forall j :: i <= j < k ==> !Loose(h, x, s[j])
    decreases |s| - i
  {
    if i == |s| || Loose(h, x, s[i]) then i else FirstLoose(h, s, x, i + 1)
  }

  predicate Fits(lim: Limits, s: seq<Evidence>) { |s| <= lim.maxItems && AllBytes(s) <= lim.maxBytes }

  /** The loop that evicts from the front until both limits hold, or gives up. */
  function Trim(lim: Limits, h: HealthMap, s: seq<Evidence>, x: Evidence): Option<seq<Evidence>>
    decreases |s|
  {
    if Fits(lim, s) then Some(s)
    else
      var k := FirstLoose(h, s, x, 0);
      if k == |s| then None else Trim(lim, h, Without(s, k), x)
  }

  // ----- Eviction for capacity takes the least -----

  function LooseIn(h: HealthMap, x: Evidence): Evidence -> bool { c => Loose(h, x, c) }

  /** The records without the first `n` loose ones. */
  function DropLoose(h: HealthMap, s: seq<Evidence>, x: Evidence, n: nat): seq<Evidence> {
    DropFirst(s, LooseIn(h, x), n)
  }

  /** The records that may not be evicted. */
  function Tight(h: HealthMap, s: seq<Evidence>, x: Evidence): seq<Evidence> { DropAll(s, LooseIn(h, x)) }

  lemma {:induction false} AllBytesHead(s: seq<Evidence>)
    requires s != []
    ensures AllBytes(s) == EvidenceBytes(s[0]) + AllBytes(s[1..])
  {
    if 1 < |s| {
      AllBytesHead(s[..|s| - 1]);
      assert s[..|s| - 1][1..] == s[1..][..|s| - 2];
    }
  }

  lemma {:induction false} FewerBytes(s: seq<Evidence>, p: Evidence -> bool)
    ensures |DropAll(s, p)| <= |s| && AllBytes(DropAll(s, p)) <= AllBytes(s)
  {
    if s != [] {
      FewerBytes(s[1..], p);
      AllBytesHead(s);
      if !p(s[0]) {
        AllBytesHead(DropAll(s, p));
        assert DropAll(s, p)[1..] == DropAll(s[1..], p);
      }
    }
  }

  /** The first loose record, as an element of the sequence. */
  lemma {:induction false} FirstLooseIs(h: HealthMap, s: seq<Evidence>, x: Evidence)
    ensures FirstWhere(s, LooseIn(h, x), FirstLoose(h, s, x, 0))
  {}

  /** Eviction gives up exactly when even the records that may not go do not fit. */
  lemma {:induction false} TrimGivesUp(lim: Limits, h: HealthMap, s: seq<Evidence>, x: Evidence)
    ensures Trim(lim, h, s, x).None? <==> !Fits(lim, Tight(h, s, x))
    decreases |s|
  {
    FirstLooseIs(h, s, x);
    FewerBytes(s, LooseIn(h, x));
    var k := FirstLoose(h, s, x, 0);
    if !Fits(lim, s) && k == |s| {
      NothingToDrop(s, LooseIn(h, x));
    } else if !Fits(lim, s) {
      DropAllWithout(s, LooseIn(h, x), k);
      TrimGivesUp(lim, h, Without(s, k), x);
    }
  }

  /** Dropping `n` of the records that satisfy `p` is enough, and dropping fewer is not. */
  ghost predicate LeastDrop(lim: Limits, s: seq<Evidence>, p: Evidence -> bool, n: nat) {
    Fits(lim, DropFirst(s, p, n)) && forall m: nat :: m < n ==> !Fits(lim, DropFirst(s, p, m))
  }

  lemma {:induction false} LeastStep(lim: Limits, s: seq<Evidence>, p: Evidence -> bool, k: nat, n: nat)
    requires FirstWhere(s, p, k) && k < |s| && !Fits(lim, s) && LeastDrop(lim, Without(s, k), p, n)
    ensures LeastDrop(lim, s, p, n + 1)
  {
    DropOne(s, p, k, n);
    forall m: nat | m < n + 1 ensures !Fits(lim, DropFirst(s, p, m)) {
      if 0 < m {
        DropOne(s, p, k, m - 1);
        assert !Fits(lim, DropFirst(Without(s, k), p, m - 1));
      }
    }
  }

  /** Otherwise the first `n` loose records have gone, and fewer would not have been enough. */
  lemma {:induction false} TrimIsLeast(lim: Limits, h: HealthMap, s: seq<Evidence>, x: Evidence) returns (n: nat)
    requires Trim(lim, h, s, x).Some?
    ensures Trim(lim, h, s, x).value == DropLoose(h, s, x, n) && LeastDrop(lim, s, LooseIn(h, x), n)
    decreases |s|
  {
    n := 0;
    if !Fits(lim, s) {
      var k := FirstLoose(h, s, x, 0);
      var rest := TrimIsLeast(lim, h, Without(s, k), x);
      n := rest + 1;
      FirstLooseIs(h, s, x);
      DropOne(s, LooseIn(h, x), k, rest);
      LeastStep(lim, s, LooseIn(h, x), k, rest);
    }
  }

  function Kept(lim: Limits, s: State, x: Evidence): Option<seq<Evidence>> {
    Trim(lim, s.health, Unexpired(lim, s.health, s.evidence + [x], x, 0), x)
  }

  /** The state after new evidence `x` left the records `r`. */
  function Accepted(s: State, x: Evidence, r: seq<Evidence>): State
    requires s.nextId < UINT64_MAX && s.epoch < UINT64_MAX
  {
    s.(evidence := r, latest := s.latest[x.entity := x.id], nextId := s.nextId + 1, epoch := s.epoch + 1)
  }

  datatype Outcome = Outcome(status: Code, id: uint64, committed: bool)

  /** `commitHeartbeatEvidence`. */
  function CommitEvidence(lim: Limits, s: State, e: Evidence): (State, Outcome) {
    var code := CheckEvidence(s, e);
    if !code.Success? then (s, Outcome(code, 0, false))
    else
      match Compare(s, e)
      case Repeated(id) => (s, Outcome(Success, id, false))
      case NotNewer => (s, Outcome(StaleGeneration, 0, false))
      case Newer =>
        var x := e.(id := s.nextId);
        var kept := Kept(lim, s, x);
        if kept.None? then (s, Outcome(ResourceExhausted, 0, false))
        else (Accepted(s, x, kept.value), Outcome(Success, x.id, true))
  }

  // ----- Committing keeps the invariant -----

  ghost predicate EndsWith(s: seq<Evidence>, x: Evidence) { s != [] && s[|s| - 1] == x }

  lemma {:induction false} DropKeeps(c: Catalog, s: seq<Evidence>, h: HealthMap, nextId: nat, x: Evidence, k: nat)
    requires EvidenceInv(c, s, h, nextId) && EndsWith(s, x) && k < |s| && Loose(h, x, s[k])
    ensures EvidenceInv(c, Without(s, k), h, nextId) && EndsWith(Without(s, k), x)
  {
    RemoveKeeps(c, s, h, nextId, k);
    assert k != |s| - 1;
  }

  lemma {:induction false} UnexpiredKeeps(lim: Limits, c: Catalog, s: seq<Evidence>, h: HealthMap, nextId: nat,
                                          x: Evidence, i: nat)
    requires EvidenceInv(c, s, h, nextId) && EndsWith(s, x) && i <= |s|
    ensures var r := Unexpired(lim, h, s, x, i); EvidenceInv(c, r, h, nextId) && EndsWith(r, x)
    decreases |s| - i
  {
    if i < |s| {
      if Expired(lim, h, x, s[i]) {
        DropKeeps(c, s, h, nextId, x, i);
        UnexpiredKeeps(lim, c, Without(s, i), h, nextId, x, i);
      } else {
        UnexpiredKeeps(lim, c, s, h, nextId, x, i + 1);
      }
    }
  }

  lemma {:induction false} TrimKeeps(lim: Limits, c: Catalog, s: seq<Evidence>, h: HealthMap, nextId: nat, x: Evidence)
    requires EvidenceInv(c, s, h, nextId) && EndsWith(s, x)
    ensures var r := Trim(lim, h, s, x);
            r.Some? ==> EvidenceInv(c, r.value, h, nextId) && EndsWith(r.value, x) && Fits(lim, r.value)
    decreases |s|
  {
    var k := FirstLoose(h, s, x, 0);
    if !Fits(lim, s) && k != |s| {
      DropKeeps(c, s, h, nextId, x, k);
      TrimKeeps(lim, c, Without(s, k), h, nextId, x);
    }
  }

  lemma {:induction false} RecordIsLast(s: seq<Evidence>)
    requires s != [] && forall i, j :: 0 <= i < j < |s| ==> s[i].id < s[j].id
    ensures RecordWith(s, s[|s| - 1].id) == Some(s[|s| - 1])
  {
    if 1 < |s| {
      RecordIsLast(s[1..]);
    }
  }

  lemma {:induction false} LastValidIs(s: seq<Evidence>, entity: EntityRef, i: nat)
    requires Chain(s) && i < |s| && s[i].entity == entity && s[i].status.Valid?
    ensures LastValid(s, entity).Some?
    ensures var v := LastValid(s, entity).value; v == s[i] || (v.status.Valid? && Follows(s[i], v))
  {
    var n := |s| - 1;
    if i < n {
      LastValidIs(s[..n], entity, i);
    }
  }

  /** With one device the latest entry leads to the last record. */
  lemma {:induction false} LatestIsLast(s: State, e: EntityRef)
    requires AllBelong(s.catalog, s.nextId, s.evidence) && LatestInv(s.catalog, s.evidence, s.latest)
    requires s.catalog.entities == [e]
    ensures LatestOf(s, e) == if s.evidence == [] then None else Some(s.evidence[|s.evidence| - 1])
  {
    if s.evidence != [] {
      RecordIsLast(s.evidence);
    }
  }

  /** New evidence of the only device follows everything stored. */
  lemma {:induction false} NewerFollows(s: State, e: Evidence, i: nat)
    requires AllBelong(s.catalog, s.nextId, s.evidence) && LatestInv(s.catalog, s.evidence, s.latest)
    requires Chain(s.evidence) && s.catalog.entities == [e.entity] && i < |s.evidence|
    requires CheckEvidence(s, e).Success? && Compare(s, e).Newer?
    ensures Follows(s.evidence[i], e.(id := s.nextId))
  {
    var n := |s.evidence| - 1;
    LatestIsLast(s, e.entity);
    assert i < n ==> Follows(s.evidence[i], s.evidence[n]);
    assert Belongs(s.catalog, s.nextId, s.evidence[i]);
    if s.evidence[i].status.Valid? {
      LastValidIs(s.evidence, e.entity, i);
    }
  }

  lemma {:induction false} CheckedBelongs(s: State, e: Evidence)
    requires 1 <= s.nextId && CheckEvidence(s, e).Success?
    ensures Belongs(s.catalog, s.nextId + 1, e.(id := s.nextId))
  {}

  lemma {:induction false} BelongStep(c: Catalog, nextId: nat, s: seq<Evidence>, x: Evidence)
    requires AllBelong(c, nextId, s) && x.id == nextId && Belongs(c, nextId + 1, x)
    ensures AllBelong(c, nextId + 1, s + [x])
  {
    var all := s + [x];
    forall i | 0 <= i < |all| ensures Belongs(c, nextId + 1, all[i]) {
      assert i < |s| ==> Belongs(c, nextId, s[i]);
    }
    forall i, j | 0 <= i < j < |all| ensures all[i].id < all[j].id {
      assert Belongs(c, nextId, s[i]);
    }
  }

  lemma {:induction false} ChainAppends(s: State, e: Evidence)
    requires AllBelong(s.catalog, s.nextId, s.evidence) && LatestInv(s.catalog, s.evidence, s.latest)
    requires Chain(s.evidence) && |s.catalog.entities| == 1 && CheckEvidence(s, e).Success? && Compare(s, e).Newer?
    ensures Chain(s.evidence + [e.(id := s.nextId)])
  {
    assert s.catalog.entities == [e.entity];
    forall i | 0 <= i < |s.evidence| ensures Follows(s.evidence[i], e.(id := s.nextId)) { NewerFollows(s, e, i); }
    ChainStep(s.evidence, e.(id := s.nextId));
  }

  lemma {:induction false} AppendKeeps(lim: Limits, s: State, e: Evidence, x: Evidence)
    requires Inv(lim, s) && CheckEvidence(s, e).Success? && Compare(s, e).Newer? && x == e.(id := s.nextId)
    ensures EvidenceInv(s.catalog, s.evidence + [x], s.health, s.nextId + 1)
  {
    CheckedBelongs(s, e);
    BelongStep(s.catalog, s.nextId, s.evidence, x);
    RefsStep(s.evidence, s.health, x);
    if |s.catalog.entities| == 1 {
      ChainAppends(s, e);
    }
  }

  lemma {:induction false} KeptKeeps(lim: Limits, s: State, e: Evidence, x: Evidence)
    requires Inv(lim, s) && CheckEvidence(s, e).Success? && Compare(s, e).Newer? && x == e.(id := s.nextId)
    ensures var r := Kept(lim, s, x);
            r.Some? ==>
              EvidenceInv(s.catalog, r.value, s.health, s.nextId + 1) && EndsWith(r.value, x) && Fits(lim, r.value)
  {
    AppendKeeps(lim, s, e, x);
    UnexpiredKeeps(lim, s.catalog, s.evidence + [x], s.health, s.nextId + 1, x, 0);
    TrimKeeps(lim, s.catalog, Unexpired(lim, s.health, s.evidence + [x], x, 0), s.health, s.nextId + 1, x);
  }

  lemma {:induction false} AcceptedLatest(s: State, x: Evidence, r: seq<Evidence>)
    requires LatestInv(s.catalog, s.evidence, s.latest) && x.entity in s.catalog.entities && EndsWith(r, x)
    ensures LatestInv(s.catalog, r, s.latest[x.entity := x.id])
  {}

  lemma {:induction false} AcceptedKeeps(lim: Limits, s: State, x: Evidence, r: seq<Evidence>)
    requires Inv(lim, s) && s.nextId < UINT64_MAX && s.epoch < UINT64_MAX && x.entity in s.catalog.entities
    requires EvidenceInv(s.catalog, r, s.health, s.nextId + 1) && EndsWith(r, x) && Fits(lim, r)
    ensures Inv(lim, Accepted(s, x, r))
  {
    AcceptedLatest(s, x, r);
  }

  /** When evidence is accepted, and that nothing else changes the state. */
  lemma {:induction false} CommitEvidenceIs(lim: Limits, s: State, e: Evidence)
    ensures var x := e.(id := s.nextId);
            if CheckEvidence(s, e).Success? && Compare(s, e).Newer? && Kept(lim, s, x).Some?
            then s.nextId < UINT64_MAX && s.epoch < UINT64_MAX && e.entity in s.catalog.entities
                 && CommitEvidence(lim, s, e).0 == Accepted(s, x, Kept(lim, s, x).value)
            else CommitEvidence(lim, s, e).0 == s
  {}

  /** Committing evidence keeps the order, the latest entry and every reference. */
  lemma {:induction false} CommitEvidenceKeeps(lim: Limits, s: State, e: Evidence)
    requires Inv(lim, s)
    ensures Inv(lim, CommitEvidence(lim, s, e).0)
  {
    var x := e.(id := s.nextId);
    CommitEvidenceIs(lim, s, e);
    if CheckEvidence(s, e).Success? && Compare(s, e).Newer? && Kept(lim, s, x).Some? {
      KeptKeeps(lim, s, e, x);
      AcceptedKeeps(lim, s, x, Kept(lim, s, x).value);
    }
  }

  lemma {:induction false} UnexpiredIs(lim: Limits, h: HealthMap, s: seq<Evidence>, x: Evidence, i: nat)
    requires i <= |s| && forall j :: 0 <= j < i ==> !Expired(lim, h, x, s[j])
    ensures forall c :: c in Unexpired(lim, h, s, x, i) ==> !Expired(lim, h, x, c) && c in s
    ensures forall c :: c in s && !Expired(lim, h, x, c) ==> c in Unexpired(lim, h, s, x, i)
    decreases |s| - i
  {
    if i < |s| {
      if Expired(lim, h, x, s[i]) {
        UnexpiredIs(lim, h, Without(s, i), x, i);
        assert s == s[..i] + [s[i]] + s[i + 1..];
      } else {
        UnexpiredIs(lim, h, s, x, i + 1);
      }
    }
  }

  lemma {:induction false} TrimIs(lim: Limits, h: HealthMap, s: seq<Evidence>, x: Evidence, c: Evidence)
    requires Trim(lim, h, s, x).Some?
    ensures c in Trim(lim, h, s, x).value ==> c in s
    ensures c in s && !Loose(h, x, c) ==> c in Trim(lim, h, s, x).value
    decreases |s|
  {
    var k := FirstLoose(h, s, x, 0);
    if !Fits(lim, s) && k != |s| {
      TrimIs(lim, h, Without(s, k), x, c);
      assert s == s[..k] + [s[k]] + s[k + 1..];
    }
  }

  /** A commit drops every expired record that nothing refers to, and never one that a health result
      refers to, nor the new one. */
  lemma {:induction false} CommitDrops(lim: Limits, s: State, e: Evidence, c: Evidence)
    requires CommitEvidence(lim, s, e).1.committed
    ensures var x, after := e.(id := s.nextId), CommitEvidence(lim, s, e).0.evidence;
            && (c in after ==> !Expired(lim, s.health, x, c) && c in s.evidence + [x])
            && (c in s.evidence && Referenced(s.health, c.id) ==> c in after)
            && x in after
  {
    var x := e.(id := s.nextId);
    var all := s.evidence + [x];
    UnexpiredIs(lim, s.health, all, x, 0);
    TrimIs(lim, s.health, Unexpired(lim, s.health, all, x, 0), x, c);
    TrimIs(lim, s.health, Unexpired(lim, s.health, all, x, 0), x, x);
    assert c in s.evidence ==> c in all;
    assert x in all;
  }

  // ----- Committing health -----

  function RefBytes(refs: seq<EvidenceRef>): nat {
    if refs == [] then 0
    else
      var r := refs[|refs| - 1];
      RefBytes(refs[..|refs| - 1]) + SIZEOF_REF + |r.source.provider| + |r.source.nativeSource|
  }

  function LimitationBytes(ls: seq<Limitation>): nat {
    if ls == [] then 0 else LimitationBytes(ls[..|ls| - 1]) + SIZEOF_LIMITATION + |ls[|ls| - 1].detail|
  }

  function ResultBytes(r: HealthResult): nat { SIZEOF_HEALTH + RefBytes(r.evidence) + LimitationBytes(r.limitations) }

  ghost function HealthBytes(h: HealthMap): nat {
    if h == map[] then 0
    else
      var e :| e in h;
      ResultBytes(h[e]) + HealthBytes(h - {e})
  }

  lemma {:induction false} HealthBytesSplit(h: HealthMap, e: EntityRef)
    requires e in h
    ensures HealthBytes(h) == ResultBytes(h[e]) + HealthBytes(h - {e})
    decreases |h|
  {
    var j :| j in h && HealthBytes(h) == ResultBytes(h[j]) + HealthBytes(h - {j});
    if j != e {
      HealthBytesSplit(h - {j}, e);
      HealthBytesSplit(h - {e}, j);
      assert h - {j} - {e} == h - {e} - {j};
    }
  }

  predicate SeenBefore(refs: seq<EvidenceRef>, r: EvidenceRef) {
    exists i :: 0 <= i < |refs| && refs[i].id == r.id
  }

  /** The first fault among the references of a result. */
  function CheckRefs(s: seq<Evidence>, r: HealthResult, refs: seq<EvidenceRef>): Code {
    if refs == [] then Success
    else
      var n := |refs| - 1;
      var before := CheckRefs(s, r, refs[..n]);
      if !before.Success? then before
      else if SeenBefore(refs[..n], refs[n]) then InvalidArgument
      else if !Stored(s, r.entity, r.catalogGeneration, refs[n]) then NotFound
      else Success
  }

  ghost function CheckHealth(lim: Limits, s: State, r: HealthResult): Code {
    if !ValidHealthResult(r) then InvalidArgument
    else if !ResultFits(lim, r) then ResourceExhausted
    else if s.catalog.generation == 0 then NotInitialized
    else if r.catalogGeneration != s.catalog.generation || r.entity !in s.catalog.entities then StaleGeneration
    else if !s.catalog.present then Code.Unsupported
    else if !CheckRefs(s.evidence, r, r.evidence).Success? then CheckRefs(s.evidence, r, r.evidence)
    else if r.entity !in s.health && |s.health| >= lim.maxHealth then ResourceExhausted
    else if ResultBytes(r) + HealthBytes(s.health - {r.entity}) > lim.maxHealthBytes then ResourceExhausted
    else if s.epoch == UINT64_MAX then Internal
    else Success
  }

  /** `commitHealth`. */
  ghost function CommitHealth(lim: Limits, s: State, r: HealthResult): State {
    if CheckHealth(lim, s, r).Success? then s.(health := s.health[r.entity := r], epoch := s.epoch + 1) else s
  }

  lemma {:induction false} CheckedRefs(s: seq<Evidence>, r: HealthResult, refs: seq<EvidenceRef>, i: nat)
    requires CheckRefs(s, r, refs).Success? && i < |refs|
    ensures Stored(s, r.entity, r.catalogGeneration, refs[i])
  {
    var n := |refs| - 1;
    if i < n {
      CheckedRefs(s, r, refs[..n], i);
    }
  }

  lemma {:induction false} RefsPut(s: seq<Evidence>, h: HealthMap, r: HealthResult)
    requires RefsStored(s, h) && CheckRefs(s, r, r.evidence).Success?
    ensures RefsStored(s, h[r.entity := r])
  {
    forall i | 0 <= i < |r.evidence| ensures Stored(s, r.entity, r.catalogGeneration, r.evidence[i]) {
      CheckedRefs(s, r, r.evidence, i);
    }
    assert ResultStored(s, r);
  }

  lemma {:induction false} PutFits(lim: Limits, h: HealthMap, r: HealthResult)
    requires HealthFits(lim, h) && ResultFits(lim, r) && (r.entity !in h ==> |h| < lim.maxHealth)
    requires ResultBytes(r) + HealthBytes(h - {r.entity}) <= lim.maxHealthBytes
    ensures HealthFits(lim, h[r.entity := r])
  {
    var next := h[r.entity := r];
    assert next.Keys == h.Keys + {r.entity};
    assert next - {r.entity} == h - {r.entity};
    HealthBytesSplit(next, r.entity);
  }

  lemma {:induction false} HealthChange(lim: Limits, s: State, h: HealthMap, epoch: uint64)
    requires Inv(lim, s) && RefsStored(s.evidence, h) && HealthFits(lim, h)
    requires ResultsOf(h, s.catalog.generation)
    ensures Inv(lim, s.(health := h, epoch := epoch))
  {
    assert EvidenceInv(s.catalog, s.evidence, h, s.nextId);
  }

  ghost predicate ResultsOf(h: HealthMap, generation: uint64) {
    forall e :: e in h ==> h[e].entity == e && ValidHealthResult(h[e]) && h[e].catalogGeneration == generation
  }

  lemma {:induction false} ResultsPut(h: HealthMap, generation: uint64, r: HealthResult)
    requires ResultsOf(h, generation) && ValidHealthResult(r) && r.catalogGeneration == generation
    ensures ResultsOf(h[r.entity := r], generation)
  {}

  lemma {:induction false} HealthPutKeeps(lim: Limits, s: State, r: HealthResult, epoch: uint64)
    requires Inv(lim, s) && ValidHealthResult(r) && r.catalogGeneration == s.catalog.generation
    requires CheckRefs(s.evidence, r, r.evidence).Success? && (r.entity !in s.health ==> |s.health| < lim.maxHealth)
    requires ResultFits(lim, r) && ResultBytes(r) + HealthBytes(s.health - {r.entity}) <= lim.maxHealthBytes
    ensures Inv(lim, s.(health := s.health[r.entity := r], epoch := epoch))
  {
    ResultsPut(s.health, s.catalog.generation, r);
    RefsPut(s.evidence, s.health, r);
    PutFits(lim, s.health, r);
    HealthChange(lim, s, s.health[r.entity := r], epoch);
  }

  /** Committing health keeps every stored reference matched and every limit of the results. */
  lemma {:induction false} CommitHealthKeeps(lim: Limits, s: State, r: HealthResult)
    requires Inv(lim, s)
    ensures Inv(lim, CommitHealth(lim, s, r))
  {
    if CheckHealth(lim, s, r).Success? {
      HealthPutKeeps(lim, s, r, s.epoch + 1);
    }
  }

  // ----- Catalogs and runs -----

  predicate DevicesOnly(c: Catalog) { forall i :: 0 <= i < |c.entities| ==> c.entities[i].kind.Device? }

  /** A newer catalog starts without evidence and health. */
  function Activate(s: State, c: Catalog): State {
    if c.generation == 0 || !DevicesOnly(c) || c.generation <= s.catalog.generation then s
    else s.(catalog := c, evidence := [], latest := map[], health := map[])
  }

  datatype Action = Observe(evidence: Evidence) | Conclude(result: HealthResult) | NewCatalog(catalog: Catalog)

  ghost function Next(lim: Limits, s: State, a: Action): State {
    match a
    case Observe(e) => CommitEvidence(lim, s, e).0
    case Conclude(r) => CommitHealth(lim, s, r)
    case NewCatalog(c) => Activate(s, c)
  }

  function Initial(): State { State(Catalog(0, false, [], false, None, false, 0), [], map[], map[], 1, 0) }

  ghost function Run(lim: Limits, actions: seq<Action>): State {
    if actions == [] then Initial() else Next(lim, Run(lim, actions[..|actions| - 1]), actions[|actions| - 1])
  }

  lemma {:induction false} ActivateKeeps(lim: Limits, s: State, c: Catalog)
    requires Inv(lim, s)
    ensures Inv(lim, Activate(s, c))
  {
    assert HealthFits(lim, map[]);
    assert EvidenceInv(c, [], map[], s.nextId);
  }

  lemma {:induction false} NextKeeps(lim: Limits, s: State, a: Action)
    requires Inv(lim, s)
    ensures Inv(lim, Next(lim, s, a))
  {
    match a
    case Observe(e) => CommitEvidenceKeeps(lim, s, e);
    case Conclude(r) => CommitHealthKeeps(lim, s, r);
    case NewCatalog(c) => ActivateKeeps(lim, s, c);
  }

  /** In every reachable state every reference is matched, every limit on evidence and on health results
      holds, and with one device evidence is in order and the latest entry names the last record. */
  lemma {:induction false} RunKeeps(lim: Limits, actions: seq<Action>)
    ensures Inv(lim, Run(lim, actions))
  {
    if actions != [] {
      RunKeeps(lim, actions[..|actions| - 1]);
      NextKeeps(lim, Run(lim, actions[..|actions| - 1]), actions[|actions| - 1]);
    }
  }

  /** The parts of it that readers of the evidence need. */
  lemma {:induction false} RunBelongs(lim: Limits, actions: seq<Action>)
    ensures var s := Run(lim, actions);
            && AllBelong(s.catalog, s.nextId, s.evidence) && LatestInv(s.catalog, s.evidence, s.latest)
            && DevicesOnly(s.catalog) && (|s.catalog.entities| == 1 ==> Chain(s.evidence))
  {
    RunKeeps(lim, actions);
  }

  // ----- The store -----

  method FindRecord(s: seq<Evidence>, id: uint64) returns (r: Option<Evidence>)
    ensures r == RecordWith(s, id)
  {
    var rest := s;
    while rest != []
      invariant RecordWith(rest, id) == RecordWith(s, id)
      decreases |rest|
    {
      if rest[0].id == id {
        return Some(rest[0]);
      }
      rest := rest[1..];
    }
    r := None;
  }

  method FindLastValid(s: seq<Evidence>, entity: EntityRef) returns (r: Option<Evidence>)
    ensures r == LastValid(s, entity)
  {
    var rest := s;
    while rest != []
      invariant LastValid(rest, entity) == LastValid(s, entity)
      decreases |rest|
    {
      var x := rest[|rest| - 1];
      if x.entity == entity && x.status.Valid? {
        return Some(x);
      }
      rest := rest[..|rest| - 1];
    }
    r := None;
  }

  method SumBytes(s: seq<Evidence>) returns (bytes: nat)
    ensures bytes == AllBytes(s)
  {
    bytes := 0;
    for i := 0 to |s|
      invariant bytes == AllBytes(s[..i])
    {
      assert s[..i + 1][..i] == s[..i];
      bytes := bytes + EvidenceBytes(s[i]);
    }
    assert s[..|s|] == s;
  }

  /** The time-to-live loop. */
  method DropExpired(lim: Limits, h: HealthMap, s: seq<Evidence>, x: Evidence) returns (r: seq<Evidence>)
    ensures r == Unexpired(lim, h, s, x, 0)
  {
    r := s;
    var i := 0;
    while i < |r|
      invariant i <= |r| && Unexpired(lim, h, r, x, i) == Unexpired(lim, h, s, x, 0)
      decreases |r| - i
    {
      if Expired(lim, h, x, r[i]) {
        r := Without(r, i);
      } else {
        i := i + 1;
      }
    }
  }

  /** The capacity loop: `dropped` loose records had to go, or not even all of them would do. */
  method EvictLoose(lim: Limits, h: HealthMap, s: seq<Evidence>, x: Evidence)
    returns (r: Option<seq<Evidence>>, ghost dropped: nat)
    ensures r == Trim(lim, h, s, x)
    ensures r.None? <==> !Fits(lim, Tight(h, s, x))
    ensures r.Some? ==>
              r.value == DropLoose(h, s, x, dropped) && LeastDrop(lim, s, LooseIn(h, x), dropped)
  {
    dropped := 0;
    TrimGivesUp(lim, h, s, x);
    if Trim(lim, h, s, x).Some? {
      dropped := TrimIsLeast(lim, h, s, x);
    }
    var rest := s;
    var bytes := SumBytes(rest);
    while |rest| > lim.maxItems || bytes > lim.maxBytes
      invariant bytes == AllBytes(rest) && Trim(lim, h, rest, x) == Trim(lim, h, s, x)
      decreases |rest|
    {
      var k := FirstLoose(h, rest, x, 0);
      if k == |rest| {
        return None, dropped;
      }
      rest := Without(rest, k);
      bytes := SumBytes(rest);
    }
    r := Some(rest);
  }

  method SumHealth(h: HealthMap) returns (bytes: nat)
    ensures bytes == HealthBytes(h)
  {
    bytes := 0;
    var rest := h;
    while rest != map[]
      invariant bytes + HealthBytes(rest) == HealthBytes(h)
      decreases |rest|
    {
      var e :| e in rest;
      HealthBytesSplit(rest, e);
      bytes := bytes + ResultBytes(rest[e]);
      rest := rest - {e};
    }
  }

  lemma {:induction false} RefsStand(s: seq<Evidence>, r: HealthResult, refs: seq<EvidenceRef>, n: nat)
    requires n <= |refs| && !CheckRefs(s, r, refs[..n]).Success?
    ensures CheckRefs(s, r, refs) == CheckRefs(s, r, refs[..n])
  {
    if n == |refs| {
      assert refs[..n] == refs;
    } else {
      assert refs[..|refs| - 1][..n] == refs[..n];
      RefsStand(s, r, refs[..|refs| - 1], n);
    }
  }

  /** The loop over the references of a result. */
  method CheckReferences(s: seq<Evidence>, r: HealthResult) returns (status: Code)
    ensures status == CheckRefs(s, r, r.evidence)
  {
    for i := 0 to |r.evidence|
      invariant CheckRefs(s, r, r.evidence[..i]).Success?
    {
      assert r.evidence[..i + 1][..i] == r.evidence[..i];
      if SeenBefore(r.evidence[..i], r.evidence[i]) {
        RefsStand(s, r, r.evidence, i + 1);
        return InvalidArgument;
      }
      if !Stored(s, r.entity, r.catalogGeneration, r.evidence[i]) {
        RefsStand(s, r, r.evidence, i + 1);
        return NotFound;
      }
    }
    assert r.evidence[..|r.evidence|] == r.evidence;
    status := Success;
  }

  /** What `latestHeartbeatEvidence` answers. */
  function ReadLatest(s: State, entity: EntityRef, required: uint64): (Code, Option<Evidence>) {
    var current := FindEntity(s.catalog.entities, entity);
    if s.catalog.generation == 0 then (NotInitialized, None)
    else if required != 0 && required != s.catalog.generation then (StaleGeneration, None)
    else if current.None? then (NotFound, None)
    else if current.value != entity then (StaleGeneration, None)
    else if LatestOf(s, entity).None? then (NotFound, None)
    else (Success, LatestOf(s, entity))
  }

  /** With one device that answer is the last record. */
  lemma {:induction false} ReadsLast(s: State, entity: EntityRef)
    requires AllBelong(s.catalog, s.nextId, s.evidence) && LatestInv(s.catalog, s.evidence, s.latest)
    requires s.catalog.entities == [entity] && s.catalog.generation != 0
    ensures ReadLatest(s, entity, s.catalog.generation) ==
            if s.evidence == [] then (NotFound, None) else (Success, Some(s.evidence[|s.evidence| - 1]))
  {
    LatestIsLast(s, entity);
  }

  /** Whether a result differs in state, code or limitations from the one stored for its device. */
  predicate ChangesState(h: HealthMap, r: HealthResult) {
    if r.entity in h
    then h[r.entity].state != r.state || h[r.entity].code != r.code || h[r.entity].limitations != r.limitations
    else Determinate(r.state)
  }

  class Store {
    const lim: Limits
    var catalog: Catalog
    var evidence: seq<Evidence>
    var latest: map<EntityRef, uint64>
    var health: HealthMap
    var nextId: uint64
    var epoch: uint64

    ghost function View(): State
      reads this
    {
      State(catalog, evidence, latest, health, nextId, epoch)
    }

    ghost predicate Valid()
      reads this
    {
      Inv(lim, View())
    }

    constructor (lim: Limits)
      ensures Valid() && View() == Initial()
    {
      this.lim := lim;
      catalog := Catalog(0, false, [], false, None, false, 0);
      evidence, latest, health, nextId, epoch := [], map[], map[], 1, 0;
    }

    /** `activateCatalog`, as far as evidence and health go. */
    method Switch(c: Catalog) returns (status: Code)
      requires Valid()
      modifies `catalog, `evidence, `latest, `health
      ensures Valid() && View() == Activate(old(View()), c)
      ensures status == if c.generation == 0 || !DevicesOnly(c) then InvalidArgument
                        else if c.generation < old(catalog).generation then StaleGeneration else Success
    {
      ActivateKeeps(lim, View(), c);
      if c.generation == 0 || !DevicesOnly(c) {
        return InvalidArgument;
      }
      if c.generation < catalog.generation {
        return StaleGeneration;
      }
      if c.generation != catalog.generation {
        Clear(c);
      }
      status := Success;
    }

    method Clear(c: Catalog)
      modifies `catalog, `evidence, `latest, `health
      ensures View() == old(View()).(catalog := c, evidence := [], latest := map[], health := map[])
    {
      catalog, evidence, latest, health := c, [], map[], map[];
    }

    method CompareWith(e: Evidence) returns (n: Newness)
      ensures n == Compare(View(), e)
    {
      if e.entity in latest {
        var last := FindRecord(evidence, latest[e.entity]);
        if last.Some? {
          if last.value.(id := 0) == e {
            return Repeated(last.value.id);
          }
          if e.observedTime <= last.value.observedTime {
            return NotNewer;
          }
        }
      }
      if e.status.Valid? {
        var valid := FindLastValid(evidence, e.entity);
        if valid.Some? && !AfterValid(valid.value, e) {
          return NotNewer;
        }
      }
      n := Newer;
    }

    method StoreRecord(e: Evidence) returns (o: Outcome)
      requires nextId < UINT64_MAX && epoch < UINT64_MAX
      modifies `evidence, `latest, `nextId, `epoch
      ensures var x := e.(id := old(nextId));
              var kept := Kept(lim, old(View()), x);
              if kept.None? then View() == old(View()) && o == Outcome(ResourceExhausted, 0, false)
              else View() == Accepted(old(View()), x, kept.value) && o == Outcome(Success, x.id, true)
    {
      var x := e.(id := nextId);
      var staged := DropExpired(lim, health, evidence + [x], x);
      var kept, _ := EvictLoose(lim, health, staged, x);
      if kept.None? {
        return Outcome(ResourceExhausted, 0, false);
      }
      evidence, latest, nextId, epoch := kept.value, latest[x.entity := x.id], nextId + 1, epoch + 1;
      o := Outcome(Success, x.id, true);
    }

    /** `commitHeartbeatEvidence`. */
    method CommitRecord(e: Evidence) returns (o: Outcome)
      requires Valid()
      modifies `evidence, `latest, `nextId, `epoch
      ensures Valid() && (View(), o) == CommitEvidence(lim, old(View()), e)
    {
      CommitEvidenceKeeps(lim, View(), e);
      var code := CheckEvidence(State(catalog, evidence, latest, health, nextId, epoch), e);
      if !code.Success? {
        return Outcome(code, 0, false);
      }
      var newness := CompareWith(e);
      match newness
      case Repeated(id) => o := Outcome(Success, id, false);
      case NotNewer => o := Outcome(StaleGeneration, 0, false);
      case Newer => o := StoreRecord(e);
    }

    method CheckResult(r: HealthResult) returns (status: Code)
      ensures status == CheckHealth(lim, View(), r)
    {
      if !ValidHealthResult(r) {
        return InvalidArgument;
      }
      if |r.evidence| > lim.maxRefs || ResultBytes(r) > lim.maxResultBytes {
        return ResourceExhausted;
      }
      if catalog.generation == 0 {
        return NotInitialized;
      }
      if r.catalogGeneration != catalog.generation || r.entity !in catalog.entities {
        return StaleGeneration;
      }
      if !catalog.present {
        return Code.Unsupported;
      }
      status := CheckReferences(evidence, r);
      if !status.Success? {
        return;
      }
      if r.entity !in health && |health| >= lim.maxHealth {
        return ResourceExhausted;
      }
      var others := SumHealth(health - {r.entity});
      if ResultBytes(r) + others > lim.maxHealthBytes {
        return ResourceExhausted;
      }
      status := if epoch == UINT64_MAX then Internal else Success;
    }

    method ApplyResult(r: HealthResult) returns (status: Code, changed: bool)
      modifies `health, `epoch
      ensures View() == CommitHealth(lim, old(View()), r) && status == CheckHealth(lim, old(View()), r)
      ensures changed <==> status.Success? && ChangesState(old(health), r)
    {
      changed := false;
      status := CheckResult(r);
      if status.Success? {
        changed := ChangesState(health, r);
        health, epoch := health[r.entity := r], epoch + 1;
      }
    }

    /** `commitHealth`; `changed` tells whether a change event follows. */
    method CommitResult(r: HealthResult) returns (status: Code, changed: bool)
      requires Valid()
      modifies `health, `epoch
      ensures Valid() && View() == CommitHealth(lim, old(View()), r) && status == CheckHealth(lim, old(View()), r)
      ensures changed <==> status.Success? && ChangesState(old(health), r)
    {
      CommitHealthKeeps(lim, View(), r);
      status, changed := ApplyResult(r);
    }
  }
}
