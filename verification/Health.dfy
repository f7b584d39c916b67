/** Heartbeat health: conclusions drawn from stored evidence and gated by its age,
    `MetricsManager::queryHealth` and `evaluate`. */
module Health {
  import opened Base
  import opened Domain
  import E = EvidenceStore

  /** What `activateCatalog` keeps for health. */
  datatype Runtime = Runtime(
    generation: uint64, entity: Option<EntityRef>, supported: bool, freshness: uint64, limitation: string)

  /** Catalogs are checked before they are activated. */
  predicate GoodRuntime(rt: Runtime) {
    && rt.generation != 0 && rt.limitation != "" && rt.freshness != 0
    && (rt.entity.Some? ==> rt.entity.value.kind.Device? && rt.entity.value.generation != 0)
  }

  function EffectiveFreshness(catalog: uint64, requested: uint64): uint64 {
    if requested == 0 then catalog else if catalog < requested then catalog else requested
  }

  /** The conversion of a signed age to 64 unsigned bits. */
  function AsUint64(x: int): uint64 { x % (UINT64_MAX + 1) }

  function Conclusion(rt: Runtime, e: Evidence, now: int, state: HealthState, itemStatus: ObservationStatus,
                      code: HealthCode, limitations: seq<Limitation>): HealthResult
  {
    HealthResult(e.entity, HEARTBEAT_HEALTH_ID, state, itemStatus, rt.generation, now, now - e.observedTime, [RefTo(e)],
                 limitations, code)
  }

  function Failure(rt: Runtime, e: Evidence): (HealthCode, Limitation) {
    match e.status
    case Unsupported => (HeartbeatUnsupported, Limitation(NativeMappingPending, rt.limitation))
    case NotAvailable => (HeartbeatMissing, Limitation(EvidenceMissing, "firmware heartbeat evidence is unavailable"))
    case _ =>
      match e.error.status.code
      case Timeout => (HeartbeatTimeout, Limitation(ReadFailure, "firmware heartbeat read timed out"))
      case Unavailable => (ProviderUnavailable, Limitation(ProviderGone, "provider is unavailable"))
      case _ => (HeartbeatReadError, Limitation(ReadFailure, "firmware heartbeat read failed"))
  }

  function Failing(rt: Runtime, e: Evidence, now: int): HealthResult {
    Conclusion(rt, e, now, UnknownHealth, e.status, Failure(rt, e).0, [Failure(rt, e).1])
  }

  /** `evaluate`. */
  function Evaluate(rt: Runtime, e: Evidence, now: int, freshness: uint64): HealthResult {
    if e.status.Valid? && AsUint64(now - e.observedTime) > freshness then
      Conclusion(rt, e, now, UnknownHealth, Stale, HeartbeatStale,
                 [Limitation(EvidenceStale, "firmware heartbeat evidence exceeded freshness")])
    else if e.status.Valid? then
      match e.nativeClass
      case Normal => Conclusion(rt, e, now, Healthy, Valid, HeartbeatOk, [])
      case Warning => Conclusion(rt, e, now, WarningHealth, Valid, HeartbeatWarning, [])
      case Fault => Conclusion(rt, e, now, ErrorHealth, Valid, HeartbeatFault, [])
      case UnknownNative => Failing(rt, e, now)
    else Failing(rt, e, now)
  }

  /** `unknown`. */
  function Unknown(rt: Runtime, code: HealthCode, itemStatus: ObservationStatus, now: int, l: Limitation): HealthResult
    requires rt.entity.Some?
  {
    HealthResult(rt.entity.value, HEARTBEAT_HEALTH_ID, UnknownHealth, itemStatus, rt.generation, now, 0, [], [l], code)
  }

  /** What `heartbeatAt` concludes from the latest evidence, if there is any. */
  function HeartbeatFrom(rt: Runtime, latest: Option<Evidence>, now: int, freshness: uint64): HealthResult
    requires rt.entity.Some?
  {
    if !rt.supported then
      Unknown(rt, HeartbeatUnsupported, ObservationStatus.Unsupported, now,
              Limitation(NativeMappingPending, rt.limitation))
    else if latest.None? then
      Unknown(rt, HeartbeatMissing, NotAvailable, now,
              Limitation(EvidenceMissing, "firmware heartbeat has not been sampled"))
    else if now < latest.value.observedTime then
      Unknown(rt, HeartbeatReadError, Error, now, Limitation(ReadFailure, "health query time moved backward"))
    else Evaluate(rt, latest.value, now, freshness)
  }

  /** `heartbeatAt`. */
  function HeartbeatAt(rt: Runtime, s: E.State, now: int, freshness: uint64): HealthResult
    requires rt.entity.Some?
  {
    var latest := E.ReadLatest(s, rt.entity.value, rt.generation);
    HeartbeatFrom(rt, if latest.0.Success? then latest.1 else None, now, freshness)
  }

  datatype Request = Request(generation: uint64, entity: EntityRef, subsystem: uint32, maxAge: uint64)

  datatype Answer = Answer(status: Code, item: Option<HealthResult>)

  /** `queryHealth`. */
  function Query(rt: Runtime, s: E.State, q: Request, now: int): Answer {
    if rt.generation == 0 || rt.entity.None? then Answer(NotInitialized, None)
    else if q.generation != 0 && q.generation != rt.generation then Answer(StaleGeneration, None)
    else if q.entity.kind != rt.entity.value.kind || q.entity.id != rt.entity.value.id then Answer(NotFound, None)
    else if q.entity != rt.entity.value then Answer(StaleGeneration, None)
    else if now < 0 then Answer(InvalidArgument, None)
    else if q.subsystem != HEARTBEAT_HEALTH_ID then
      Answer(PartialResult,
             Some(Unknown(rt, HeartbeatUnsupported, ObservationStatus.Unsupported, now,
                          Limitation(CatalogGap, "health subsystem is not supported in P0"))
                  .(subsystem := q.subsystem)))
    else
      var r := HeartbeatAt(rt, s, now, EffectiveFreshness(rt.freshness, q.maxAge));
      Answer(if Determinate(r.state) then Success else PartialResult, Some(r))
  }

  // ----- Laws -----

  /** The metrics manager and the data store look at the same single-device catalog. */
  ghost predicate SameCatalog(rt: Runtime, c: E.Catalog) {
    && rt.generation == c.generation && |c.entities| == 1 && rt.entity == Some(c.entities[0])
    && rt.supported == c.supported && rt.freshness == c.freshness
  }

  /** The evidence supports a conclusion at `now`. */
  predicate Conclusive(e: Evidence, now: int, freshness: uint64) {
    e.status.Valid? && e.observedTime <= now && now - e.observedTime <= freshness
  }

  predicate Timely(now: int) { 0 <= now <= INT64_MAX }

  lemma {:induction false} CastIsExact(x: int)
    requires 0 <= x <= INT64_MAX
    ensures AsUint64(x) == x
  {}

  lemma {:induction false} EvaluateIsDeterminate(rt: Runtime, e: Evidence, now: int, freshness: uint64)
    requires ValidEvidence(e) && Timely(now) && e.observedTime <= now
    ensures Determinate(Evaluate(rt, e, now, freshness).state) <==> Conclusive(e, now, freshness)
  {
    CastIsExact(now - e.observedTime);
  }

  function LastRecord(s: seq<Evidence>): Option<Evidence> { if s == [] then None else Some(s[|s| - 1]) }

  /** A heartbeat query answers from what the store reads as latest. */
  lemma {:induction false} AnswerIs(rt: Runtime, s: E.State, latest: Option<Evidence>, q: Request, now: int)
    requires rt.entity.Some? && rt.generation != 0 && q.subsystem == HEARTBEAT_HEALTH_ID
    requires var read := E.ReadLatest(s, rt.entity.value, rt.generation);
             latest == if read.0.Success? then read.1 else None
    ensures var r := HeartbeatFrom(rt, latest, now, EffectiveFreshness(rt.freshness, q.maxAge));
            var a := Query(rt, s, q, now);
            && (a.item.Some? ==>
                  0 <= now && a == Answer(if Determinate(r.state) then Success else PartialResult, Some(r)))
            && (q.entity == rt.entity.value && (q.generation == 0 || q.generation == rt.generation) && 0 <= now ==>
                  a.item.Some?)
  {}

  /** In a state that is reached a heartbeat query answers from the last record. */
  lemma {:induction false} AnswersFromLast(lim: E.Limits, actions: seq<E.Action>, rt: Runtime, q: Request, now: int)
    requires rt.entity.Some? && SameCatalog(rt, E.Run(lim, actions).catalog) && rt.generation != 0
    requires q.subsystem == HEARTBEAT_HEALTH_ID
    ensures var last := LastRecord(E.Run(lim, actions).evidence);
            var r := HeartbeatFrom(rt, last, now, EffectiveFreshness(rt.freshness, q.maxAge));
            var a := Query(rt, E.Run(lim, actions), q, now);
            && (a.item.Some? ==>
                  0 <= now && a == Answer(if Determinate(r.state) then Success else PartialResult, Some(r)))
            && (q.entity == rt.entity.value && (q.generation == 0 || q.generation == rt.generation) && 0 <= now ==>
                  a.item.Some?)
  {
    var s := E.Run(lim, actions);
    E.RunBelongs(lim, actions);
    assert s.catalog.entities == [rt.entity.value];
    E.ReadsLast(s, rt.entity.value);
    AnswerIs(rt, s, LastRecord(s.evidence), q, now);
  }

  lemma {:induction false} RecordBelongs(lim: E.Limits, actions: seq<E.Action>, i: nat)
    requires i < |E.Run(lim, actions).evidence|
    ensures var s := E.Run(lim, actions);
            E.DevicesOnly(s.catalog) && E.Belongs(s.catalog, s.nextId, s.evidence[i])
  {
    E.RunBelongs(lim, actions);
  }

  lemma {:induction false} DeterminateFrom(rt: Runtime, latest: Option<Evidence>, now: int, freshness: uint64)
    requires rt.entity.Some? && Timely(now) && (latest.Some? ==> ValidEvidence(latest.value))
    ensures Determinate(HeartbeatFrom(rt, latest, now, freshness).state) <==>
            rt.supported && latest.Some? && Conclusive(latest.value, now, freshness)
  {
    if latest.Some? && latest.value.observedTime <= now {
      EvaluateIsDeterminate(rt, latest.value, now, freshness);
    }
  }

  /** In every state the store can reach, a heartbeat query is determinate exactly when heartbeat is
      supported and the last evidence is valid, not from the future and no older than the age limit. */
  lemma {:induction false} DeterminateIff(lim: E.Limits, actions: seq<E.Action>, rt: Runtime, q: Request, now: int)
    requires GoodRuntime(rt) && SameCatalog(rt, E.Run(lim, actions).catalog) && Timely(now)
    requires q.entity == rt.entity.value && (q.generation == 0 || q.generation == rt.generation)
    requires q.subsystem == HEARTBEAT_HEALTH_ID
    ensures var s := E.Run(lim, actions);
            Query(rt, s, q, now).status.Success? <==>
            && rt.supported && s.evidence != []
            && Conclusive(s.evidence[|s.evidence| - 1], now, EffectiveFreshness(rt.freshness, q.maxAge))
  {
    var s := E.Run(lim, actions);
    AnswersFromLast(lim, actions, rt, q, now);
    if s.evidence != [] {
      RecordBelongs(lim, actions, |s.evidence| - 1);
    }
    DeterminateFrom(rt, LastRecord(s.evidence), now, EffectiveFreshness(rt.freshness, q.maxAge));
  }

  // ----- What is concluded -----

  predicate Says(r: HealthResult, state: HealthState, status: ObservationStatus, code: HealthCode) {
    r.state == state && r.itemStatus == status && r.code == code
  }

  /** An unknown answer gives one reason. */
  predicate SaysUnknown(r: HealthResult, status: ObservationStatus, code: HealthCode, why: LimitationCode) {
    Says(r, UnknownHealth, status, code) && |r.limitations| == 1 && r.limitations[0].code == why
  }

  /** No older than the catalog allows and, if the caller names an age, than that. */
  predicate YoungEnough(rt: Runtime, q: Request, age: int) {
    age <= rt.freshness && (q.maxAge != 0 ==> age <= q.maxAge)
  }

  /** What valid evidence that is young enough says: its native class decides. */
  predicate ClassDecides(c: NativeClass, r: HealthResult) {
    match c
    case Normal => Says(r, Healthy, Valid, HeartbeatOk) && r.limitations == []
    case Warning => Says(r, WarningHealth, Valid, HeartbeatWarning) && r.limitations == []
    case Fault => Says(r, ErrorHealth, Valid, HeartbeatFault) && r.limitations == []
    case UnknownNative => false
  }

  /** What failed evidence says: the kind of failure decides. */
  predicate FailureDecides(e: Evidence, r: HealthResult) {
    if e.status.Unsupported? then SaysUnknown(r, e.status, HeartbeatUnsupported, NativeMappingPending)
    else if e.status.NotAvailable? then SaysUnknown(r, e.status, HeartbeatMissing, EvidenceMissing)
    else if e.error.status.code.Timeout? then SaysUnknown(r, e.status, HeartbeatTimeout, ReadFailure)
    else if e.error.status.code.Unavailable? then SaysUnknown(r, e.status, ProviderUnavailable, ProviderGone)
    else SaysUnknown(r, e.status, HeartbeatReadError, ReadFailure)
  }

  /** What the last record, or its absence, makes of a heartbeat query. */
  predicate Concludes(rt: Runtime, latest: Option<Evidence>, q: Request, now: int, r: HealthResult) {
    if !rt.supported then SaysUnknown(r, ObservationStatus.Unsupported, HeartbeatUnsupported, NativeMappingPending)
    else if latest.None? then SaysUnknown(r, NotAvailable, HeartbeatMissing, EvidenceMissing) && r.evidence == []
    else
      var e := latest.value;
      if now < e.observedTime then SaysUnknown(r, Error, HeartbeatReadError, ReadFailure) && r.evidence == []
      else
        && r.evidence == [RefTo(e)] && r.evidenceAge == now - e.observedTime && r.entity == e.entity
        && if !e.status.Valid? then FailureDecides(e, r)
           else if YoungEnough(rt, q, now - e.observedTime) then ClassDecides(e.nativeClass, r)
           else SaysUnknown(r, Stale, HeartbeatStale, EvidenceStale)
  }

  lemma {:induction false} ConcludesFrom(rt: Runtime, latest: Option<Evidence>, q: Request, now: int)
    requires rt.entity.Some? && Timely(now) && (latest.Some? ==> ValidEvidence(latest.value))
    ensures Concludes(rt, latest, q, now,
                      HeartbeatFrom(rt, latest, now, EffectiveFreshness(rt.freshness, q.maxAge)))
  {
    if latest.Some? && latest.value.observedTime <= now {
      CastIsExact(now - latest.value.observedTime);
    }
  }

  /** In every state the store can reach, a heartbeat query concludes from the last record what its native class,
      its age or its failure says, and refers to that record; its status is success exactly when it is
      determinate. */
  lemma {:induction false} QueryConcludes(lim: E.Limits, actions: seq<E.Action>, rt: Runtime, q: Request, now: int)
    requires GoodRuntime(rt) && SameCatalog(rt, E.Run(lim, actions).catalog) && Timely(now)
    requires q.entity == rt.entity.value && (q.generation == 0 || q.generation == rt.generation)
    requires q.subsystem == HEARTBEAT_HEALTH_ID
    ensures var s := E.Run(lim, actions);
            var a := Query(rt, s, q, now);
            && a.item.Some? && Concludes(rt, LastRecord(s.evidence), q, now, a.item.value)
            && a.status == if a.item.value.state.UnknownHealth? then PartialResult else Success
  {
    var s := E.Run(lim, actions);
    AnswersFromLast(lim, actions, rt, q, now);
    if s.evidence != [] {
      RecordBelongs(lim, actions, |s.evidence| - 1);
    }
    ConcludesFrom(rt, LastRecord(s.evidence), q, now);
  }

  /** Every other query is refused, or answered as unsupported. */
  lemma {:induction false} OtherQueries(rt: Runtime, s: E.State, q: Request, now: int)
    requires rt.generation != 0 && rt.entity.Some?
    ensures var a := Query(rt, s, q, now);
            if q.generation !in {0, rt.generation} then a == Answer(StaleGeneration, None)
            else if q.entity == rt.entity.value then
              if now < 0 then a == Answer(InvalidArgument, None)
              else
                && a.item.Some?
                && (q.subsystem != HEARTBEAT_HEALTH_ID ==>
                      && a.status.PartialResult? && a.item.value.subsystem == q.subsystem
                      && SaysUnknown(a.item.value, ObservationStatus.Unsupported, HeartbeatUnsupported, CatalogGap))
            else if (q.entity.kind, q.entity.id) == (rt.entity.value.kind, rt.entity.value.id) then
              a == Answer(StaleGeneration, None)
            else a == Answer(NotFound, None)
  {}

  /** A health manager that has not caught up with a newer catalog concludes nothing. */
  lemma {:induction false} LaggingIsUnknown(rt: Runtime, s: E.State, now: int, freshness: uint64)
    requires rt.entity.Some? && rt.generation != 0 && rt.generation != s.catalog.generation
    ensures !Determinate(HeartbeatAt(rt, s, now, freshness).state)
  {}

  predicate Tighter(a: uint64, b: uint64) { b == 0 || (a != 0 && a <= b) }

  lemma {:induction false} TighterIsLess(catalog: uint64, a: uint64, b: uint64)
    requires Tighter(a, b)
    ensures EffectiveFreshness(catalog, a) <= EffectiveFreshness(catalog, b)
  {}

  /** Asking for younger evidence either leaves a determinate answer as it is or makes it unknown. */
  lemma {:induction false} TighteningKeepsOrDrops(rt: Runtime, s: E.State, q: Request, age: uint64, now: int)
    requires Tighter(age, q.maxAge) && Query(rt, s, q.(maxAge := age), now).status.Success?
    ensures Query(rt, s, q, now) == Query(rt, s, q.(maxAge := age), now)
  {
    TighterIsLess(rt.freshness, age, q.maxAge);
  }

  lemma {:induction false} FailingIsValid(rt: Runtime, e: Evidence, now: int)
    requires GoodRuntime(rt) && ValidEvidence(e) && e.id != 0 && !e.status.Valid? && e.observedTime <= now
    ensures ValidHealthResult(Failing(rt, e, now))
  {
    assert EvidenceRefValid(RefTo(e));
  }

  lemma {:induction false} EvaluatedAt(c: E.Catalog, nextId: nat, rt: Runtime, e: Evidence, now: int, freshness: uint64)
    requires GoodRuntime(rt) && SameCatalog(rt, c) && E.DevicesOnly(c)
    requires E.Belongs(c, nextId, e) && e.observedTime <= now
    ensures ValidHealthResult(Evaluate(rt, e, now, freshness))
  {
    assert EvidenceRefValid(RefTo(e));
    if !e.status.Valid? {
      FailingIsValid(rt, e, now);
    }
  }

  lemma {:induction false} EvaluatedRefersTo(s: seq<Evidence>, rt: Runtime, i: nat, now: int, freshness: uint64)
    requires i < |s| && s[i].observedTime <= now && rt.entity == Some(s[i].entity)
    requires s[i].catalogGeneration == rt.generation
    ensures var r := Evaluate(rt, s[i], now, freshness); E.CheckRefs(s, r, r.evidence).Success?
  {
    var e := s[i];
    var r := Evaluate(rt, e, now, freshness);
    assert E.Matches(e, r.entity, r.catalogGeneration, RefTo(e));
    assert r.evidence == [RefTo(e)] && r.evidence[..0] == [];
    assert E.Stored(s, r.entity, r.catalogGeneration, RefTo(e));
  }

  /** Every result evaluated from stored evidence passes the validator and points at a stored record. */
  lemma {:induction false} EvaluatedIsValid(lim: E.Limits, actions: seq<E.Action>, rt: Runtime, i: nat, now: int,
                                            freshness: uint64)
    requires GoodRuntime(rt) && SameCatalog(rt, E.Run(lim, actions).catalog)
    requires i < |E.Run(lim, actions).evidence| && E.Run(lim, actions).evidence[i].observedTime <= now
    ensures var s := E.Run(lim, actions);
            var r := Evaluate(rt, s.evidence[i], now, freshness);
            ValidHealthResult(r) && E.CheckRefs(s.evidence, r, r.evidence).Success?
  {
    var s := E.Run(lim, actions);
    RecordBelongs(lim, actions, i);
    EvaluatedAt(s.catalog, s.nextId, rt, s.evidence[i], now, freshness);
    EvaluatedRefersTo(s.evidence, rt, i, now, freshness);
  }

  lemma {:induction false} ValidFrom(c: E.Catalog, nextId: nat, rt: Runtime, latest: Option<Evidence>, now: int,
                                     freshness: uint64)
    requires GoodRuntime(rt) && SameCatalog(rt, c) && 0 <= now
    requires latest.Some? ==> E.DevicesOnly(c) && E.Belongs(c, nextId, latest.value)
    ensures ValidHealthResult(HeartbeatFrom(rt, latest, now, freshness))
  {
    if latest.Some? && latest.value.observedTime <= now {
      EvaluatedAt(c, nextId, rt, latest.value, now, freshness);
    }
  }

  /** Every heartbeat answer in a reachable state passes the validator. */
  lemma {:induction false} AnswerIsValid(lim: E.Limits, actions: seq<E.Action>, rt: Runtime, q: Request, now: int)
    requires GoodRuntime(rt) && SameCatalog(rt, E.Run(lim, actions).catalog) && q.subsystem == HEARTBEAT_HEALTH_ID
    ensures var a := Query(rt, E.Run(lim, actions), q, now); a.item.Some? ==> ValidHealthResult(a.item.value)
  {
    var s := E.Run(lim, actions);
    AnswersFromLast(lim, actions, rt, q, now);
    if s.evidence != [] {
      RecordBelongs(lim, actions, |s.evidence| - 1);
    }
    if 0 <= now {
      ValidFrom(s.catalog, s.nextId, rt, LastRecord(s.evidence), now, EffectiveFreshness(rt.freshness, q.maxAge));
    }
  }
}
