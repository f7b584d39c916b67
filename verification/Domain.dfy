/** The records that flow through the daemon and their validators: entities,
    observations, heartbeat evidence and health results. */
module Domain {
  import opened Base

  datatype EntityKind = UnknownKind | Device | NodeKind

  datatype Target = UnknownTarget | Fpga | Emu

  datatype EntityRef = EntityRef(kind: EntityKind, id: uint64, generation: uint64)

  datatype DataKey = DataKey(entity: EntityRef, metric: uint32)

  /** The first entity with the same kind and id, of whatever generation. */
  function FindEntity(es: seq<EntityRef>, e: EntityRef): Option<EntityRef> {
    if es == [] then None
    else if es[0].kind == e.kind && es[0].id == e.id then Some(es[0])
    else FindEntity(es[1..], e)
  }

  datatype Status = Status(code: Code, message: string) {
    predicate Ok() { code.Success? }
  }

  datatype MetricValue =
    | Int64Value(i: int)
    | Uint64Value(u: uint64)
    | DoubleValue(d: real)
    | BoolValue(b: bool)
    | StringValue(s: string)

  /** `valueBytes`. */
  function ValueBytes(v: MetricValue): nat {
    match v case StringValue(s) => |s| case BoolValue(_) => 1 case _ => 8
  }

  const SIZEOF_OBSERVATION: positive

  datatype ObservationStatus = Valid | Stale | NotAvailable | Unsupported | Error

  datatype SourceMetadata = SourceMetadata(provider: string, nativeSource: string)

  datatype ErrorMetadata = ErrorMetadata(status: Status, nativeCode: int, retryable: bool)

  datatype Derivation = Derivation(processorId: string, inputSequences: seq<uint64>, version: uint32, depth: uint8)

  /** One sample of one metric.  Times are signed nanoseconds. */
  datatype Observation = Observation(
    entity: EntityRef,
    metric: uint32,
    value: Option<MetricValue>,
    status: ObservationStatus,
    scheduledTime: int,
    sourceSampleTime: Option<int>,
    observedTime: int,
    semanticVersion: uint32,
    wallTime: int,
    catalogGeneration: uint64,
    commitEpoch: uint64,
    counterEpoch: uint64,
    source: SourceMetadata,
    staleAge: Option<int>,
    latestFailure: Option<ErrorMetadata>,
    error: ErrorMetadata,
    derivation: Derivation)

  predicate ProvenanceValid(d: Derivation) {
    && d.depth <= 4
    && if d.processorId == "" then d.depth == 0 && d.version == 0 && d.inputSequences == []
       else d.depth != 0 && d.version != 0 && d.inputSequences != []
  }

  /** `validateObservation`. */
  predicate ValidObservation(o: Observation) {
    && !o.entity.kind.UnknownKind? && o.entity.generation != 0 && o.metric != 0 && o.semanticVersion != 0
    && 0 <= o.scheduledTime && 0 <= o.observedTime && o.catalogGeneration != 0
    && (o.sourceSampleTime.Some? ==> 0 <= o.sourceSampleTime.value)
    && (match o.status
        case Valid => o.value.Some? && o.error.status.Ok() && o.staleAge.None? && o.latestFailure.None?
        case Stale =>
          && o.value.Some? && o.staleAge.Some? && 0 <= o.staleAge.value
          && o.latestFailure.Some? && !o.latestFailure.value.status.Ok()
        case _ => o.value.None? && !o.error.status.Ok() && o.staleAge.None? && o.latestFailure.None?)
    && ProvenanceValid(o.derivation)
  }

  // ----- Heartbeat evidence and health -----

  datatype NativeClass = Normal | Warning | Fault | UnknownNative

  datatype Evidence = Evidence(
    id: uint64,
    entity: EntityRef,
    providerDataId: uint32,
    nativeClass: NativeClass,
    status: ObservationStatus,
    token: uint64,
    sampleTime: Option<int>,
    observedTime: int,
    source: SourceMetadata,
    error: ErrorMetadata,
    catalogGeneration: uint64)

  /** `validateFirmwareHeartbeatEvidence`. */
  predicate ValidEvidence(e: Evidence) {
    && e.entity.kind.Device? && e.entity.generation != 0 && e.providerDataId != 0
    && e.catalogGeneration != 0 && 0 <= e.observedTime
    && (e.sampleTime.Some? ==> 0 <= e.sampleTime.value) && e.source.provider != ""
    && !e.status.Stale?
    && if e.status.Valid? then !e.nativeClass.UnknownNative? && e.sampleTime.Some? && e.error.status.Ok()
       else e.nativeClass.UnknownNative? && !e.error.status.Ok()
  }

  datatype EvidenceRef = EvidenceRef(
    id: uint64, token: uint64, sampleTime: Option<int>, observedTime: int, source: SourceMetadata)

  function RefTo(e: Evidence): EvidenceRef {
    EvidenceRef(e.id, e.token, e.sampleTime, e.observedTime, e.source)
  }

  datatype HealthState = Healthy | UnknownHealth | WarningHealth | ErrorHealth

  datatype HealthCode =
    | HeartbeatOk
    | HeartbeatWarning
    | HeartbeatFault
    | HeartbeatMissing
    | HeartbeatStale
    | HeartbeatTimeout
    | HeartbeatReadError
    | HeartbeatUnsupported
    | ProviderUnavailable
    | ProcessorError

  datatype LimitationCode =
    | CatalogGap
    | NativeMappingPending
    | ProviderGone
    | EvidenceMissing
    | EvidenceStale
    | ReadFailure
    | ProcessorFailure

  datatype Limitation = Limitation(code: LimitationCode, detail: string)

  const HEARTBEAT_HEALTH_ID: uint32 := 1

  datatype HealthResult = HealthResult(
    entity: EntityRef,
    subsystem: uint32,
    state: HealthState,
    itemStatus: ObservationStatus,
    catalogGeneration: uint64,
    evaluatedTime: int,
    evidenceAge: int,
    evidence: seq<EvidenceRef>,
    limitations: seq<Limitation>,
    code: HealthCode)

  predicate Determinate(s: HealthState) { !s.UnknownHealth? }

  predicate EvidenceRefValid(r: EvidenceRef) {
    && r.id != 0 && 0 <= r.observedTime && (r.sampleTime.Some? ==> 0 <= r.sampleTime.value)
    && r.source.provider != ""
  }

  predicate CodeMatchesState(s: HealthState, c: HealthCode) {
    match s
    case Healthy => c.HeartbeatOk?
    case WarningHealth => c.HeartbeatWarning?
    case ErrorHealth => c.HeartbeatFault?
    case UnknownHealth => !c.HeartbeatOk? && !c.HeartbeatWarning? && !c.HeartbeatFault?
  }

  /** `validateHealthResult`. */
  predicate ValidHealthResult(r: HealthResult) {
    && r.entity.kind.Device? && r.entity.generation != 0 && r.subsystem == HEARTBEAT_HEALTH_ID
    && r.catalogGeneration != 0 && 0 <= r.evaluatedTime && 0 <= r.evidenceAge
    && (forall e :: e in r.evidence ==> EvidenceRefValid(e))
    && (forall l :: l in r.limitations ==> l.detail != "")
    && CodeMatchesState(r.state, r.code)
    && if Determinate(r.state) then r.itemStatus.Valid? && r.evidence != [] else !r.itemStatus.Valid?
  }
}
