/** Reading the latest observations, told against the commit log: `DataManager::readLatest`. */
module DataRead {
  import opened Base
  import opened Domain
  import opened DataLog
  import opened KeyOrder

  datatype ValueKind = Int64Kind | Uint64Kind | EnumKind | DoubleKind | BoolKind | StringKind

  datatype Descriptor = Descriptor(semanticVersion: uint32, valueKind: ValueKind, freshness: uint64)

  datatype CatalogState = CatalogState(
    generation: uint64, unsupported: bool, entities: seq<EntityRef>, metrics: map<uint32, Descriptor>)

  /** What `activateCatalog` checks of a snapshot. */
  predicate GoodCatalog(c: CatalogState) {
    forall e :: e in c.entities ==> e.kind.Device? && e.generation != 0
  }

  // ----- One item -----

  datatype Looked = Item(o: Observation) | Failed(status: Code)

  /** The stand-in for a metric that has no sample. */
  function Missing(k: DataKey, version: uint32, generation: uint64, epoch: uint64, now: int, code: Code,
                   status: ObservationStatus, message: string): Observation
  {
    Observation(k.entity, k.metric, None, status, 0, None, now, if version == 0 then 1 else version, 0, generation,
                epoch, 0, SourceMetadata("pdcm-data", ""), None, None, ErrorMetadata(Status(code, message), 0, false),
                Derivation("", [], 0, 0))
  }

  /** The last valid sample relabelled after a failure. */
  function Relabelled(valid: Observation, failure: Observation, now: int): Observation {
    valid.(status := Stale, commitEpoch := failure.commitEpoch, staleAge := Some(now - valid.observedTime),
           latestFailure := Some(failure.error), error := failure.error)
  }

  /** What a read returns for one key whose committed observations are `l`. */
  function Look(c: CatalogState, epoch: uint64, l: seq<Observation>, k: DataKey, allowStale: bool, now: int): Looked {
    var e := FindEntity(c.entities, k.entity);
    if e.None? then Failed(NotFound)
    else if e.value != k.entity then Failed(StaleGeneration)
    else if k.metric !in c.metrics then
      Item(Missing(k, 0, c.generation, epoch, now, Code.Unsupported, ObservationStatus.Unsupported,
                   "metric is not in active catalog"))
    else if l == [] then
      Item(Missing(k, c.metrics[k.metric].semanticVersion, c.generation, epoch, now, Unavailable, NotAvailable,
                   "metric has not been sampled"))
    else
      var last, valid := l[|l| - 1], LastOf(Valids(l));
      if last.status.Valid? || !allowStale || valid.None? then Item(last)
      else if now < valid.value.observedTime then Failed(InvalidArgument)
      else Item(Relabelled(valid.value, last, now))
  }

  /** The committed observations that reads may meet. */
  ghost predicate GoodLog(c: CatalogState, epoch: uint64, log: seq<Observation>) {
    forall o :: o in log ==> GoodCommit(c, epoch, o)
  }

  predicate GoodCommit(c: CatalogState, epoch: uint64, o: Observation) {
    && ValidObservation(o) && !o.status.Stale? && o.catalogGeneration == c.generation && 1 <= o.commitEpoch <= epoch
  }

  lemma {:induction false} FoundIsIn(es: seq<EntityRef>, e: EntityRef)
    requires FindEntity(es, e) == Some(e)
    ensures e in es
  {
    if !(es[0].kind == e.kind && es[0].id == e.id) {
      FoundIsIn(es[1..], e);
    }
  }

  /** Whatever a read returns for a real metric is a valid observation of the key it was asked for,
      and no later than the current epoch. */
  lemma {:induction false} LookIsValid(c: CatalogState, epoch: uint64, log: seq<Observation>, k: DataKey,
                                       allowStale: bool, now: int)
    requires GoodCatalog(c) && GoodLog(c, epoch, log) && c.generation != 0 && 0 <= now
    ensures var r := Look(c, epoch, LogOf(log, k), k, allowStale, now);
            r.Item? ==> KeyOf(r.o) == k && r.o.commitEpoch <= epoch && (k.metric != 0 ==> ValidObservation(r.o))
  {
    var l := LogOf(log, k);
    var r := Look(c, epoch, l, k, allowStale, now);
    if r.Item? {
      FoundIsIn(c.entities, k.entity);
      if l != [] {
        var last := l[|l| - 1];
        LogOfMembers(log, k, last);
        if Valids(l) != [] {
          var v := Valids(l)[|Valids(l)| - 1];
          ValidsMembers(l, v);
          LogOfMembers(log, k, v);
        }
      }
    }
  }

  // ----- A whole read -----

  datatype ReadOutcome = Refused(code: Code) | Items(items: seq<Observation>)

  function LookAll(c: CatalogState, epoch: uint64, log: seq<Observation>, keys: seq<DataKey>, allowStale: bool,
                   now: int):
    ReadOutcome
  {
    if keys == [] then Items([])
    else
      var n := |keys| - 1;
      match LookAll(c, epoch, log, keys[..n], allowStale, now)
      case Refused(code) => Refused(code)
      case Items(xs) =>
        match Look(c, epoch, LogOf(log, keys[n]), keys[n], allowStale, now)
        case Failed(code) => Refused(code)
        case Item(o) => Items(xs + [o])
  }

  /** The checks before any key is looked at. */
  function ReadGate(c: CatalogState, maxQuery: positive, keys: seq<DataKey>, now: int, required: uint64): Code {
    if keys == [] || |keys| > maxQuery || now < 0 then InvalidArgument
    else if EqualNeighbours(SortKeys(keys)) then InvalidArgument
    else if c.generation == 0 then NotInitialized
    else if required != 0 && required != c.generation then StaleGeneration
    else if c.unsupported then Code.Unsupported
    else Success
  }

  function ReadSpec(c: CatalogState, maxQuery: positive, epoch: uint64, log: seq<Observation>, keys: seq<DataKey>,
                    allowStale: bool, now: int, required: uint64): ReadOutcome
  {
    var gate := ReadGate(c, maxQuery, keys, now, required);
    if !gate.Success? then Refused(gate) else LookAll(c, epoch, log, SortKeys(keys), allowStale, now)
  }

  lemma {:induction false} LookAllStep(c: CatalogState, epoch: uint64, log: seq<Observation>, keys: seq<DataKey>,
                                       k: DataKey, allowStale: bool, now: int)
    ensures LookAll(c, epoch, log, keys + [k], allowStale, now) ==
            match LookAll(c, epoch, log, keys, allowStale, now)
            case Refused(code) => Refused(code)
            case Items(xs) =>
              match Look(c, epoch, LogOf(log, k), k, allowStale, now)
              case Failed(code) => Refused(code)
              case Item(o) => Items(xs + [o])
  {
    assert (keys + [k])[..|keys|] == keys;
  }

  /** A refusal of the first keys refuses all. */
  lemma {:induction false} LookAllRefused(c: CatalogState, epoch: uint64, log: seq<Observation>, keys: seq<DataKey>,
                                          n: nat, allowStale: bool, now: int)
    requires n <= |keys| && LookAll(c, epoch, log, keys[..n], allowStale, now).Refused?
    ensures LookAll(c, epoch, log, keys, allowStale, now) == LookAll(c, epoch, log, keys[..n], allowStale, now)
  {
    if n == |keys| {
      assert keys[..n] == keys;
    } else {
      var m := |keys| - 1;
      assert keys[..m][..n] == keys[..n];
      LookAllRefused(c, epoch, log, keys[..m], n, allowStale, now);
    }
  }

  /** A read returns one item per key in key order, each valid and none beyond the current epoch. */
  lemma {:induction false} ItemsAreValid(c: CatalogState, epoch: uint64, log: seq<Observation>, keys: seq<DataKey>,
                                         allowStale: bool, now: int)
    requires GoodCatalog(c) && GoodLog(c, epoch, log) && c.generation != 0 && 0 <= now
    ensures var r := LookAll(c, epoch, log, keys, allowStale, now);
            r.Items? ==>
              && |r.items| == |keys|
              && forall i :: 0 <= i < |keys| ==>
                               && KeyOf(r.items[i]) == keys[i] && r.items[i].commitEpoch <= epoch
                               && (keys[i].metric != 0 ==> ValidObservation(r.items[i]))
  {
    if keys != [] {
      var n := |keys| - 1;
      ItemsAreValid(c, epoch, log, keys[..n], allowStale, now);
      LookIsValid(c, epoch, log, keys[n], allowStale, now);
    }
  }
}
