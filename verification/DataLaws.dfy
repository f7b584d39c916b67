/** Which batches the data store commits and what a read returns, told from the fields of observations. */
module DataLaws {
  import opened Base
  import opened Domain
  import opened DataLog
  import opened DataRead
  import opened DataShards
  import opened DataStore

  // ----- Which batches are committed -----

  /** A value of the type its metric is described with. */
  predicate OfKind(kind: ValueKind, v: MetricValue) {
    && (v.Int64Value? <==> kind.Int64Kind?)
    && (v.Uint64Value? <==> kind.Uint64Kind? || kind.EnumKind?)
    && (v.DoubleValue? <==> kind.DoubleKind?)
    && (v.BoolValue? <==> kind.BoolKind?)
    && (v.StringValue? <==> kind.StringKind?)
  }

  /** Exactly the valid observations carry a value and no error; a derived one names its inputs. */
  predicate Coherent(o: Observation) {
    && (o.value.Some? <==> o.status.Valid?) && (o.error.status.code.Success? <==> o.status.Valid?)
    && o.staleAge.None? && o.latestFailure.None?
    && (o.derivation.processorId == "" <==> o.derivation.depth == 0)
    && (o.derivation.processorId == "" <==> o.derivation.version == 0)
    && (o.derivation.processorId == "" <==> o.derivation.inputSequences == []) && o.derivation.depth <= 4
  }

  predicate OfCatalog(c: CatalogState, o: Observation) {
    o.commitEpoch == 0 && o.catalogGeneration == c.generation && !o.status.Stale? && o.entity in c.entities
  }

  /** What `commit` asks of one observation, whatever its status. */
  predicate Committable(lim: Limits, c: CatalogState, o: Observation) {
    && OfCatalog(c, o) && o.metric in c.metrics && o.metric != 0
    && !o.entity.kind.UnknownKind? && o.entity.generation != 0 && o.catalogGeneration != 0
    && o.semanticVersion == c.metrics[o.metric].semanticVersion != 0
    && 0 <= o.scheduledTime && 0 <= o.observedTime && (o.sourceSampleTime.Some? ==> 0 <= o.sourceSampleTime.value)
    && Coherent(o)
    && (o.value.Some? ==>
          OfKind(c.metrics[o.metric].valueKind, o.value.value) && ValueBytes(o.value.value) <= lim.maxValueBytes)
  }

  predicate KeyRepeats(batch: seq<Observation>, i: nat)
    requires i < |batch|
  {
    exists j :: 0 <= j < i && KeyOf(batch[j]) == KeyOf(batch[i])
  }

  predicate FineAt(lim: Limits, c: CatalogState, batch: seq<Observation>, i: nat)
    requires i < |batch|
  {
    Committable(lim, c, batch[i]) && !KeyRepeats(batch, i)
  }

  lemma {:induction false} NoRefusalIff(lim: Limits, c: CatalogState, seen: bool, o: Observation)
    ensures Refusal(lim, c, seen, o).Success? <==> !seen && Committable(lim, c, o)
    ensures !Refusal(lim, c, seen, o).Success? ==>
              Refusal(lim, c, seen, o) ==
              if !seen && !OfCatalog(c, o) then StaleGeneration
              else if !seen && o.metric !in c.metrics then Code.Unsupported
              else InvalidArgument
  {}

  lemma {:induction false} SeenIff(batch: seq<Observation>, i: nat)
    requires i < |batch|
    ensures KeyOf(batch[i]) in BatchKeys(batch[..i]) <==> KeyRepeats(batch, i)
  {
    if KeyRepeats(batch, i) {
      var j :| 0 <= j < i && KeyOf(batch[j]) == KeyOf(batch[i]);
      assert batch[..i][j] in batch[..i];
    }
    if KeyOf(batch[i]) in BatchKeys(batch[..i]) {
      var o :| o in batch[..i] && KeyOf(o) == KeyOf(batch[i]);
      var j :| 0 <= j < i && batch[..i][j] == o;
    }
  }

  lemma {:induction false} FinePrefix(lim: Limits, c: CatalogState, batch: seq<Observation>, n: nat, i: nat)
    requires i < n <= |batch|
    ensures FineAt(lim, c, batch[..n], i) <==> FineAt(lim, c, batch, i)
  {
    if KeyRepeats(batch, i) {
      var j :| 0 <= j < i && KeyOf(batch[j]) == KeyOf(batch[i]);
      assert KeyOf(batch[..n][j]) == KeyOf(batch[..n][i]);
    }
  }

  /** The checks of `commit` let a batch pass if and only if each observation is committable and no key comes
      twice: a failed observation passes like a valid one. */
  lemma {:induction false} BatchPassesIff(lim: Limits, c: CatalogState, batch: seq<Observation>)
    ensures FirstRefusal(lim, c, batch).Success? <==> forall i :: 0 <= i < |batch| ==> FineAt(lim, c, batch, i)
  {
    if batch != [] {
      var n := |batch| - 1;
      BatchPassesIff(lim, c, batch[..n]);
      forall i | 0 <= i < n ensures FineAt(lim, c, batch[..n], i) <==> FineAt(lim, c, batch, i) {
        FinePrefix(lim, c, batch, n, i);
      }
      SeenIff(batch, n);
      NoRefusalIff(lim, c, KeyRepeats(batch, n), batch[n]);
      assert (forall i :: 0 <= i < |batch| ==> FineAt(lim, c, batch, i)) <==>
             (forall i :: 0 <= i < n ==> FineAt(lim, c, batch[..n], i)) && FineAt(lim, c, batch, n);
    }
  }

  /** Otherwise the first observation that is not fine decides the answer. */
  lemma {:induction false} FirstOffender(lim: Limits, c: CatalogState, batch: seq<Observation>, i: nat)
    requires i < |batch| && !FineAt(lim, c, batch, i)
    requires forall j :: 0 <= j < i ==> FineAt(lim, c, batch, j)
    ensures FirstRefusal(lim, c, batch) ==
            if !KeyRepeats(batch, i) && !OfCatalog(c, batch[i]) then StaleGeneration
            else if !KeyRepeats(batch, i) && batch[i].metric !in c.metrics then Code.Unsupported
            else InvalidArgument
  {
    var t := batch[..i + 1];
    assert t[..i] == batch[..i];
    forall j | 0 <= j < i ensures FineAt(lim, c, batch[..i], j) {
      FinePrefix(lim, c, batch, i, j);
    }
    BatchPassesIff(lim, c, batch[..i]);
    SeenIff(batch, i);
    NoRefusalIff(lim, c, KeyRepeats(batch, i), batch[i]);
    RefusalStands(lim, c, batch, i + 1);
  }

  // ----- Order of time -----

  /** No observation is older than the last one committed for its key. */
  predicate NotOlder(log: seq<Observation>, o: Observation) {
    var l := LogOf(log, KeyOf(o));
    l != [] ==> l[|l| - 1].observedTime <= o.observedTime
  }

  lemma {:induction false} OtherKeysDoNotMatter(log: seq<Observation>, batch: seq<Observation>, k: DataKey)
    requires forall i :: 0 <= i < |batch| ==> KeyOf(batch[i]) != k
    ensures LogOf(log + batch, k) == LogOf(log, k)
  {
    if batch == [] {
      assert log + batch == log;
    } else {
      var n := |batch| - 1;
      assert log + batch == log + batch[..n] + [batch[n]];
      LogOfStep(log + batch[..n], batch[n], k);
      OtherKeysDoNotMatter(log, batch[..n], k);
    }
  }

  lemma {:induction false} LastInOrder(log: seq<Observation>, batch: seq<Observation>, n: nat)
    requires |batch| == n + 1 && !KeyRepeats(batch, n)
    ensures OlderThanLog(log + batch[..n], batch[n]) <==> !NotOlder(log, batch[n])
  {
    forall i | 0 <= i < n ensures KeyOf(batch[..n][i]) != KeyOf(batch[n]) {
      assert batch[..n][i] == batch[i];
    }
    OtherKeysDoNotMatter(log, batch[..n], KeyOf(batch[n]));
  }

  ghost predicate KeysDiffer(batch: seq<Observation>) {
    forall i, j :: 0 <= i < j < |batch| ==> KeyOf(batch[i]) != KeyOf(batch[j])
  }

  ghost predicate NoneOlder(log: seq<Observation>, batch: seq<Observation>) {
    forall i :: 0 <= i < |batch| ==> NotOlder(log, batch[i])
  }

  lemma {:induction false} NoneOlderStep(log: seq<Observation>, batch: seq<Observation>, n: nat)
    requires |batch| == n + 1
    ensures NoneOlder(log, batch) <==> NoneOlder(log, batch[..n]) && NotOlder(log, batch[n])
  {
    assert forall i :: 0 <= i < n ==> batch[..n][i] == batch[i];
  }

  lemma {:induction false} InOrderIff(log: seq<Observation>, batch: seq<Observation>)
    requires KeysDiffer(batch)
    ensures InOrder(log, batch) <==> NoneOlder(log, batch)
  {
    if batch != [] {
      var n := |batch| - 1;
      InOrderIff(log, batch[..n]);
      LastInOrder(log, batch, n);
      NoneOlderStep(log, batch, n);
    }
  }

  lemma {:induction false} StampedOrder(log: seq<Observation>, batch: seq<Observation>, epoch: uint64)
    requires KeysDiffer(batch)
    ensures InOrder(log, Stamped(batch, epoch)) <==> NoneOlder(log, batch)
  {
    var t := Stamped(batch, epoch);
    assert forall i :: 0 <= i < |batch| ==>
                         KeyOf(t[i]) == KeyOf(batch[i]) && t[i].observedTime == batch[i].observedTime;
    InOrderIff(log, t);
    forall i | 0 <= i < |batch| ensures NotOlder(log, t[i]) <==> NotOlder(log, batch[i]) {}
  }

  lemma {:induction false} FineKeysDiffer(lim: Limits, c: CatalogState, batch: seq<Observation>)
    requires forall i :: 0 <= i < |batch| ==> FineAt(lim, c, batch, i)
    ensures KeysDiffer(batch)
  {
    forall i, j | 0 <= i < j < |batch| ensures KeyOf(batch[i]) != KeyOf(batch[j]) {
      assert FineAt(lim, c, batch, j);
    }
  }

  /** A batch passes all checks that do not depend on sizes if and only if it is not empty, a catalog of at most
      one device is active, there is a next epoch, and every observation is committable, alone with its key and
      no older than the last one committed for that key. */
  lemma {:induction false} CommitPassesIff(lim: Limits, c: CatalogState, epoch: uint64, log: seq<Observation>,
                                           batch: seq<Observation>)
    ensures CommitCheck(lim, c, epoch, log, batch).Success? <==>
            && batch != [] && c.generation != 0 && !c.unsupported && epoch < UINT64_MAX
            && (forall i :: 0 <= i < |batch| ==> FineAt(lim, c, batch, i)) && NoneOlder(log, batch)
  {
    BatchPassesIff(lim, c, batch);
    if forall i :: 0 <= i < |batch| ==> FineAt(lim, c, batch, i) {
      FineKeysDiffer(lim, c, batch);
      if epoch < UINT64_MAX {
        StampedOrder(log, batch, epoch + 1);
      }
    }
  }

  /** What a batch is refused with before its observations are looked at, and after. */
  lemma {:induction false} CommitRefusedWith(lim: Limits, c: CatalogState, epoch: uint64, log: seq<Observation>,
                                             batch: seq<Observation>)
    ensures CommitCheck(lim, c, epoch, log, batch) ==
            if batch == [] then InvalidArgument
            else if c.generation == 0 then NotInitialized
            else if c.unsupported then Code.Unsupported
            else if epoch == UINT64_MAX then Internal
            else if exists i :: 0 <= i < |batch| && !FineAt(lim, c, batch, i) then FirstRefusal(lim, c, batch)
            else if !NoneOlder(log, batch) then InvalidArgument
            else Success
  {
    BatchPassesIff(lim, c, batch);
    CommitPassesIff(lim, c, epoch, log, batch);
  }

  // ----- What a read returns -----

  /** The last valid observation of a key is the `i`th. */
  predicate LastValidAt(l: seq<Observation>, i: nat) {
    i < |l| && l[i].status.Valid? && forall j :: i < j < |l| ==> !l[j].status.Valid?
  }

  lemma {:induction false} LastValidIs(l: seq<Observation>, i: nat)
    requires LastValidAt(l, i)
    ensures LastOf(Valids(l)) == Some(l[i])
  {
    var n := |l| - 1;
    if i < n {
      LastValidIs(l[..n], i);
    }
  }

  lemma {:induction false} NoneValid(l: seq<Observation>)
    requires forall j :: 0 <= j < |l| ==> !l[j].status.Valid?
    ensures LastOf(Valids(l)).None?
  {
    if l != [] {
      NoneValid(l[..|l| - 1]);
    }
  }

  /** A read of a key whose entity and metric are in the catalog.  A valid last observation is returned as it is.
      After a failure, when stale values are welcome and there was a valid one, the last valid one is returned as
      stale: with its age, and with the failure and the epoch of the last observation; an age before its own time
      is refused.  In all other cases the failure itself is returned. */
  lemma {:induction false} StaleLaw(c: CatalogState, epoch: uint64, l: seq<Observation>, k: DataKey, allowStale: bool,
                                    now: int)
    requires FindEntity(c.entities, k.entity) == Some(k.entity) && k.metric in c.metrics && l != []
    ensures var r, last := Look(c, epoch, l, k, allowStale, now), l[|l| - 1];
            && (last.status.Valid? || !allowStale || (forall j :: 0 <= j < |l| ==> !l[j].status.Valid?) ==>
                  r == Item(last))
            && (!last.status.Valid? && allowStale ==>
                  forall i: nat :: LastValidAt(l, i) ==>
                                if now < l[i].observedTime then r == Failed(InvalidArgument)
                                else
                                  && r.Item? && r.o.status.Stale? && r.o.value == l[i].value
                                  && r.o.observedTime == l[i].observedTime && r.o.source == l[i].source
                                  && r.o.staleAge == Some(now - l[i].observedTime)
                                  && r.o.latestFailure == Some(last.error) && r.o.commitEpoch == last.commitEpoch
                                  && KeyOf(r.o) == KeyOf(l[i]))
  {
    if forall j :: 0 <= j < |l| ==> !l[j].status.Valid? {
      NoneValid(l);
    }
    forall i: nat | LastValidAt(l, i) ensures LastOf(Valids(l)) == Some(l[i]) {
      LastValidIs(l, i);
    }
  }

  /** The `i`th entity is the first of this kind and id. */
  predicate FirstSame(es: seq<EntityRef>, e: EntityRef, i: nat) {
    && i < |es| && es[i].kind == e.kind && es[i].id == e.id
    && forall j :: 0 <= j < i ==> es[j].kind != e.kind || es[j].id != e.id
  }

  lemma {:induction false} FindIs(es: seq<EntityRef>, e: EntityRef, i: nat)
    ensures FirstSame(es, e, i) ==> FindEntity(es, e) == Some(es[i])
    ensures (forall f :: f in es ==> f.kind != e.kind || f.id != e.id) ==> FindEntity(es, e).None?
    decreases |es|
  {
    if es != [] {
      FindIs(es[1..], e, if i == 0 then 0 else i - 1);
      assert es == [es[0]] + es[1..];
    }
  }

  /** A read that cannot be answered from samples: an unknown entity or one of another generation fails, an
      unknown metric and one that was never sampled give an item without a value that says so. */
  lemma {:induction false} NoSampleLaw(c: CatalogState, epoch: uint64, l: seq<Observation>, k: DataKey,
                                       allowStale: bool, now: int, i: nat)
    ensures var r := Look(c, epoch, l, k, allowStale, now);
            && ((forall e :: e in c.entities ==> e.kind != k.entity.kind || e.id != k.entity.id) ==>
                  r == Failed(NotFound))
            && (FirstSame(c.entities, k.entity, i) ==>
                  if c.entities[i].generation != k.entity.generation then r == Failed(StaleGeneration)
                  else if k.metric !in c.metrics then
                    && r.Item? && KeyOf(r.o) == k && r.o.status.Unsupported? && r.o.value.None?
                    && r.o.error.status.code == Code.Unsupported && r.o.commitEpoch == epoch
                  else l == [] ==>
                    && r.Item? && KeyOf(r.o) == k && r.o.status.NotAvailable? && r.o.value.None?
                    && r.o.error.status.code == Unavailable && r.o.commitEpoch == epoch)
  {
    FindIs(c.entities, k.entity, i);
  }
}
