/** Which heartbeat evidence and which health results the store accepts. */
module EvidenceLaws {
  import opened Base
  import opened Collections
  import opened Domain
  import opened EvidenceStore

  // ----- Evidence -----

  /** Evidence the active catalog can take, with numbers left for it. */
  predicate Welcome(s: State, e: Evidence) {
    && e.id == 0 && ValidEvidence(e)
    && s.catalog.generation != 0 && !s.catalog.unsupported && e.catalogGeneration == s.catalog.generation
    && e.entity in s.catalog.entities && s.catalog.present && s.catalog.supported
    && s.catalog.dataId == Some(e.providerDataId) && s.epoch < UINT64_MAX && s.nextId < UINT64_MAX
  }

  lemma {:induction false} WelcomeIff(s: State, e: Evidence)
    ensures CheckEvidence(s, e).Success? <==> Welcome(s, e)
  {}

  /** Later than everything stored and, if valid, with a greater token and sample time than all valid records. */
  predicate Later(records: seq<Evidence>, e: Evidence) {
    && (forall i :: 0 <= i < |records| ==> records[i].observedTime < e.observedTime)
    && (e.status.Valid? ==>
          forall i :: 0 <= i < |records| && records[i].status.Valid? ==> AfterRecord(records[i], e))
  }

  predicate AfterRecord(v: Evidence, e: Evidence) {
    v.token < e.token && v.sampleTime.Some? && e.sampleTime.Some? && v.sampleTime.value < e.sampleTime.value
  }

  lemma {:induction false} LastValidIn(s: seq<Evidence>, entity: EntityRef)
    ensures LastValid(s, entity).Some? ==> LastValid(s, entity).value in s && LastValid(s, entity).value.status.Valid?
  {
    if s != [] {
      LastValidIn(s[..|s| - 1], entity);
    }
  }

  /** With one device, new evidence compares as newer if and only if it is later than all records. */
  lemma {:induction false} NewerIff(s: State, e: Evidence)
    requires AllBelong(s.catalog, s.nextId, s.evidence) && LatestInv(s.catalog, s.evidence, s.latest)
    requires Chain(s.evidence) && s.catalog.entities == [e.entity] && ValidEvidence(e) && e.id == 0
    ensures Compare(s, e).Newer? <==> Later(s.evidence, e)
    ensures Compare(s, e).Repeated? <==> s.evidence != [] && s.evidence[|s.evidence| - 1].(id := 0) == e
  {
    LatestIsLast(s, e.entity);
    LastValidIn(s.evidence, e.entity);
    if s.evidence != [] {
      TimesUpToLast(s.evidence, e);
    }
    if e.status.Valid? {
      TokensUpToLast(s, e);
    }
  }

  lemma {:induction false} TimesUpToLast(s: seq<Evidence>, e: Evidence)
    requires Chain(s) && s != []
    ensures (forall i :: 0 <= i < |s| ==> s[i].observedTime < e.observedTime) <==>
            s[|s| - 1].observedTime < e.observedTime
  {
    forall i | 0 <= i < |s| - 1 ensures s[i].observedTime < s[|s| - 1].observedTime {
      assert Follows(s[i], s[|s| - 1]);
    }
  }

  lemma {:induction false} TokensUpToLast(s: State, e: Evidence)
    requires AllBelong(s.catalog, s.nextId, s.evidence) && Chain(s.evidence)
    requires s.catalog.entities == [e.entity] && ValidEvidence(e) && e.status.Valid?
    ensures var v := LastValid(s.evidence, e.entity);
            (v.Some? ==> AfterValid(v.value, e)) <==>
            forall i :: 0 <= i < |s.evidence| && s.evidence[i].status.Valid? ==> AfterRecord(s.evidence[i], e)
  {
    var v := LastValid(s.evidence, e.entity);
    LastValidIn(s.evidence, e.entity);
    forall i | 0 <= i < |s.evidence| && s.evidence[i].status.Valid?
      ensures v.Some? && (AfterValid(v.value, e) ==> AfterRecord(s.evidence[i], e))
    {
      assert Belongs(s.catalog, s.nextId, s.evidence[i]);
      LastValidIs(s.evidence, e.entity, i);
    }
    if v.Some? {
      var i :| 0 <= i < |s.evidence| && s.evidence[i] == v.value;
      assert Belongs(s.catalog, s.nextId, s.evidence[i]);
    }
  }

  // ----- Capacity -----

  lemma {:induction false} TightWithout(h: HealthMap, s: seq<Evidence>, x: Evidence, k: nat)
    requires k < |s| && Loose(h, x, s[k])
    ensures Tight(h, Without(s, k), x) == Tight(h, s, x)
  {
    DropAllWithout(s, LooseIn(h, x), k);
  }

  lemma {:induction false} UnexpiredTight(lim: Limits, h: HealthMap, s: seq<Evidence>, x: Evidence, i: nat)
    requires i <= |s|
    ensures Tight(h, Unexpired(lim, h, s, x, i), x) == Tight(h, s, x)
    decreases |s| - i
  {
    if i < |s| {
      if Expired(lim, h, x, s[i]) {
        TightWithout(h, s, x, i);
        UnexpiredTight(lim, h, Without(s, i), x, i);
      } else {
        UnexpiredTight(lim, h, s, x, i + 1);
      }
    }
  }

  /** There is room exactly when the records that results refer to and the new one fit. */
  lemma {:induction false} KeptIff(lim: Limits, s: State, x: Evidence)
    ensures Kept(lim, s, x).Some? <==> Fits(lim, Tight(s.health, s.evidence + [x], x))
  {
    UnexpiredTight(lim, s.health, s.evidence + [x], x, 0);
    TrimGivesUp(lim, s.health, Unexpired(lim, s.health, s.evidence + [x], x, 0), x);
  }

  /** What becomes of evidence `e` in a state with one device. */
  ghost predicate Received(lim: Limits, s: State, e: Evidence, o: Outcome) {
    var x := e.(id := s.nextId);
    var last := if s.evidence == [] then None else Some(s.evidence[|s.evidence| - 1]);
    && (o.committed <==> Welcome(s, e) && Later(s.evidence, e) && Fits(lim, Tight(s.health, s.evidence + [x], x)))
    && (o.committed ==> o.status.Success? && o.id == s.nextId)
    && (Welcome(s, e) && !o.committed ==>
          o == if Later(s.evidence, e) then Outcome(ResourceExhausted, 0, false)
               else if last.Some? && last.value.(id := 0) == e then Outcome(Success, last.value.id, false)
               else Outcome(StaleGeneration, 0, false))
  }

  lemma {:induction false} ReceivedAt(lim: Limits, s: State, e: Evidence)
    requires AllBelong(s.catalog, s.nextId, s.evidence) && LatestInv(s.catalog, s.evidence, s.latest)
    requires Chain(s.evidence) && |s.catalog.entities| == 1
    ensures Received(lim, s, e, CommitEvidence(lim, s, e).1)
  {
    WelcomeIff(s, e);
    if Welcome(s, e) {
      assert s.catalog.entities == [e.entity];
      NewerIff(s, e);
      LatestIsLast(s, e.entity);
      KeptIff(lim, s, e.(id := s.nextId));
    }
  }

  /** In every state the store can reach with one device, evidence is committed if and only if the catalog can take
      it, it is later than all records and there is room.  A repetition of the last record is answered with its id,
      anything else that is not later is stale, and for lack of room it is refused. */
  lemma {:induction false} EvidenceAcceptedIff(lim: Limits, actions: seq<Action>, e: Evidence)
    requires |Run(lim, actions).catalog.entities| == 1
    ensures Received(lim, Run(lim, actions), e, CommitEvidence(lim, Run(lim, actions), e).1)
  {
    RunBelongs(lim, actions);
    ReceivedAt(lim, Run(lim, actions), e);
  }

  // ----- Health results -----

  predicate RefsDiffer(refs: seq<EvidenceRef>) {
    forall i, j :: 0 <= i < j < |refs| ==> refs[i].id != refs[j].id
  }

  lemma {:induction false} RefsPassIff(s: seq<Evidence>, r: HealthResult, refs: seq<EvidenceRef>)
    ensures CheckRefs(s, r, refs).Success? <==>
            RefsDiffer(refs) && forall i :: 0 <= i < |refs| ==> Stored(s, r.entity, r.catalogGeneration, refs[i])
  {
    if refs != [] {
      var n := |refs| - 1;
      var before := refs[..n];
      RefsPassIff(s, r, before);
      assert forall i :: 0 <= i < n ==> before[i] == refs[i];
      assert RefsDiffer(refs) <==> RefsDiffer(before) && !SeenBefore(before, refs[n]);
    }
  }

  /** A health result is committed if and only if it is well formed, of the active catalog and one of its devices,
      refers only to stored records and to each once, and keeps every limit. */
  lemma {:induction false} HealthAcceptedIff(lim: Limits, s: State, r: HealthResult)
    ensures CheckHealth(lim, s, r).Success? <==>
            && ValidHealthResult(r) && |r.evidence| <= lim.maxRefs && ResultBytes(r) <= lim.maxResultBytes
            && s.catalog.generation != 0 && r.catalogGeneration == s.catalog.generation
            && r.entity in s.catalog.entities && s.catalog.present && RefsDiffer(r.evidence)
            && (forall i :: 0 <= i < |r.evidence| ==> Stored(s.evidence, r.entity, r.catalogGeneration, r.evidence[i]))
            && (r.entity in s.health || |s.health| < lim.maxHealth)
            && ResultBytes(r) + HealthBytes(s.health - {r.entity}) <= lim.maxHealthBytes && s.epoch < UINT64_MAX
  {
    RefsPassIff(s.evidence, r, r.evidence);
  }
}
