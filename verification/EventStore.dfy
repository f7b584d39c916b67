/** Events and the bounded event log: `EventStore` keeps the newest events that fit
    a count limit and a byte limit, and numbers them. */
module EventStore {
  import opened Base
  import opened Domain

  datatype EventType =
    | CatalogChanged
    | EntityChanged
    | CapabilityChanged
    | MetricUpdate
    | HealthChanged
    | ProviderStateChanged
    | LossMarker
    | DaemonDraining

  datatype Severity = Info | WarningSeverity | ErrorSeverity | Critical

  datatype Payload =
    | NoPayload
    | MetricPayload(status: ObservationStatus, commitEpoch: uint64)
    | LossPayload(first: uint64, last: uint64, count: nat)
    | HealthPayload(before: HealthState, after: HealthState, beforeCode: HealthCode, afterCode: HealthCode,
                    evidence: seq<EvidenceRef>, evidenceAge: int)
    | TextPayload(text: string)

  datatype Draft = Draft(
    kind: EventType,
    severity: Severity,
    entity: Option<EntityRef>,
    metric: Option<uint32>,
    healthSubsystem: Option<uint32>,
    occurrenceTime: int,
    catalogGeneration: uint64,
    payload: Payload)

  datatype Event = Event(bootEpoch: uint64, sequence: uint64, body: Draft) {
    predicate IsMarker() { body.kind.LossMarker? }
  }

  const SIZEOF_EVENT: positive
  const SIZEOF_METRIC_PAYLOAD: positive
  const SIZEOF_LOSS_PAYLOAD: positive
  const SIZEOF_HEALTH_PAYLOAD: positive
  const SIZEOF_EVIDENCE_REF: positive
  const SIZEOF_MONOSTATE: positive

  function EvidenceBytes(refs: seq<EvidenceRef>): nat {
    if refs == [] then 0
    else SIZEOF_EVIDENCE_REF + |refs[0].source.provider| + |refs[0].source.nativeSource| + EvidenceBytes(refs[1..])
  }

  function PayloadBytes(p: Payload): nat {
    match p
    case NoPayload => SIZEOF_MONOSTATE
    case MetricPayload(_, _) => SIZEOF_METRIC_PAYLOAD
    case LossPayload(_, _, _) => SIZEOF_LOSS_PAYLOAD
    case HealthPayload(_, _, _, _, evidence, _) => SIZEOF_HEALTH_PAYLOAD + EvidenceBytes(evidence)
    case TextPayload(text) => |text|
  }

  function EventBytes(e: Event): (n: nat)
    ensures 0 < n
  {
    SIZEOF_EVENT + PayloadBytes(e.body.payload)
  }

  function TotalBytes(es: seq<Event>): nat {
    if es == [] then 0 else TotalBytes(es[..|es| - 1]) + EventBytes(es[|es| - 1])
  }

  lemma {:induction false} TotalBytesConcat(a: seq<Event>, b: seq<Event>)
    ensures TotalBytes(a + b) == TotalBytes(a) + TotalBytes(b)
  {
    if b == [] {
      assert a + b == a;
    } else {
      var n := |b| - 1;
      assert (a + b)[..|a + b| - 1] == a + b[..n];
      TotalBytesConcat(a, b[..n]);
    }
  }

  lemma {:induction false} TotalBytesHead(es: seq<Event>)
    requires es != []
    ensures TotalBytes(es) == EventBytes(es[0]) + TotalBytes(es[1..])
  {
    var head := [es[0]];
    assert es == head + es[1..] && head[..0] == [];
    TotalBytesConcat(head, es[1..]);
  }

  // ----- The longest suffix that fits -----

  datatype Limits = Limits(maxEvents: positive, maxBytes: positive)

  predicate Fits(lim: Limits, es: seq<Event>) {
    |es| <= lim.maxEvents && TotalBytes(es) <= lim.maxBytes
  }

  /** `s` is what remains of `log` after dropping `k` events, and dropping fewer would not fit. */
  ghost predicate LongestFrom(lim: Limits, log: seq<Event>, k: nat, s: seq<Event>) {
    k <= |log| && s == log[k..] && Fits(lim, s) && forall j :: 0 <= j < k ==> !Fits(lim, log[j..])
  }

  ghost predicate LongestSuffix(lim: Limits, log: seq<Event>, s: seq<Event>) {
    exists k: nat :: LongestFrom(lim, log, k, s)
  }

  lemma {:induction false} LongestSuffixIsUnique(lim: Limits, log: seq<Event>, s: seq<Event>, t: seq<Event>)
    requires LongestSuffix(lim, log, s) && LongestSuffix(lim, log, t)
    ensures s == t
  {
    var k: nat :| LongestFrom(lim, log, k, s);
    var l: nat :| LongestFrom(lim, log, l, t);
    assert k == l;
  }

  /** What did not fit does not fit with one more event either. */
  lemma {:induction false} StillTooLong(lim: Limits, log: seq<Event>, j: nat, e: Event)
    requires j <= |log| && !Fits(lim, log[j..])
    ensures !Fits(lim, (log + [e])[j..])
  {
    assert (log + [e])[j..] == log[j..] + [e];
    TotalBytesConcat(log[j..], [e]);
  }

  ghost predicate Ascending(es: seq<Event>) {
    forall i, j :: 0 <= i < j < |es| ==> es[i].sequence < es[j].sequence
  }

  lemma {:induction false} AscendingExtends(es: seq<Event>, e: Event)
    requires Ascending(es) && forall x :: x in es ==> x.sequence < e.sequence
    ensures Ascending(es + [e])
  {
    var all := es + [e];
    forall i, j | 0 <= i < j < |all| ensures all[i].sequence < all[j].sequence {
      assert i < |es| && all[i] == es[i] && es[i] in es;
    }
  }

  predicate WellFormed(d: Draft) {
    && 0 <= d.occurrenceTime && d.catalogGeneration != 0
    && (d.kind.MetricUpdate? ==> d.entity.Some? && d.metric.Some?)
    && (d.kind.HealthChanged? ==> d.healthSubsystem == Some(HEARTBEAT_HEALTH_ID))
  }

  /** How much of the log the count and byte limits leave. */
  function Retain(lim: Limits, es: seq<Event>): (r: seq<Event>)
    ensures |r| <= |es|
  {
    if Fits(lim, es) then es else Retain(lim, es[1..])
  }

  lemma {:induction false} RetainIsLongest(lim: Limits, es: seq<Event>)
    ensures LongestFrom(lim, es, |es| - |Retain(lim, es)|, Retain(lim, es))
  {
    if !Fits(lim, es) {
      RetainIsLongest(lim, es[1..]);
      assert es[|es| - |Retain(lim, es)|..] == es[1..][|es| - 1 - |Retain(lim, es)|..];
      forall j | 0 <= j < |es| - |Retain(lim, es)| ensures !Fits(lim, es[j..]) {
        if 0 < j { assert es[j..] == es[1..][j - 1..]; } else { assert es[j..] == es; }
      }
    }
  }

  // ----- The store as a value -----

  /** The fields of the store, and the log of every event it ever accepted. */
  datatype Store = Store(events: seq<Event>, bytes: nat, next: uint64, log: seq<Event>)

  function Empty(): Store { Store([], 0, 1, []) }

  ghost predicate StoreInv(lim: Limits, s: Store) {
    && LongestSuffix(lim, s.log, s.events)
    && s.bytes == TotalBytes(s.events)
    && Ascending(s.log) && (forall e :: e in s.log ==> e.sequence < s.next)
    && 1 <= s.next
  }

  /** What `publish` does to the store; an oversized event still uses up its number. */
  function Publish(lim: Limits, boot: uint64, s: Store, d: Draft): (r: (Code, Store)) {
    if !WellFormed(d) then (InvalidArgument, s)
    else if s.next == UINT64_MAX then (Internal, s)
    else
      var e := Event(boot, s.next, d);
      if lim.maxBytes < EventBytes(e) then (ResourceExhausted, s.(next := s.next + 1))
      else
        var kept := Retain(lim, s.events + [e]);
        (Success, Store(kept, TotalBytes(kept), s.next + 1, s.log + [e]))
  }

  /** Which drafts are accepted, and what every other is refused with.  An accepted one gets the next number; one
      that is too big uses its number up; the others change nothing. */
  lemma {:induction false} PublishAccepts(lim: Limits, boot: uint64, s: Store, d: Draft)
    ensures var (code, t) := Publish(lim, boot, s, d);
            var e := Event(boot, s.next, d);
            && code == (if || d.occurrenceTime < 0 || d.catalogGeneration == 0
                           || (d.kind.MetricUpdate? && (d.entity.None? || d.metric.None?))
                           || (d.kind.HealthChanged? && d.healthSubsystem != Some(1))
                        then InvalidArgument
                        else if s.next == UINT64_MAX then Internal
                        else if lim.maxBytes < SIZEOF_EVENT + PayloadBytes(d.payload) then ResourceExhausted
                        else Success)
            && (code.Success? ==> t.log == s.log + [e] && t.next == s.next + 1)
            && (code.ResourceExhausted? ==> t == s.(next := s.next + 1))
            && (code.InvalidArgument? || code.Internal? ==> t == s)
  {}

  lemma {:induction false} LogExtends(log: seq<Event>, next: uint64, e: Event)
    requires Ascending(log) && (forall x :: x in log ==> x.sequence < next) && e.sequence == next
    ensures Ascending(log + [e]) && forall x :: x in log + [e] ==> x.sequence < next + 1
  {
    AscendingExtends(log, e);
  }

  lemma {:induction false} PublishKeepsInv(lim: Limits, boot: uint64, s: Store, d: Draft)
    requires StoreInv(lim, s)
    ensures StoreInv(lim, Publish(lim, boot, s, d).1)
  {
    var (code, t) := Publish(lim, boot, s, d);
    if code.Success? {
      var e := Event(boot, s.next, d);
      RetainedLog(lim, s.log, s.events, e);
      LogExtends(s.log, s.next, e);
      assert t.events == Retain(lim, s.events + [e]) && t.log == s.log + [e] && t.next == s.next + 1;
    }
  }

  /** In every run the store is the longest suffix of the accepted log that fits. */
  function PublishAll(lim: Limits, boot: uint64, s: Store, ds: seq<Draft>): Store {
    if ds == [] then s else Publish(lim, boot, PublishAll(lim, boot, s, ds[..|ds| - 1]), ds[|ds| - 1]).1
  }

  lemma {:induction false} StoreIsLongestSuffix(lim: Limits, boot: uint64, ds: seq<Draft>)
    ensures StoreInv(lim, PublishAll(lim, boot, Empty(), ds))
  {
    if ds == [] {
      assert LongestFrom(lim, [], 0, []);
    } else {
      StoreIsLongestSuffix(lim, boot, ds[..|ds| - 1]);
      PublishKeepsInv(lim, boot, PublishAll(lim, boot, Empty(), ds[..|ds| - 1]), ds[|ds| - 1]);
    }
  }

  /** Evicting from the retained suffix is evicting from the whole log. */
  lemma {:induction false} RetainedLog(lim: Limits, log: seq<Event>, events: seq<Event>, e: Event)
    requires LongestSuffix(lim, log, events)
    ensures LongestSuffix(lim, log + [e], Retain(lim, events + [e]))
  {
    var k: nat :| LongestFrom(lim, log, k, events);
    var es := events + [e];
    var all := log + [e];
    assert es == all[k..];
    RetainIsLongest(lim, es);
    var r := Retain(lim, es);
    var d := |es| - |r|;
    forall j | 0 <= j < k + d ensures !Fits(lim, all[j..]) {
      if j < k { StillTooLong(lim, log, j, e); } else { assert all[j..] == es[j - k..]; }
    }
    assert r == es[d..] == all[k + d..];
    assert LongestFrom(lim, all, k + d, r);
  }

  /** `s` is exactly the part of `es` above a sequence number. */
  ghost predicate Above(es: seq<Event>, sequence: uint64, s: seq<Event>) {
    && |s| <= |es| && s == es[|es| - |s|..]
    && (forall e :: e in es[..|es| - |s|] ==> e.sequence <= sequence)
    && (forall e :: e in s ==> sequence < e.sequence)
  }

  lemma {:induction false} StoredAscending(lim: Limits, s: Store)
    requires StoreInv(lim, s)
    ensures Ascending(s.events) && forall e :: e in s.events ==> e in s.log && e.sequence < s.next
  {
    var k: nat :| LongestFrom(lim, s.log, k, s.events);
  }

  /** `std::upper_bound` on sequence numbers. */
  method UpperBound(es: seq<Event>, sequence: uint64) returns (k: nat)
    requires Ascending(es)
    ensures k <= |es|
    ensures forall i :: 0 <= i < k ==> es[i].sequence <= sequence
    ensures forall i :: k <= i < |es| ==> sequence < es[i].sequence
  {
    var count: nat := |es|;
    k := 0;
    while 0 < count
      invariant k + count <= |es|
      invariant forall i :: 0 <= i < k ==> es[i].sequence <= sequence
      invariant forall i :: k + count <= i < |es| ==> sequence < es[i].sequence
    {
      var half := count / 2;
      var middle := k + half;
      if sequence < es[middle].sequence {
        count := half;
      } else {
        k, count := middle + 1, count - half - 1;
      }
    }
  }

  // ----- The store as an object -----

  class EventLog {
    const limits: Limits
    const boot: uint64
    var events: seq<Event>
    var storedBytes: nat
    var nextSequence: uint64
    ghost var log: seq<Event>

    constructor (limits: Limits, boot: uint64)
      requires boot != 0
      ensures View() == Empty() && this.limits == limits && this.boot == boot
    {
      this.limits, this.boot := limits, boot;
      events, storedBytes, nextSequence, log := [], 0, 1, [];
    }

    ghost function View(): Store
      reads this
    {
      Store(events, storedBytes, nextSequence, log)
    }

    /** Drops events from the front until both limits hold. */
    method EvictOldest()
      requires storedBytes == TotalBytes(events)
      modifies `events, `storedBytes
      ensures events == Retain(limits, old(events)) && storedBytes == TotalBytes(events)
    {
      while limits.maxEvents < |events| || limits.maxBytes < storedBytes
        invariant storedBytes == TotalBytes(events)
        invariant Retain(limits, old(events)) == Retain(limits, events)
        decreases |events|
      {
        TotalBytesHead(events);
        storedBytes := storedBytes - EventBytes(events[0]);
        events := events[1..];
      }
    }

    method Append(e: Event)
      requires storedBytes == TotalBytes(events)
      modifies `events, `storedBytes, `log
      ensures events == Retain(limits, old(events) + [e]) && storedBytes == TotalBytes(events)
      ensures log == old(log) + [e]
    {
      events := events + [e];
      storedBytes := storedBytes + EventBytes(e);
      log := log + [e];
      assert events[..|events| - 1] == old(events);
      EvictOldest();
    }

    /** `publish`: numbers the event, appends it and evicts the oldest ones. */
    method PublishDraft(d: Draft) returns (status: Code, event: Option<Event>)
      requires StoreInv(limits, View())
      modifies this
      ensures (status, View()) == Publish(limits, boot, old(View()), d)
      ensures StoreInv(limits, View())
      ensures event.Some? <==> status.Success?
      ensures event.Some? ==> log == old(log) + [event.value] && event.value.body == d
    {
      PublishKeepsInv(limits, boot, View(), d);
      status, event := Accept(d);
    }

    method Accept(d: Draft) returns (status: Code, event: Option<Event>)
      requires storedBytes == TotalBytes(events)
      modifies this
      ensures (status, View()) == Publish(limits, boot, old(View()), d)
      ensures event.Some? <==> status.Success?
      ensures event.Some? ==> log == old(log) + [event.value] && event.value.body == d
    {
      event := None;
      if !WellFormed(d) {
        return InvalidArgument, event;
      }
      if nextSequence == UINT64_MAX {
        return Internal, event;
      }
      var e := Event(boot, nextSequence, d);
      nextSequence := nextSequence + 1;
      if limits.maxBytes < EventBytes(e) {
        return ResourceExhausted, event;
      }
      Append(e);
      return Success, Some(e);
    }

    /** `since`: a binary search for the first event above `sequence`. */
    method Since(sequence: uint64) returns (first: uint64, latest: uint64, result: seq<Event>)
      requires StoreInv(limits, View())
      ensures latest == nextSequence - 1
      ensures first == if events == [] then nextSequence else events[0].sequence
      ensures Above(events, sequence, result)
    {
      StoredAscending(limits, View());
      latest := nextSequence - 1;
      first := if events == [] then nextSequence else events[0].sequence;
      var k := UpperBound(events, sequence);
      result := events[k..];
      assert events[..|events| - |result|] == events[..k];
    }
  }
}
