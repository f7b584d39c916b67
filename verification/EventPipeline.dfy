/** The event pipeline as a protocol: publishers, the dispatcher, `subscribe`, callbacks and `close`
    interleave at the granularity of the locks they take.  One subscription is followed;
    the others do not share state with it. */
module EventPipeline {
  import opened Base
  import opened Domain
  import opened EventStore
  import opened Subscription

  // ----- Filters -----

  datatype Filter = Filter(
    kinds: seq<EventType>,
    entity: Option<EntityRef>,
    metrics: seq<uint32>,
    healthSubsystem: Option<uint32>,
    minimumSeverity: Severity,
    followRediscovery: bool)

  function Rank(s: Severity): nat {
    match s case Info => 0 case WarningSeverity => 1 case ErrorSeverity => 2 case Critical => 3
  }

  predicate EntityMatches(f: Filter, e: Draft) {
    f.entity.None? ||
    (e.entity.Some? &&
     (f.entity == e.entity ||
      (f.followRediscovery && f.entity.value.kind == e.entity.value.kind && f.entity.value.id == e.entity.value.id)))
  }

  predicate Matches(f: Filter, e: Event) {
    && e.body.kind in f.kinds && Rank(f.minimumSeverity) <= Rank(e.body.severity)
    && EntityMatches(f, e.body)
    && (f.metrics == [] || (e.body.metric.Some? && e.body.metric.value in f.metrics))
    && (f.healthSubsystem.None? || e.body.healthSubsystem == f.healthSubsystem)
  }

  function Matching(f: Filter, es: seq<Event>): seq<Event> {
    if es == [] then [] else Matching(f, es[..|es| - 1]) + if Matches(f, es[|es| - 1]) then [es[|es| - 1]] else []
  }

  /** The events numbered above `lo` and up to `hi`. */
  function Numbered(es: seq<Event>, lo: nat, hi: nat): seq<Event> {
    if es == [] then []
    else
      var last := es[|es| - 1];
      Numbered(es[..|es| - 1], lo, hi) + if lo < last.sequence <= hi then [last] else []
  }

  // ----- States and steps -----

  datatype Config = Config(store: Limits, boot: uint64, filter: Filter, queue: Limits)

  datatype Dispatcher =
    | Idle
    | Snapshotted(events: seq<Event>, latest: uint64)
    | Offering(events: seq<Event>)

  /** Where a `deliverNext` call stands: it has found the subscription, or its callback runs. */
  datatype Phase = Found | Running

  /** The life of the subscription, as its registry and its `close` call see it. */
  datatype Life = Absent | Active | Unregistered | Waiting | Returned

  datatype State = State(
    store: Store,
    lastSeen: uint64,
    dispatcher: Dispatcher,
    sub: Sub,
    deliveries: map<nat, Phase>,
    life: Life)
  {
    predicate Registered() { life.Active? }
  }

  datatype Step =
    | PublishEvent(draft: Draft)
    | Subscribe
    | DispatchRead
    | DispatchCopy
    | OfferNext
    | DeliverLookup(id: nat)
    | DeliverBegin(id: nat)
    | DeliverEnd(id: nat)
    | CloseLookup
    | CloseBegin
    | CloseFinish

  function Start(): State {
    State(EventStore.Empty(), 0, Idle, Fresh(), map[], Absent)
  }

  /** `subscribe` takes the registry's lock only, so a dispatch may stand between its two steps. */
  function RunSubscribe(s: State): State {
    if s.life.Absent? then s.(life := Active) else s
  }

  function RunDispatchRead(s: State): State {
    var events := Numbered(s.store.events, s.lastSeen, UINT64_MAX);
    if !s.dispatcher.Idle? || events == [] || s.store.next == 0 then s
    else s.(dispatcher := Snapshotted(events, s.store.next - 1))
  }

  function RunDispatchCopy(c: Config, s: State): State {
    if !s.dispatcher.Snapshotted? then s
    else s.(lastSeen := s.dispatcher.latest,
            dispatcher := Offering(if s.Registered() then Matching(c.filter, s.dispatcher.events) else []))
  }

  function RunOfferNext(c: Config, s: State): State
    requires MarkersCarryLoss(s.sub.pending)
  {
    if !s.dispatcher.Offering? then s
    else if s.dispatcher.events == [] then s.(dispatcher := Idle)
    else s.(sub := Enqueue(c.queue, s.sub, s.dispatcher.events[0]),
            dispatcher := Offering(s.dispatcher.events[1..]))
  }

  function RunDeliver(s: State, step: Step): State {
    match step
    case DeliverLookup(id) =>
      if s.Registered() && id !in s.deliveries then s.(deliveries := s.deliveries[id := Found]) else s
    case DeliverBegin(id) =>
      if id !in s.deliveries || !s.deliveries[id].Found? then s
      else if !CanDeliver(s.sub) then s.(deliveries := s.deliveries - {id})
      else s.(sub := BeginDelivery(s.sub), deliveries := s.deliveries[id := Running])
    case DeliverEnd(id) =>
      if id !in s.deliveries || !s.deliveries[id].Running? || s.sub.active == 0 then s
      else s.(sub := s.sub.(active := s.sub.active - 1), deliveries := s.deliveries - {id})
    case _ => s
  }

  function RunClose(s: State, step: Step): State {
    match step
    case CloseLookup => if s.Registered() then s.(life := Unregistered) else s
    case CloseBegin =>
      if !s.life.Unregistered? then s
      else s.(life := Waiting, sub := s.sub.(closing := true, pending := []))
    case CloseFinish =>
      if !s.life.Waiting? || s.sub.active != 0 then s
      else s.(life := Returned, sub := s.sub.(closed := true))
    case _ => s
  }

  /** One step; a step that is not enabled changes nothing. */
  function Next(c: Config, s: State, step: Step): State
    requires MarkersCarryLoss(s.sub.pending)
  {
    match step
    case PublishEvent(d) => s.(store := Publish(c.store, c.boot, s.store, d).1)
    case Subscribe => RunSubscribe(s)
    case DispatchRead => RunDispatchRead(s)
    case DispatchCopy => RunDispatchCopy(c, s)
    case OfferNext => RunOfferNext(c, s)
    case DeliverLookup(_) => RunDeliver(s, step)
    case DeliverBegin(_) => RunDeliver(s, step)
    case DeliverEnd(_) => RunDeliver(s, step)
    case CloseLookup => RunClose(s, step)
    case CloseBegin => RunClose(s, step)
    case CloseFinish => RunClose(s, step)
  }

  /** Publishers do not send loss markers of their own. */
  predicate Fair(step: Step) {
    step.PublishEvent? ==> !step.draft.kind.LossMarker?
  }

  // ----- Selecting events -----

  lemma {:induction false} NumberedConcat(a: seq<Event>, b: seq<Event>, lo: nat, hi: nat)
    ensures Numbered(a + b, lo, hi) == Numbered(a, lo, hi) + Numbered(b, lo, hi)
  {
    if b == [] {
      assert a + b == a;
    } else {
      var n := |b| - 1;
      assert (a + b)[..|a + b| - 1] == a + b[..n];
      NumberedConcat(a, b[..n], lo, hi);
    }
  }

  lemma {:induction false} NumberedNone(es: seq<Event>, lo: nat, hi: nat)
    requires forall e :: e in es ==> !(lo < e.sequence <= hi)
    ensures Numbered(es, lo, hi) == []
  {
    if es != [] { NumberedNone(es[..|es| - 1], lo, hi); }
  }

  lemma {:induction false} NumberedAll(es: seq<Event>, lo: nat, hi: nat)
    requires forall e :: e in es ==> lo < e.sequence <= hi
    ensures Numbered(es, lo, hi) == es
  {
    if es != [] {
      var n := |es| - 1;
      assert es == es[..n] + [es[n]];
      NumberedAll(es[..n], lo, hi);
    }
  }

  lemma {:induction false} NumberedMembers(es: seq<Event>, lo: nat, hi: nat)
    ensures forall e :: e in Numbered(es, lo, hi) ==> e in es && lo < e.sequence <= hi
  {
    if es != [] { NumberedMembers(es[..|es| - 1], lo, hi); }
  }

  lemma {:induction false} NumberedAscending(es: seq<Event>, lo: nat, hi: nat)
    requires Ascending(es)
    ensures Ascending(Numbered(es, lo, hi))
  {
    if es != [] {
      var n := |es| - 1;
      NumberedAscending(es[..n], lo, hi);
      NumberedMembers(es[..n], lo, hi);
      if lo < es[n].sequence <= hi {
        AscendingExtends(Numbered(es[..n], lo, hi), es[n]);
      }
    }
  }

  /** What `since` returns is what the dispatcher takes. */
  lemma {:induction false} SinceIsNumbered(es: seq<Event>, lo: uint64, r: seq<Event>)
    requires Above(es, lo, r)
    ensures r == Numbered(es, lo, UINT64_MAX)
  {
    var k := |es| - |r|;
    assert es == es[..k] + es[k..];
    NumberedConcat(es[..k], es[k..], lo, UINT64_MAX);
    NumberedNone(es[..k], lo, UINT64_MAX);
    NumberedAll(es[k..], lo, UINT64_MAX);
  }

  lemma {:induction false} NumberedSplit(es: seq<Event>, lo: nat, mid: nat, hi: nat)
    requires Ascending(es) && lo <= mid <= hi
    ensures Numbered(es, lo, hi) == Numbered(es, lo, mid) + Numbered(es, mid, hi)
  {
    if es != [] {
      var n := |es| - 1;
      NumberedSplit(es[..n], lo, mid, hi);
      if es[n].sequence <= mid {
        NumberedNone(es[..n], mid, hi);
      }
    }
  }

  lemma {:induction false} MatchingMembers(f: Filter, es: seq<Event>)
    ensures forall e :: e in Matching(f, es) ==> e in es
  {
    if es != [] { MatchingMembers(f, es[..|es| - 1]); }
  }

  lemma {:induction false} MatchingAscending(f: Filter, es: seq<Event>)
    requires Ascending(es)
    ensures Ascending(Matching(f, es))
  {
    if es != [] {
      var n := |es| - 1;
      MatchingAscending(f, es[..n]);
      MatchingMembers(f, es[..n]);
      if Matches(f, es[n]) {
        AscendingExtends(Matching(f, es[..n]), es[n]);
      }
    }
  }

  lemma {:induction false} MatchingConcat(f: Filter, a: seq<Event>, b: seq<Event>)
    ensures Matching(f, a + b) == Matching(f, a) + Matching(f, b)
  {
    if b == [] {
      assert a + b == a;
    } else {
      var n := |b| - 1;
      assert (a + b)[..|a + b| - 1] == a + b[..n];
      MatchingConcat(f, a, b[..n]);
    }
  }

  // ----- The invariant -----

  /** Events on their way: accepted, numbered in ascending order, and never markers. */
  ghost predicate InTransit(store: Store, es: seq<Event>) {
    Ascending(es) && forall e :: e in es ==> e in store.log && !e.IsMarker()
  }

  ghost predicate LogInv(c: Config, s: State) {
    && StoreInv(c.store, s.store)
    && (forall e :: e in s.store.log ==> !e.IsMarker())
    && s.lastSeen < s.store.next
  }

  ghost predicate DispatchInv(s: State) {
    && (forall x :: x in s.sub.history.offered ==> x.sequence <= s.lastSeen)
    && match s.dispatcher
       case Idle => true
       case Snapshotted(es, latest) =>
         && InTransit(s.store, es) && s.lastSeen <= latest < s.store.next
         && forall e :: e in es ==> s.lastSeen < e.sequence <= latest
       case Offering(es) =>
         && InTransit(s.store, es)
         && (forall e :: e in es ==> e.sequence <= s.lastSeen)
         && forall e, x :: e in es && x in s.sub.history.offered ==> x.sequence < e.sequence
  }

  ghost function RunningCallbacks(s: State): set<nat> {
    set id | id in s.deliveries && s.deliveries[id].Running?
  }

  ghost predicate CloseInv(s: State) {
    && s.sub.active == |RunningCallbacks(s)|
    && (s.life.Waiting? || s.life.Returned? <==> s.sub.closing)
    && (s.life.Returned? ==> s.sub.active == 0)
  }

  /** Nothing has happened to a subscription that does not exist yet. */
  ghost predicate AbsentInv(s: State) {
    s.life.Absent? ==>
      s.sub == Fresh() && s.deliveries == map[] && (s.dispatcher.Offering? ==> s.dispatcher.events == [])
  }

  ghost predicate PipeInv(c: Config, s: State) {
    LogInv(c, s) && DispatchInv(s) && CloseInv(s) && AbsentInv(s) && SubInv(c.queue, s.sub)
  }

  lemma {:induction false} StartInv(c: Config)
    ensures PipeInv(c, Start())
  {
    assert LongestFrom(c.store, [], 0, []);
    FreshInv(c.queue);
    assert RunningCallbacks(Start()) == {};
  }

  lemma {:induction false} SubscribeKeeps(c: Config, s: State)
    requires PipeInv(c, s)
    ensures PipeInv(c, RunSubscribe(s))
  {
    assert RunningCallbacks(RunSubscribe(s)) == RunningCallbacks(s);
  }

  lemma {:induction false} PublishKeeps(c: Config, s: State, d: Draft)
    requires PipeInv(c, s) && !d.kind.LossMarker?
    ensures PipeInv(c, Next(c, s, PublishEvent(d)))
  {
    var t := Next(c, s, PublishEvent(d));
    PublishGrows(c, s, d, t);
    DispatchGrows(s, t);
    assert RunningCallbacks(t) == RunningCallbacks(s);
  }

  lemma {:induction false} PublishGrows(c: Config, s: State, d: Draft, t: State)
    requires LogInv(c, s) && MarkersCarryLoss(s.sub.pending) && !d.kind.LossMarker? && t == Next(c, s, PublishEvent(d))
    ensures LogInv(c, t) && s.store.log <= t.store.log && s.store.next <= t.store.next && t == s.(store := t.store)
  {
    PublishKeepsInv(c.store, c.boot, s.store, d);
  }

  lemma {:induction false} DispatchGrows(s: State, t: State)
    requires DispatchInv(s) && s.store.log <= t.store.log && s.store.next <= t.store.next && t == s.(store := t.store)
    ensures DispatchInv(t)
  {
    assert forall e :: e in s.store.log ==> e in t.store.log;
  }

  lemma {:induction false} ReadKeeps(c: Config, s: State)
    requires PipeInv(c, s)
    ensures PipeInv(c, RunDispatchRead(s))
  {
    var t := RunDispatchRead(s);
    var es := Numbered(s.store.events, s.lastSeen, UINT64_MAX);
    StoredAscending(c.store, s.store);
    NumberedAscending(s.store.events, s.lastSeen, UINT64_MAX);
    NumberedMembers(s.store.events, s.lastSeen, UINT64_MAX);
    assert InTransit(s.store, es);
    assert RunningCallbacks(t) == RunningCallbacks(s);
  }

  lemma {:induction false} CopyKeeps(c: Config, s: State)
    requires PipeInv(c, s)
    ensures PipeInv(c, RunDispatchCopy(c, s))
  {
    var t := RunDispatchCopy(c, s);
    if s.dispatcher.Snapshotted? {
      MatchingAscending(c.filter, s.dispatcher.events);
      MatchingMembers(c.filter, s.dispatcher.events);
    }
    assert RunningCallbacks(t) == RunningCallbacks(s);
  }

  /** `enqueue` only ever adds the event it was given to the offered ones. */
  lemma {:induction false} EnqueueOffers(lim: Limits, s: Sub, e: Event)
    requires MarkersCarryLoss(s.pending)
    ensures var t := Enqueue(lim, s, e);
            && (t.history.offered == s.history.offered || t.history.offered == s.history.offered + [e])
            && t.active == s.active && t.closing == s.closing
  {}

  lemma {:induction false} OfferDispatch(c: Config, s: State)
    requires DispatchInv(s) && MarkersCarryLoss(s.sub.pending)
    ensures DispatchInv(RunOfferNext(c, s))
  {
    if s.dispatcher.Offering? && s.dispatcher.events != [] {
      var es := s.dispatcher.events;
      assert es[0] in es;
      EnqueueOffers(c.queue, s.sub, es[0]);
      assert forall e :: e in es[1..] ==> e in es && es[0].sequence < e.sequence;
    }
  }

  lemma {:induction false} OfferClose(c: Config, s: State)
    requires CloseInv(s) && MarkersCarryLoss(s.sub.pending)
    ensures CloseInv(RunOfferNext(c, s))
  {
    assert RunningCallbacks(RunOfferNext(c, s)) == RunningCallbacks(s);
  }

  lemma {:induction false} OfferSub(c: Config, s: State)
    requires DispatchInv(s) && SubInv(c.queue, s.sub)
    ensures SubInv(c.queue, RunOfferNext(c, s).sub)
  {
    if s.dispatcher.Offering? && s.dispatcher.events != [] {
      assert s.dispatcher.events[0] in s.dispatcher.events;
      EnqueueKeepsInv(c.queue, s.sub, s.dispatcher.events[0]);
    }
  }

  lemma {:induction false} OfferAbsent(c: Config, s: State)
    requires AbsentInv(s) && LogInv(c, s) && MarkersCarryLoss(s.sub.pending)
    ensures AbsentInv(RunOfferNext(c, s)) && LogInv(c, RunOfferNext(c, s))
  {}

  lemma {:induction false} OfferKeeps(c: Config, s: State)
    requires PipeInv(c, s)
    ensures PipeInv(c, RunOfferNext(c, s))
  {
    OfferDispatch(c, s);
    OfferClose(c, s);
    OfferSub(c, s);
    OfferAbsent(c, s);
  }

  lemma {:induction false} DeliverClose(s: State, step: Step)
    requires CloseInv(s)
    ensures CloseInv(RunDeliver(s, step))
  {
    match step {
      case DeliverBegin(id) => BeginClose(s, id);
      case DeliverEnd(id) => EndClose(s, id);
      case _ => assert RunningCallbacks(RunDeliver(s, step)) == RunningCallbacks(s);
    }
  }

  lemma {:induction false} BeginClose(s: State, id: nat)
    requires CloseInv(s)
    ensures CloseInv(RunDeliver(s, DeliverBegin(id)))
  {
    var t := RunDeliver(s, DeliverBegin(id));
    if id in s.deliveries && s.deliveries[id].Found? && CanDeliver(s.sub) {
      assert RunningCallbacks(t) == RunningCallbacks(s) + {id};
    } else {
      assert RunningCallbacks(t) == RunningCallbacks(s);
    }
  }

  lemma {:induction false} EndClose(s: State, id: nat)
    requires CloseInv(s)
    ensures CloseInv(RunDeliver(s, DeliverEnd(id)))
  {
    var t := RunDeliver(s, DeliverEnd(id));
    if t != s {
      assert RunningCallbacks(t) == RunningCallbacks(s) - {id};
    }
  }

  lemma {:induction false} DeliverSub(c: Config, s: State, step: Step)
    requires SubInv(c.queue, s.sub)
    ensures SubInv(c.queue, RunDeliver(s, step).sub)
    ensures RunDeliver(s, step).sub.history.offered == s.sub.history.offered
  {
    if CanDeliver(s.sub) {
      DeliveryKeepsInv(c.queue, s.sub);
    }
    ActiveIrrelevant(c.queue, s.sub, RunDeliver(s, step).sub);
  }

  lemma {:induction false} ActiveIrrelevant(lim: Limits, s: Sub, t: Sub)
    requires SubInv(lim, s)
    ensures t == s.(active := t.active) ==> SubInv(lim, t)
  {}

  lemma {:induction false} DeliverKeeps(c: Config, s: State, step: Step)
    requires PipeInv(c, s)
    ensures PipeInv(c, RunDeliver(s, step))
  {
    DeliverClose(s, step);
    DeliverSub(c, s, step);
    SameDispatch(c, s, RunDeliver(s, step));
  }

  /** What is on its way depends on the store, the dispatcher and the offered events only. */
  lemma {:induction false} SameDispatch(c: Config, s: State, t: State)
    requires LogInv(c, s) && DispatchInv(s)
    requires t.store == s.store && t.lastSeen == s.lastSeen && t.dispatcher == s.dispatcher
    requires t.sub.history.offered == s.sub.history.offered
    ensures LogInv(c, t) && DispatchInv(t)
  {}

  lemma {:induction false} SameCallbacks(s: State, t: State)
    requires t.deliveries == s.deliveries
    ensures RunningCallbacks(t) == RunningCallbacks(s)
  {}

  lemma {:induction false} ShutSubInv(lim: Limits, s: Sub, t: Sub)
    requires SubInv(lim, s)
    ensures s.closing && t == s.(closed := true) ==> SubInv(lim, t)
  {}

  lemma {:induction false} ClosedSubInv(lim: Limits, s: Sub, t: Sub)
    requires SubInv(lim, s) && t == s.(closing := true, pending := [])
    ensures SubInv(lim, t)
  {
    PrefixAscending(PlainDelivered(s.history.delivered), Plain(s.pending));
  }

  lemma {:induction false} CloseLookupKeeps(c: Config, s: State)
    requires PipeInv(c, s)
    ensures PipeInv(c, RunClose(s, CloseLookup))
  {
    SameDispatch(c, s, RunClose(s, CloseLookup));
    SameCallbacks(s, RunClose(s, CloseLookup));
  }

  lemma {:induction false} CloseBeginKeeps(c: Config, s: State)
    requires PipeInv(c, s)
    ensures PipeInv(c, RunClose(s, CloseBegin))
  {
    var t := RunClose(s, CloseBegin);
    SameDispatch(c, s, t);
    SameCallbacks(s, t);
    if s.life.Unregistered? {
      ClosedSubInv(c.queue, s.sub, t.sub);
    }
  }

  lemma {:induction false} CloseFinishKeeps(c: Config, s: State)
    requires PipeInv(c, s)
    ensures PipeInv(c, RunClose(s, CloseFinish))
  {
    var t := RunClose(s, CloseFinish);
    SameDispatch(c, s, t);
    SameCallbacks(s, t);
    ShutSubInv(c.queue, s.sub, t.sub);
  }

  lemma {:induction false} StepKeepsInv(c: Config, s: State, step: Step)
    requires PipeInv(c, s) && Fair(step)
    ensures PipeInv(c, Next(c, s, step))
  {
    match step
    case PublishEvent(d) => PublishKeeps(c, s, d);
    case Subscribe => SubscribeKeeps(c, s);
    case DispatchRead => ReadKeeps(c, s);
    case DispatchCopy => CopyKeeps(c, s);
    case OfferNext => OfferKeeps(c, s);
    case DeliverLookup(_) => DeliverKeeps(c, s, step);
    case DeliverBegin(_) => DeliverKeeps(c, s, step);
    case DeliverEnd(_) => DeliverKeeps(c, s, step);
    case CloseLookup => CloseLookupKeeps(c, s);
    case CloseBegin => CloseBeginKeeps(c, s);
    case CloseFinish => CloseFinishKeeps(c, s);
  }

  // ----- Whole runs -----

  ghost predicate AllFair(steps: seq<Step>) {
    forall i :: 0 <= i < |steps| ==> Fair(steps[i])
  }

  /** The state a run leads to from `s`. */
  ghost function RunFrom(c: Config, s: State, steps: seq<Step>): (t: State)
    requires PipeInv(c, s) && AllFair(steps)
    ensures PipeInv(c, t)
  {
    if steps == [] then s
    else
      var n := |steps| - 1;
      StepKeepsInv(c, RunFrom(c, s, steps[..n]), steps[n]);
      Next(c, RunFrom(c, s, steps[..n]), steps[n])
  }

  /** The state after a run from the start. */
  ghost function Exec(c: Config, steps: seq<Step>): (s: State)
    requires AllFair(steps)
    ensures PipeInv(c, s)
  {
    StartInv(c);
    RunFrom(c, Start(), steps)
  }

  /** While a subscription stays open nothing offered to it goes unaccounted for: counts
      balance, the queue fits, one marker at most is queued, and plain events come out in
      ascending order of their numbers. */
  lemma {:induction false} NothingUnaccounted(c: Config, steps: seq<Step>)
    requires AllFair(steps) && Exec(c, steps).sub.Open()
    ensures var s := Exec(c, steps).sub;
            && Conserved(s) && Fits(c.queue, s.pending) && OneMarker(s.pending) && Ordered(s)
            && |s.history.offered| ==
               |PlainDelivered(s.history.delivered)| + |Plain(s.pending)|
               + LossSum(EventsOf(s.history.delivered)) + LossSum(s.pending)
  {
    CountsBalance(c.queue, Exec(c, steps).sub);
  }

  /** In every run, closed or not: no event is offered twice, plain events are delivered in ascending
      order, and each delivered marker reports exactly the events it stands for, no more of them than
      its range of numbers holds. */
  lemma {:induction false} AtMostOnceInOrder(c: Config, steps: seq<Step>)
    requires AllFair(steps)
    ensures var h := Exec(c, steps).sub.history;
            && Ascending(h.offered) && Ascending(PlainDelivered(h.delivered))
            && forall d :: d in h.delivered ==>
                             && DeliveryReports(d)
                             && (d.event.IsMarker() ==>
                                   var range := d.event.body.payload;
                                   1 <= LossCount(d.event) <= range.last - range.first + 1)
  {
    var s := Exec(c, steps).sub;
    PrefixAscending(PlainDelivered(s.history.delivered), Plain(s.pending));
    assert PlainDelivered(s.history.delivered) + [] == PlainDelivered(s.history.delivered);
    forall d | d in s.history.delivered && d.event.IsMarker()
      ensures 1 <= LossCount(d.event) <= d.event.body.payload.last - d.event.body.payload.first + 1
    {
      MarkersSpan(c.queue, s, d.event);
    }
  }

  lemma {:induction false} ReturnedIsQuiet(c: Config, s: State)
    requires PipeInv(c, s) && s.life.Returned?
    ensures RunningCallbacks(s) == {} && s.sub.pending == [] && s.sub.closing
  {}

  lemma {:induction false} ReturnedIsSilent(c: Config, s: State, step: Step)
    requires MarkersCarryLoss(s.sub.pending) && s.sub.closing && s.life.Returned?
    ensures Next(c, s, step).sub.history == s.sub.history && Next(c, s, step).life.Returned?
  {}

  /** After `close` has returned no callback runs or starts and the queue stays empty,
      whatever the other threads do from then on. */
  lemma {:induction false} QuietAfterClose(c: Config, s: State, more: seq<Step>)
    requires PipeInv(c, s) && s.life.Returned? && AllFair(more)
    ensures var t := RunFrom(c, s, more);
            && t.life.Returned? && RunningCallbacks(t) == {} && t.sub.pending == []
            && t.sub.history.delivered == s.sub.history.delivered
    decreases |more|
  {
    if more != [] {
      var n := |more| - 1;
      QuietAfterClose(c, s, more[..n]);
      var t := RunFrom(c, s, more[..n]);
      ReturnedIsQuiet(c, t);
      ReturnedIsSilent(c, t, more[n]);
    }
    ReturnedIsQuiet(c, RunFrom(c, s, more));
  }

  // ----- What a subscription is offered -----

  /** The events of every dispatch that copied the registry while the subscription was in it. */
  ghost function Dispatched(c: Config, steps: seq<Step>): seq<Event>
    requires AllFair(steps)
  {
    if steps == [] then []
    else
      var n := |steps| - 1;
      Dispatched(c, steps[..n]) + CopiedBy(Exec(c, steps[..n]), steps[n])
  }

  ghost function CopiedBy(s: State, step: Step): seq<Event> {
    if step.DispatchCopy? && s.dispatcher.Snapshotted? && s.Registered() then s.dispatcher.events else []
  }

  /** The events a dispatch has yet to offer. */
  ghost function Coming(s: State): seq<Event> {
    if s.dispatcher.Offering? then s.dispatcher.events else []
  }

  ghost predicate OfferedUpTo(f: Filter, s: State, dispatched: seq<Event>) {
    && s.sub.history.offered <= Matching(f, dispatched)
    && (s.sub.Open() ==> s.sub.history.offered + Coming(s) == Matching(f, dispatched))
  }

  lemma {:induction false} CopyOffers(c: Config, s: State, dispatched: seq<Event>)
    requires OfferedUpTo(c.filter, s, dispatched)
    ensures OfferedUpTo(c.filter, RunDispatchCopy(c, s), dispatched + CopiedBy(s, DispatchCopy))
  {
    var more := CopiedBy(s, DispatchCopy);
    MatchingConcat(c.filter, dispatched, more);
    assert s.sub.history.offered + [] == s.sub.history.offered;
    assert dispatched + [] == dispatched;
  }

  lemma {:induction false} OfferOffers(c: Config, s: State, dispatched: seq<Event>)
    requires MarkersCarryLoss(s.sub.pending) && OfferedUpTo(c.filter, s, dispatched)
    ensures OfferedUpTo(c.filter, RunOfferNext(c, s), dispatched)
  {
    if s.dispatcher.Offering? && s.dispatcher.events != [] {
      var e := s.dispatcher.events[0];
      OfferedMoves(s.dispatcher.events, s.sub.history.offered);
      EnqueueOffers(c.queue, s.sub, e);
      if Enqueue(c.queue, s.sub, e).Open() {
        EnqueueAccepts(c.queue, s.sub, e);
      }
      if !s.sub.Open() {
        ShutIgnores(c.queue, s.sub, e);
      }
    } else if s.dispatcher.Offering? {
      assert s.sub.history.offered + [] == s.sub.history.offered;
    }
  }

  lemma {:induction false} ShutIgnores(lim: Limits, s: Sub, e: Event)
    requires MarkersCarryLoss(s.pending) && !s.Open()
    ensures Enqueue(lim, s, e) == s
  {}

  lemma {:induction false} OtherOffers(c: Config, s: State, step: Step, dispatched: seq<Event>)
    requires MarkersCarryLoss(s.sub.pending) && OfferedUpTo(c.filter, s, dispatched)
    requires !step.DispatchCopy? && !step.OfferNext?
    ensures OfferedUpTo(c.filter, Next(c, s, step), dispatched)
  {}

  /** In every run the subscription has been offered exactly the matching events of the dispatches
      that copied the registry while it was in it, each once and in their order: all but those the
      dispatch at work has yet to offer while it is open, the first of them once it is shut. */
  lemma {:induction false} OfferedExactly(c: Config, steps: seq<Step>)
    requires AllFair(steps)
    ensures OfferedUpTo(c.filter, Exec(c, steps), Dispatched(c, steps))
  {
    if steps != [] {
      var n := |steps| - 1;
      var s, done := Exec(c, steps[..n]), Dispatched(c, steps[..n]);
      OfferedExactly(c, steps[..n]);
      assert done + [] == done;
      match steps[n]
      case DispatchCopy => CopyOffers(c, s, done);
      case OfferNext => OfferOffers(c, s, done);
      case _ => OtherOffers(c, s, steps[n], done);
    }
  }

  // ----- Nothing is missed while the log fits the store -----

  /** The number up to which events had been dispatched when the subscription was made. */
  ghost function JoinedAt(c: Config, steps: seq<Step>): uint64
    requires AllFair(steps)
  {
    if steps == [] then 0
    else
      var n := |steps| - 1;
      if steps[n].Subscribe? && Exec(c, steps[..n]).life.Absent? then Exec(c, steps[..n]).lastSeen
      else JoinedAt(c, steps[..n])
  }

  ghost predicate CaughtUp(f: Filter, from: uint64, s: State) {
    var seen := Matching(f, Numbered(s.store.log, from, s.lastSeen));
    from <= s.lastSeen &&
    match s.dispatcher
    case Idle => s.sub.history.offered == seen
    case Snapshotted(es, latest) =>
      && s.sub.history.offered == seen && s.lastSeen <= latest < s.store.next
      && es == Numbered(s.store.log, s.lastSeen, latest)
    case Offering(es) => s.sub.history.offered + es == seen
  }

  /** What the dispatcher has read is all there is to read. */
  ghost predicate ReadAll(s: State) {
    s.dispatcher.Snapshotted? ==>
      && s.lastSeen <= s.dispatcher.latest < s.store.next
      && s.dispatcher.events == Numbered(s.store.log, s.lastSeen, s.dispatcher.latest)
  }

  ghost predicate CoverInv(c: Config, from: uint64, s: State) {
    Fits(c.store, s.store.log) ==> ReadAll(s) && (s.Registered() && s.sub.Open() ==> CaughtUp(c.filter, from, s))
  }

  lemma {:induction false} NumberedLater(log: seq<Event>, e: Event, lo: nat, hi: nat)
    requires hi < e.sequence
    ensures Numbered(log + [e], lo, hi) == Numbered(log, lo, hi)
  {
    assert (log + [e])[..|log + [e]| - 1] == log;
  }

  lemma {:induction false} PublishCovers(c: Config, from: uint64, s: State, d: Draft)
    requires LogInv(c, s) && DispatchInv(s) && CoverInv(c, from, s)
    ensures CoverInv(c, from, s.(store := Publish(c.store, c.boot, s.store, d).1))
  {
    var (code, t) := Publish(c.store, c.boot, s.store, d);
    if code.Success? && Fits(c.store, t.log) {
      var e := Event(c.boot, s.store.next, d);
      TotalBytesConcat(s.store.log, [e]);
      NumberedLater(s.store.log, e, from, s.lastSeen);
      if s.dispatcher.Snapshotted? {
        NumberedLater(s.store.log, e, s.lastSeen, s.dispatcher.latest);
      }
    }
  }

  lemma {:induction false} NumberedBound(es: seq<Event>, lo: nat, hi: nat, top: nat)
    requires hi <= top && forall e :: e in es ==> e.sequence <= hi
    ensures Numbered(es, lo, top) == Numbered(es, lo, hi)
  {
    if es != [] { NumberedBound(es[..|es| - 1], lo, hi, top); }
  }

  lemma {:induction false} WholeLogKept(c: Config, s: State)
    requires LogInv(c, s) && Fits(c.store, s.store.log)
    ensures s.store.events == s.store.log
  {
    var k: nat :| LongestFrom(c.store, s.store.log, k, s.store.events);
    assert s.store.log[0..] == s.store.log;
  }

  lemma {:induction false} ReadIsAll(c: Config, s: State)
    requires LogInv(c, s) && Fits(c.store, s.store.log)
    ensures Numbered(s.store.events, s.lastSeen, UINT64_MAX) == Numbered(s.store.log, s.lastSeen, s.store.next - 1)
  {
    WholeLogKept(c, s);
    NumberedBound(s.store.log, s.lastSeen, s.store.next - 1, UINT64_MAX);
  }

  lemma {:induction false} ReadCovers(c: Config, from: uint64, s: State)
    requires LogInv(c, s) && CoverInv(c, from, s)
    ensures CoverInv(c, from, RunDispatchRead(s))
  {
    if Fits(c.store, s.store.log) {
      ReadIsAll(c, s);
    }
  }

  lemma {:induction false} CopyCovers(c: Config, from: uint64, s: State)
    requires Ascending(s.store.log) && CoverInv(c, from, s)
    ensures CoverInv(c, from, RunDispatchCopy(c, s))
  {
    if s.dispatcher.Snapshotted? && Fits(c.store, s.store.log) && s.Registered() && s.sub.Open() {
      var log, latest := s.store.log, s.dispatcher.latest;
      NumberedSplit(log, from, s.lastSeen, latest);
      MatchingConcat(c.filter, Numbered(log, from, s.lastSeen), Numbered(log, s.lastSeen, latest));
    }
  }

  lemma {:induction false} OfferCovers(c: Config, from: uint64, s: State)
    requires MarkersCarryLoss(s.sub.pending) && CoverInv(c, from, s)
    ensures CoverInv(c, from, RunOfferNext(c, s))
  {
    var t := RunOfferNext(c, s);
    if s.dispatcher.Offering? && t.sub.Open() {
      OfferedMoves(s.dispatcher.events, s.sub.history.offered);
      if s.dispatcher.events != [] {
        EnqueueAccepts(c.queue, s.sub, s.dispatcher.events[0]);
      }
    }
  }

  lemma {:induction false} EnqueueAccepts(lim: Limits, s: Sub, e: Event)
    requires MarkersCarryLoss(s.pending) && Enqueue(lim, s, e).Open()
    ensures s.Open() && Enqueue(lim, s, e).history.offered == s.history.offered + [e]
  {}

  lemma {:induction false} OfferedMoves(es: seq<Event>, offered: seq<Event>)
    ensures offered + es == if es == [] then offered else offered + [es[0]] + es[1..]
  {}

  lemma {:induction false} StepCovers(c: Config, from: uint64, s: State, step: Step)
    requires PipeInv(c, s) && CoverInv(c, from, s) && !step.Subscribe?
    ensures CoverInv(c, from, Next(c, s, step))
  {
    match step
    case PublishEvent(d) => PublishCovers(c, from, s, d);
    case DispatchRead => ReadCovers(c, from, s);
    case DispatchCopy => CopyCovers(c, from, s);
    case OfferNext => OfferCovers(c, from, s);
    case _ =>
      DeliverCovers(c, from, s, step);
      CloseCovers(c, from, s, step);
  }

  lemma {:induction false} DeliverCovers(c: Config, from: uint64, s: State, step: Step)
    requires CoverInv(c, from, s)
    ensures CoverInv(c, from, RunDeliver(s, step))
  {}

  lemma {:induction false} CloseCovers(c: Config, from: uint64, s: State, step: Step)
    requires CoverInv(c, from, s)
    ensures CoverInv(c, from, RunClose(s, step))
  {}

  lemma {:induction false} SubscribeCovers(c: Config, from: uint64, s: State)
    requires PipeInv(c, s) && CoverInv(c, from, s)
    ensures CoverInv(c, if s.life.Absent? then s.lastSeen else from, RunSubscribe(s))
  {
    if s.life.Absent? {
      NumberedNone(s.store.log, s.lastSeen, s.lastSeen);
    }
  }

  /** If everything accepted still fits the store, an open subscription has been offered every
      matching event numbered above what had been dispatched when it was made, up to the last
      dispatch, each exactly once and in order. */
  lemma {:induction false} NothingMissed(c: Config, steps: seq<Step>)
    requires AllFair(steps)
    ensures CoverInv(c, JoinedAt(c, steps), Exec(c, steps))
  {
    if steps == [] {
      StartInv(c);
    } else {
      var n := |steps| - 1;
      NothingMissed(c, steps[..n]);
      if steps[n].Subscribe? {
        SubscribeCovers(c, JoinedAt(c, steps[..n]), Exec(c, steps[..n]));
      } else {
        StepCovers(c, JoinedAt(c, steps[..n]), Exec(c, steps[..n]), steps[n]);
      }
    }
  }
}
