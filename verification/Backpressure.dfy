/** What a full subscription queue gives up for a new event, and when it closes instead. */
module Backpressure {
  import opened Base
  import opened Collections
  import opened EventStore
  import opened Subscription

  /** A metric update may push out older updates of the same metric of the same entity only; any other
      event may push out everything but the loss marker and the notice that the daemon drains. */
  predicate MayGo(e: Event, queued: Event) {
    if e.body.kind.MetricUpdate?
    then queued.body.kind.MetricUpdate? && queued.body.entity == e.body.entity && queued.body.metric == e.body.metric
    else !queued.body.kind.LossMarker? && !queued.body.kind.DaemonDraining?
  }

  function Expendable(e: Event): Event -> bool { queued => MayGo(e, queued) }

  /** The queue and `e` are within both limits once the `n` oldest expendable events have gone and, if that
      makes a first loss marker due, with that marker. */
  predicate FitsWithout(lim: Limits, p: seq<Event>, e: Event, n: nat) {
    var rest := DropFirst(p, Expendable(e), n);
    var due := 0 < n && forall q :: q in p ==> !q.IsMarker();
    && |rest| + (if due then 1 else 0) + 1 <= lim.maxEvents
    && TotalBytes(rest) + (if due then SIZEOF_EVENT + SIZEOF_LOSS_PAYLOAD else 0) + EventBytes(e) <= lim.maxBytes
  }

  /** The fewest expendable events whose going makes room. */
  ghost predicate Fewest(lim: Limits, p: seq<Event>, e: Event, n: nat) {
    FitsWithout(lim, p, e, n) && forall m: nat :: m < n ==> !FitsWithout(lim, p, e, m)
  }

  lemma {:induction false} MarkedIff(p: seq<Event>)
    ensures HasMarker(p) <==> exists q :: q in p && q.IsMarker()
  {
    if q :| q in p && q.IsMarker() {
      var i :| 0 <= i < |p| && p[i] == q;
    }
  }

  lemma {:induction false} CandidateIsFirst(p: seq<Event>, e: Event)
    ensures FirstWhere(p, Expendable(e), Candidate(p, e))
  {}

  /** As `FitsWithout`, for a queue from which something has gone before or not. */
  predicate FitsDrop(lim: Limits, p: seq<Event>, e: Event, marked: bool, gone: bool, n: nat) {
    !Exceeds(lim, DropFirst(p, Expendable(e), n), e, !marked && (gone || 0 < n))
  }

  /** `n` is the least number of events whose going makes room. */
  ghost predicate LeastDrop(lim: Limits, p: seq<Event>, e: Event, marked: bool, gone: bool, n: nat) {
    && FitsDrop(lim, p, e, marked, gone, n)
    && forall m: nat :: m < n ==> !FitsDrop(lim, p, e, marked, gone, m)
  }

  ghost predicate NeverFits(lim: Limits, p: seq<Event>, e: Event, marked: bool, gone: bool) {
    forall m: nat :: !FitsDrop(lim, p, e, marked, gone, m)
  }

  lemma {:induction false} FitsDropStep(lim: Limits, p: seq<Event>, e: Event, marked: bool, gone: bool, i: nat, m: nat)
    requires FirstWhere(p, Expendable(e), i) && i < |p|
    ensures FitsDrop(lim, p, e, marked, gone, m + 1) <==> FitsDrop(lim, Without(p, i), e, marked, true, m)
  {
    DropOne(p, Expendable(e), i, m);
  }

  lemma {:induction false} LeastDropStep(lim: Limits, p: seq<Event>, e: Event, marked: bool, gone: bool, i: nat, n: nat)
    requires FirstWhere(p, Expendable(e), i) && i < |p| && Exceeds(lim, p, e, !marked && gone)
    ensures LeastDrop(lim, Without(p, i), e, marked, true, n) ==> LeastDrop(lim, p, e, marked, gone, n + 1)
    ensures NeverFits(lim, Without(p, i), e, marked, true) ==> NeverFits(lim, p, e, marked, gone)
  {
    FitsDropStep(lim, p, e, marked, gone, i, n);
    forall m: nat | FitsDrop(lim, p, e, marked, gone, m)
      ensures 0 < m && FitsDrop(lim, Without(p, i), e, marked, true, m - 1)
    {
      if 0 < m {
        FitsDropStep(lim, p, e, marked, gone, i, m - 1);
      }
    }
  }

  lemma {:induction false} NothingGoes(lim: Limits, p: seq<Event>, e: Event, marked: bool, gone: bool)
    requires FirstWhere(p, Expendable(e), |p|) && Exceeds(lim, p, e, !marked && gone)
    ensures NeverFits(lim, p, e, marked, gone)
  {
    forall m: nat ensures !FitsDrop(lim, p, e, marked, gone, m) {
      NoneToDrop(p, Expendable(e), m);
    }
  }

  lemma {:induction false} RoomStep(p: seq<Event>, x: Event -> bool, dropped: seq<Event>, i: nat, n: nat)
    requires FirstWhere(p, x, i) && i < |p|
    ensures Room(DropFirst(Without(p, i), x, n), dropped + [p[i]] + TakeFirst(Without(p, i), x, n)) ==
            Room(DropFirst(p, x, n + 1), dropped + TakeFirst(p, x, n + 1))
  {
    TakeOne(p, x, i, n);
    DropOne(p, x, i, n);
  }

  lemma {:induction false} MakeRoomStep(lim: Limits, p: seq<Event>, e: Event, marked: bool, dropped: seq<Event>, i: nat)
    requires i == Candidate(p, e) < |p| && Exceeds(lim, p, e, !marked && dropped != [])
    ensures MakeRoom(lim, p, e, marked, dropped) == MakeRoom(lim, Without(p, i), e, marked, dropped + [p[i]])
  {}

  lemma {:induction false} MoreToDrop(lim: Limits, p: seq<Event>, e: Event, marked: bool, dropped: seq<Event>, i: nat,
                                      n: nat)
    requires i == Candidate(p, e) < |p| && Exceeds(lim, p, e, !marked && dropped != [])
    requires IsLeast(lim, Without(p, i), e, marked, dropped + [p[i]], n)
    ensures IsLeast(lim, p, e, marked, dropped, n + 1)
  {
    assert dropped + [p[i]] != [];
    CandidateIsFirst(p, e);
    MakeRoomStep(lim, p, e, marked, dropped, i);
    RoomStep(p, Expendable(e), dropped, i, n);
    LeastDropStep(lim, p, e, marked, dropped != [], i, n);
  }

  /** `n` is the number of events the dropping loop takes and no smaller one makes room, or none does. */
  ghost predicate IsLeast(lim: Limits, p: seq<Event>, e: Event, marked: bool, dropped: seq<Event>, n: nat) {
    var r := MakeRoom(lim, p, e, marked, dropped);
    if r.Some? then
      && r.value == Room(DropFirst(p, Expendable(e), n), dropped + TakeFirst(p, Expendable(e), n))
      && LeastDrop(lim, p, e, marked, dropped != [], n)
    else NeverFits(lim, p, e, marked, dropped != [])
  }

  lemma {:induction false} NothingToDrop(lim: Limits, p: seq<Event>, e: Event, marked: bool, dropped: seq<Event>)
    requires Exceeds(lim, p, e, !marked && dropped != []) ==> Candidate(p, e) == |p|
    ensures IsLeast(lim, p, e, marked, dropped, 0)
  {
    CandidateIsFirst(p, e);
    if Exceeds(lim, p, e, !marked && dropped != []) {
      NothingGoes(lim, p, e, marked, dropped != []);
    } else {
      assert dropped + [] == dropped;
    }
  }

  /** The dropping loop takes the fewest that make room, or there is no such number. */
  lemma {:induction false} MakeRoomIsLeast(lim: Limits, p: seq<Event>, e: Event, marked: bool, dropped: seq<Event>)
    returns (n: nat)
    ensures IsLeast(lim, p, e, marked, dropped, n)
    decreases |p|
  {
    n := 0;
    var i := Candidate(p, e);
    if !Exceeds(lim, p, e, !marked && dropped != []) || i == |p| {
      NothingToDrop(lim, p, e, marked, dropped);
    } else {
      var rest := MakeRoomIsLeast(lim, Without(p, i), e, marked, dropped + [p[i]]);
      n := rest + 1;
      MoreToDrop(lim, p, e, marked, dropped, i, rest);
    }
  }

  lemma {:induction false} FitsDropIs(lim: Limits, p: seq<Event>, e: Event, n: nat)
    ensures FitsDrop(lim, p, e, HasMarker(p), false, n) <==> FitsWithout(lim, p, e, n)
  {
    MarkedIff(p);
  }

  // ----- Dropping more never hurts -----

  lemma {:induction false} DropMore(p: seq<Event>, x: Event -> bool, n: nat)
    ensures |DropAll(p, x)| <= |DropFirst(p, x, n)| && TotalBytes(DropAll(p, x)) <= TotalBytes(DropFirst(p, x, n))
  {
    if p != [] {
      if n == 0 {
        TotalBytesHead(p);
        DropMore(p[1..], x, 0);
        KeepHead(p[0], DropAll(p[1..], x));
      } else if x(p[0]) {
        DropMore(p[1..], x, n - 1);
      } else {
        DropMore(p[1..], x, n);
        KeepHead(p[0], DropAll(p[1..], x));
        KeepHead(p[0], DropFirst(p[1..], x, n));
      }
    }
  }

  lemma {:induction false} KeepHead(e: Event, p: seq<Event>)
    ensures TotalBytes([e] + p) == EventBytes(e) + TotalBytes(p)
  {
    TotalBytesHead([e] + p);
    assert ([e] + p)[1..] == p;
  }

  /** If dropping some makes room, dropping none or all does. */
  lemma {:induction false} NoneOrAll(lim: Limits, p: seq<Event>, e: Event, n: nat)
    requires FitsWithout(lim, p, e, n)
    ensures FitsWithout(lim, p, e, 0) || FitsWithout(lim, p, e, |p|)
  {
    DropMore(p, Expendable(e), n);
    DropEnough(p, Expendable(e), |p|);
    if p == [] {
      assert DropFirst(p, Expendable(e), n) == DropFirst(p, Expendable(e), 0);
    }
  }

  // ----- Enqueue under pressure -----

  lemma {:induction false} RoomIsFewest(lim: Limits, p: seq<Event>, e: Event) returns (n: nat)
    ensures var r := MakeRoom(lim, p, e, HasMarker(p), []);
            && (r.Some? <==> FitsWithout(lim, p, e, 0) || FitsWithout(lim, p, e, |p|))
            && (r.Some? ==> Fewest(lim, p, e, n))
            && (r.Some? ==> r.value == Room(DropFirst(p, Expendable(e), n), TakeFirst(p, Expendable(e), n)))
  {
    n := MakeRoomIsLeast(lim, p, e, HasMarker(p), []);
    forall m: nat ensures FitsDrop(lim, p, e, HasMarker(p), false, m) <==> FitsWithout(lim, p, e, m) {
      FitsDropIs(lim, p, e, m);
    }
    assert [] + TakeFirst(p, Expendable(e), n) == TakeFirst(p, Expendable(e), n);
    if MakeRoom(lim, p, e, HasMarker(p), []).Some? {
      NoneOrAll(lim, p, e, n);
    } else {
      assert !FitsDrop(lim, p, e, HasMarker(p), false, 0) && !FitsDrop(lim, p, e, HasMarker(p), false, |p|);
    }
  }

  lemma {:induction false} AdmitPlain(lim: Limits, p: seq<Event>, e: Event)
    requires MarkersCarryLoss(p)
    ensures var r, a := MakeRoom(lim, p, e, HasMarker(p), []), Admit(lim, p, e);
            && (a.Some? <==> EventBytes(e) <= lim.maxBytes && r.Some?)
            && (a.Some? ==> a.value.dropped == r.value.dropped && Plain(a.value.pending) == Plain(r.value.pending))
  {
    var room := MakeRoom(lim, p, e, HasMarker(p), []);
    if room.Some? && room.value.dropped != [] {
      PlaceKeepsPlain(room.value.pending, MarkAll(room.value.dropped, QueuedMarker(p)).value);
    }
  }

  lemma {:induction false} EnqueueIs(lim: Limits, s: Sub, e: Event)
    requires s.Open() && QueueOk(lim, s.pending, s.history.covered) && !e.IsMarker()
    ensures var t, a := Enqueue(lim, s, e), Admit(lim, s.pending, e);
            if a.Some? then
              && t.Open() && t.pending == a.value.pending + [e]
              && t.history.covered == s.history.covered + a.value.dropped
              && Plain(t.pending) == Plain(a.value.pending) + [e]
            else t == s.(pending := [], closed := true)
  {
    var room := Admit(lim, s.pending, e);
    if room.Some? {
      RecheckUnreachable(lim, s.pending, e, s.history.covered);
      PlainConcat(room.value.pending, [e]);
      PlainOne(e);
    }
  }

  /** `enqueue` on an open subscription.  It closes if and only if the event alone exceeds the byte limit, or
      there is no room for it and a due marker even with every expendable event gone.  Otherwise the fewest
      expendable events that make room go, the oldest first; they are what the marker counts from now on, all
      other events stay in order, and the new one is last. */
  lemma {:induction false} PressureLaw(lim: Limits, s: Sub, e: Event) returns (n: nat)
    requires s.Open() && QueueOk(lim, s.pending, s.history.covered) && !e.IsMarker()
    ensures var t := Enqueue(lim, s, e);
            && (t.Open() <==> EventBytes(e) <= lim.maxBytes &&
                              (FitsWithout(lim, s.pending, e, 0) || FitsWithout(lim, s.pending, e, |s.pending|)))
            && (!t.Open() ==> t == s.(pending := [], closed := true))
    ensures var t, x := Enqueue(lim, s, e), Expendable(e);
            t.Open() ==>
              && Fewest(lim, s.pending, e, n)
              && t.history.covered == s.history.covered + TakeFirst(s.pending, x, n)
              && Plain(t.pending) == Plain(DropFirst(s.pending, x, n)) + [e] && t.pending[|t.pending| - 1] == e
  {
    n := RoomIsFewest(lim, s.pending, e);
    AdmitPlain(lim, s.pending, e);
    EnqueueIs(lim, s, e);
  }

  // ----- The marker -----

  /** What the marker says after some events were dropped: it keeps the number and time of the first of them
      it ever stood for, has the boot epoch and catalog generation of the last, and spans and counts them all. */
  lemma {:induction false} MarkerSays(dropped: seq<Event>, existing: Option<Event>)
    requires LossCarrying(existing) && dropped != []
    ensures var m, last := MarkAll(dropped, existing).value, dropped[|dropped| - 1];
            var start := if existing.Some? then existing.value else dropped[0];
            && m.sequence == start.sequence && m.body.occurrenceTime == start.body.occurrenceTime
            && m.bootEpoch == last.bootEpoch && m.body.catalogGeneration == last.body.catalogGeneration
            && m.body.kind.LossMarker? && m.body.severity.WarningSeverity? && m.body.payload.LossPayload?
            && m.body.payload.count ==
               |dropped| + (if existing.Some? then existing.value.body.payload.count else 0)
  {
    if 1 < |dropped| {
      MarkerSays(dropped[..|dropped| - 1], existing);
    } else {
      assert dropped[..0] == [];
    }
  }

  /** The marker takes the place of the one queued before, or the last place. */
  lemma {:induction false} MarkerPlace(p: seq<Event>, m: Event)
    requires m.IsMarker() && OneMarker(p)
    ensures var r, marked := PlaceMarker(p, m), exists q :: q in p && q.IsMarker();
            && |r| == |p| + (if marked then 0 else 1) && (!marked ==> r[|p|] == m)
            && forall i :: 0 <= i < |p| ==> r[i] == if p[i].IsMarker() then m else p[i]
  {
    MarkedIff(p);
  }
}
