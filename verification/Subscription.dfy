/** One subscriber's queue: `SubscriptionManager::enqueue` drops queued events under
    pressure and accounts for them in a single loss marker. */
module Subscription {
  import opened Base
  import opened Collections
  import opened EventStore

  // ----- Which events are dropped -----

  predicate NonDroppable(k: EventType) { k.LossMarker? || k.DaemonDraining? }

  predicate SameMetricKey(a: Event, b: Event) {
    && a.body.kind.MetricUpdate? && b.body.kind.MetricUpdate?
    && a.body.entity == b.body.entity && a.body.metric == b.body.metric
  }

  /** May `queued` be dropped to make room for `incoming`? */
  predicate GivesWay(queued: Event, incoming: Event) {
    if incoming.body.kind.MetricUpdate? then SameMetricKey(queued, incoming)
    else !NonDroppable(queued.body.kind)
  }

  /** The first queued event that gives way, or the length of the queue. */
  function Candidate(p: seq<Event>, e: Event): (i: nat)
    ensures i <= |p| && (forall j :: 0 <= j < i ==> !GivesWay(p[j], e)) && (i < |p| ==> GivesWay(p[i], e))
  {
    if p == [] || GivesWay(p[0], e) then 0 else 1 + Candidate(p[1..], e)
  }

  /** The position of the loss marker, or the length of the queue. */
  function MarkerIndex(p: seq<Event>): (i: nat)
    ensures i <= |p| && (forall j :: 0 <= j < i ==> !p[j].IsMarker()) && (i < |p| ==> p[i].IsMarker())
  {
    if p == [] || p[0].IsMarker() then 0 else 1 + MarkerIndex(p[1..])
  }

  predicate HasMarker(p: seq<Event>) { MarkerIndex(p) < |p| }

  const MARKER_BYTES: nat := SIZEOF_EVENT + SIZEOF_LOSS_PAYLOAD

  /** `exceeds_limits`: would the queue with `e`, and with a new marker if one is due, be too big? */
  predicate Exceeds(lim: Limits, p: seq<Event>, e: Event, due: bool) {
    || |p| + 1 + (if due then 1 else 0) > lim.maxEvents
    || TotalBytes(p) + EventBytes(e) + (if due then MARKER_BYTES else 0) > lim.maxBytes
  }

  datatype Room = Room(pending: seq<Event>, dropped: seq<Event>)

  /** Drops queued events until `e` fits; `None` when nothing more gives way. */
  function MakeRoom(lim: Limits, p: seq<Event>, e: Event, marked: bool, dropped: seq<Event>): Option<Room>
    decreases |p|
  {
    if !Exceeds(lim, p, e, !marked && dropped != []) then Some(Room(p, dropped))
    else
      var i := Candidate(p, e);
      if i == |p| then None
      else MakeRoom(lim, Without(p, i), e, marked, dropped + [p[i]])
  }

  // ----- The loss marker -----

  predicate LossCarrying(m: Option<Event>) {
    m.Some? ==> m.value.body.payload.LossPayload?
  }

  /** `lossMarker`: a new marker for one dropped event, or an existing one extended by it. */
  function Mark(dropped: Event, existing: Option<Event>): (m: Event)
    requires LossCarrying(existing)
    ensures m.IsMarker() && m.body.payload.LossPayload? && EventBytes(m) == MARKER_BYTES
  {
    var sequence := if existing.Some? then existing.value.sequence else dropped.sequence;
    var time := if existing.Some? then existing.value.body.occurrenceTime else dropped.body.occurrenceTime;
    var payload :=
      if existing.None? then LossPayload(dropped.sequence, dropped.sequence, 1)
      else
        var old_ := existing.value.body.payload;
        LossPayload(if dropped.sequence < old_.first then dropped.sequence else old_.first,
                    if old_.last < dropped.sequence then dropped.sequence else old_.last,
                    old_.count + 1);
    Event(dropped.bootEpoch, sequence,
          Draft(LossMarker, WarningSeverity, None, None, None, time, dropped.body.catalogGeneration, payload))
  }

  function MarkAll(dropped: seq<Event>, existing: Option<Event>): (m: Option<Event>)
    requires LossCarrying(existing)
    ensures LossCarrying(m) && (dropped != [] ==> m.Some? && m.value.IsMarker() && EventBytes(m.value) == MARKER_BYTES)
    ensures dropped == [] ==> m == existing
  {
    if dropped == [] then existing
    else Some(Mark(dropped[|dropped| - 1], MarkAll(dropped[..|dropped| - 1], existing)))
  }

  /** Replaces the queued marker, or appends a first one. */
  function PlaceMarker(p: seq<Event>, m: Event): seq<Event> {
    if HasMarker(p) then p[MarkerIndex(p) := m] else p + [m]
  }

  // ----- The queue as a value -----

  /** Every queued marker carries a loss payload: markers come from `Mark` only. */
  predicate MarkersCarryLoss(p: seq<Event>) {
    forall e :: e in p && e.IsMarker() ==> e.body.payload.LossPayload?
  }

  function QueuedMarker(p: seq<Event>): (m: Option<Event>)
    requires MarkersCarryLoss(p)
    ensures LossCarrying(m)
  {
    if HasMarker(p) then Some(p[MarkerIndex(p)]) else None
  }

  /** The queue before `e` is appended, and what was dropped; `None` closes the subscription. */
  function Admit(lim: Limits, p: seq<Event>, e: Event): Option<Room>
    requires MarkersCarryLoss(p)
  {
    if lim.maxBytes < EventBytes(e) then None
    else
      var room := MakeRoom(lim, p, e, HasMarker(p), []);
      if room.None? || room.value.dropped == [] then room
      else
        var marker := MarkAll(room.value.dropped, QueuedMarker(p)).value;
        Some(Room(PlaceMarker(room.value.pending, marker), room.value.dropped))
  }

  /** The last capacity check of `enqueue`. */
  predicate RecheckFails(lim: Limits, p: seq<Event>, e: Event) {
    |p| >= lim.maxEvents || TotalBytes(p) > lim.maxBytes - EventBytes(e)
  }

  /** A delivered event; a marker is recorded with the dropped events it stands for. */
  datatype Delivery = Delivery(event: Event, covers: seq<Event>)

  /** `offered`: accepted by `enqueue`.  `covered`: dropped since the last marker was delivered. */
  datatype History = History(offered: seq<Event>, delivered: seq<Delivery>, covered: seq<Event>)

  datatype Sub = Sub(pending: seq<Event>, active: nat, closing: bool, closed: bool, history: History) {
    predicate Open() { !closing && !closed }
  }

  function Fresh(): Sub { Sub([], 0, false, false, History([], [], [])) }

  /** `enqueue` under the subscription lock. */
  function Enqueue(lim: Limits, s: Sub, e: Event): Sub
    requires MarkersCarryLoss(s.pending)
  {
    if !s.Open() then s
    else
      var room := Admit(lim, s.pending, e);
      if room.None? || RecheckFails(lim, room.value.pending, e) then s.(pending := [], closed := true)
      else
        var h := s.history;
        s.(pending := room.value.pending + [e],
           history := h.(offered := h.offered + [e], covered := h.covered + room.value.dropped))
  }

  predicate CanDeliver(s: Sub) { s.Open() && s.pending != [] }

  /** The locked part of `deliverNext` before the callback. */
  function BeginDelivery(s: Sub): Sub
    requires CanDeliver(s)
  {
    var e := s.pending[0];
    var h := s.history;
    s.(pending := s.pending[1..],
       active := s.active + 1,
       history := if e.IsMarker() then h.(delivered := h.delivered + [Delivery(e, h.covered)], covered := [])
                  else h.(delivered := h.delivered + [Delivery(e, [])]))
  }

  // ----- The books -----

  /** Queued events without the marker. */
  function Plain(p: seq<Event>): seq<Event> {
    if p == [] then [] else Plain(p[..|p| - 1]) + if p[|p| - 1].IsMarker() then [] else [p[|p| - 1]]
  }

  lemma {:induction false} PlainConcat(a: seq<Event>, b: seq<Event>)
    ensures Plain(a + b) == Plain(a) + Plain(b)
  {
    if b == [] {
      assert a + b == a;
    } else {
      var n := |b| - 1;
      assert (a + b)[..|a + b| - 1] == a + b[..n];
      PlainConcat(a, b[..n]);
    }
  }

  lemma {:induction false} PlainOne(e: Event)
    ensures Plain([e]) == if e.IsMarker() then [] else [e]
  {
    assert [e][..0] == [];
  }

  ghost predicate OneMarker(p: seq<Event>) {
    forall i, j :: 0 <= i < j < |p| ==> !(p[i].IsMarker() && p[j].IsMarker())
  }

  /** The marker reports the least and greatest sequence and the number of the events in `c`. */
  ghost predicate Reports(m: Event, c: seq<Event>) {
    && m.IsMarker() && m.body.payload.LossPayload? && m.body.payload.count == |c|
    && (forall x :: x in c ==> m.body.payload.first <= x.sequence <= m.body.payload.last)
    && (exists x :: x in c && x.sequence == m.body.payload.first)
    && (exists x :: x in c && x.sequence == m.body.payload.last)
  }

  ghost predicate MarkerReports(m: Option<Event>, c: seq<Event>) {
    if m.Some? then Reports(m.value, c) else c == []
  }

  ghost predicate DeliveryReports(d: Delivery) {
    if d.event.IsMarker() then Reports(d.event, d.covers) else d.covers == []
  }

  /** The offered events that a delivery stands for. */
  ghost function Standing(d: Delivery): multiset<Event> {
    if d.event.IsMarker() then multiset(d.covers) else multiset{d.event}
  }

  ghost function StandingAll(ds: seq<Delivery>): multiset<Event> {
    if ds == [] then multiset{} else StandingAll(ds[..|ds| - 1]) + Standing(ds[|ds| - 1])
  }

  function PlainDelivered(ds: seq<Delivery>): seq<Event> {
    if ds == [] then []
    else PlainDelivered(ds[..|ds| - 1]) + if ds[|ds| - 1].event.IsMarker() then [] else [ds[|ds| - 1].event]
  }

  /** The queue fits, holds at most one marker, and that marker reports what was dropped. */
  ghost predicate QueueOk(lim: Limits, p: seq<Event>, covered: seq<Event>) {
    && Fits(lim, p) && OneMarker(p) && MarkersCarryLoss(p) && MarkerReports(QueuedMarker(p), covered)
  }

  /** Every offered event is delivered, queued, or reported by exactly one marker. */
  ghost predicate Conserved(s: Sub) {
    multiset(s.history.offered) ==
    StandingAll(s.history.delivered) + multiset(Plain(s.pending)) + multiset(s.history.covered)
  }

  ghost predicate Ordered(s: Sub) {
    Ascending(PlainDelivered(s.history.delivered) + Plain(s.pending))
  }

  ghost predicate SubInv(lim: Limits, s: Sub) {
    && (forall d :: d in s.history.delivered ==> DeliveryReports(d))
    && (forall e :: e in s.history.offered ==> !e.IsMarker())
    && Ascending(s.history.offered)
    && Ordered(s)
    && (s.Open() ==> QueueOk(lim, s.pending, s.history.covered) && Conserved(s))
    && (!s.Open() ==> s.pending == [] && StandingAll(s.history.delivered) <= multiset(s.history.offered))
  }

  // ----- Dropping -----

  /** `q` is `p` without the events `ds`, none of them the marker. */
  ghost predicate Thinned(p: seq<Event>, q: seq<Event>, ds: seq<Event>) {
    && multiset(Plain(p)) == multiset(Plain(q)) + multiset(ds)
    && MarkersCarryLoss(p) && MarkersCarryLoss(q) && QueuedMarker(p) == QueuedMarker(q)
    && (OneMarker(p) ==> OneMarker(q))
  }

  lemma {:induction false} MarkerIndexAt(p: seq<Event>, i: nat)
    requires i < |p| && p[i].IsMarker() && forall j :: 0 <= j < i ==> !p[j].IsMarker()
    ensures MarkerIndex(p) == i
  {}

  lemma {:induction false} NoMarkerIndex(p: seq<Event>)
    requires forall j :: 0 <= j < |p| ==> !p[j].IsMarker()
    ensures MarkerIndex(p) == |p|
  {}

  lemma {:induction false} DropKeepsMarker(p: seq<Event>, i: nat)
    requires i < |p| && !p[i].IsMarker() && MarkersCarryLoss(p)
    ensures MarkersCarryLoss(Without(p, i)) && QueuedMarker(Without(p, i)) == QueuedMarker(p)
  {
    var q := Without(p, i);
    var k := MarkerIndex(p);
    if k == |p| {
      NoMarkerIndex(q);
    } else {
      MarkerIndexAt(q, if k < i then k else k - 1);
    }
  }

  lemma {:induction false} DropKeepsOne(p: seq<Event>, i: nat)
    requires i < |p| && OneMarker(p)
    ensures OneMarker(Without(p, i))
  {
    var q := Without(p, i);
    forall a, b | 0 <= a < b < |q| ensures !(q[a].IsMarker() && q[b].IsMarker()) {
      assert q[a] == p[if a < i then a else a + 1] && q[b] == p[if b < i then b else b + 1];
    }
  }

  lemma {:induction false} PlainDrop(p: seq<Event>, i: nat)
    requires i < |p| && !p[i].IsMarker()
    ensures Plain(p) == Plain(p[..i]) + [p[i]] + Plain(p[i + 1..])
    ensures Plain(Without(p, i)) == Plain(p[..i]) + Plain(p[i + 1..])
  {
    assert p == p[..i] + [p[i]] + p[i + 1..];
    PlainConcat(p[..i] + [p[i]], p[i + 1..]);
    PlainConcat(p[..i], [p[i]]);
    PlainOne(p[i]);
    PlainConcat(p[..i], p[i + 1..]);
  }

  lemma {:induction false} DropThins(p: seq<Event>, i: nat)
    requires i < |p| && !p[i].IsMarker() && MarkersCarryLoss(p)
    ensures Thinned(p, Without(p, i), [p[i]])
  {
    DropKeepsMarker(p, i);
    if OneMarker(p) { DropKeepsOne(p, i); }
    PlainDrop(p, i);
  }

  lemma {:induction false} AscendingDrop(s: seq<Event>, k: nat)
    requires k < |s| && Ascending(s)
    ensures Ascending(Without(s, k))
  {
    var t := Without(s, k);
    forall i, j | 0 <= i < j < |t| ensures t[i].sequence < t[j].sequence {
      assert t[i] == s[if i < k then i else i + 1] && t[j] == s[if j < k then j else j + 1];
    }
  }

  /** Dropping from the queue is dropping one event from the merged order. */
  lemma {:induction false} PlainDropAt(before: seq<Event>, p: seq<Event>, i: nat) returns (k: nat)
    requires i < |p| && !p[i].IsMarker()
    ensures k < |before + Plain(p)| && before + Plain(Without(p, i)) == Without(before + Plain(p), k)
  {
    PlainDrop(p, i);
    k := |before + Plain(p[..i])|;
    assert before + Plain(p) == (before + Plain(p[..i])) + [p[i]] + Plain(p[i + 1..]);
  }

  lemma {:induction false} ThinnedMore(p: seq<Event>, q: seq<Event>, ds: seq<Event>, i: nat)
    requires Thinned(p, q, ds) && i < |q| && !q[i].IsMarker()
    ensures Thinned(p, Without(q, i), ds + [q[i]])
  {
    DropThins(q, i);
  }

  lemma {:induction false} MakeRoomThins(lim: Limits, p0: seq<Event>, p: seq<Event>, e: Event, marked: bool,
                                         dropped: seq<Event>)
    requires Thinned(p0, p, dropped) && MakeRoom(lim, p, e, marked, dropped).Some?
    ensures var r := MakeRoom(lim, p, e, marked, dropped).value;
            Thinned(p0, r.pending, r.dropped) && !Exceeds(lim, r.pending, e, !marked && r.dropped != [])
    decreases |p|
  {
    if Exceeds(lim, p, e, !marked && dropped != []) {
      var i := Candidate(p, e);
      ThinnedMore(p0, p, dropped, i);
      MakeRoomThins(lim, p0, Without(p, i), e, marked, dropped + [p[i]]);
    }
  }

  lemma {:induction false} MakeRoomKeepsOrder(lim: Limits, p: seq<Event>, e: Event, marked: bool,
                                              dropped: seq<Event>, before: seq<Event>)
    requires Ascending(before + Plain(p)) && MakeRoom(lim, p, e, marked, dropped).Some?
    ensures Ascending(before + Plain(MakeRoom(lim, p, e, marked, dropped).value.pending))
    decreases |p|
  {
    if Exceeds(lim, p, e, !marked && dropped != []) {
      var i := Candidate(p, e);
      var k := PlainDropAt(before, p, i);
      AscendingDrop(before + Plain(p), k);
      MakeRoomKeepsOrder(lim, Without(p, i), e, marked, dropped + [p[i]], before);
    }
  }

  // ----- Marking -----

  lemma {:induction false} MarkReports(d: Event, m: Option<Event>, c: seq<Event>)
    requires LossCarrying(m) && MarkerReports(m, c)
    ensures Reports(Mark(d, m), c + [d])
  {
    var r := Mark(d, m);
    assert d in c + [d];
    if m.Some? {
      var lo :| lo in c && lo.sequence == m.value.body.payload.first;
      var hi :| hi in c && hi.sequence == m.value.body.payload.last;
      assert lo in c + [d] && hi in c + [d];
    }
  }

  lemma {:induction false} MarkAllReports(ds: seq<Event>, m: Option<Event>, c: seq<Event>)
    requires LossCarrying(m) && MarkerReports(m, c)
    ensures MarkerReports(MarkAll(ds, m), c + ds)
  {
    if ds == [] {
      assert c + ds == c;
    } else {
      var n := |ds| - 1;
      MarkAllReports(ds[..n], m, c);
      MarkReports(ds[n], MarkAll(ds[..n], m), c + ds[..n]);
      assert c + ds == c + ds[..n] + [ds[n]];
    }
  }

  lemma {:induction false} PlaceKeepsPlain(p: seq<Event>, m: Event)
    requires m.IsMarker()
    ensures Plain(PlaceMarker(p, m)) == Plain(p)
  {
    var k := MarkerIndex(p);
    PlainOne(m);
    if k < |p| {
      SplitPlain(p, k);
      SplitPlain(PlaceMarker(p, m), k);
      PlainOne(p[k]);
    } else {
      PlainConcat(p, [m]);
    }
  }

  lemma {:induction false} SplitPlain(p: seq<Event>, k: nat)
    requires k < |p|
    ensures Plain(p) == Plain(p[..k]) + (Plain([p[k]]) + Plain(p[k + 1..]))
  {
    var a, x, b := p[..k], [p[k]], p[k + 1..];
    PlainConcat(x, b);
    PlainConcat(a, x + b);
    assert p == a + (x + b);
  }

  lemma {:induction false} SplitBytes(p: seq<Event>, k: nat)
    requires k < |p|
    ensures TotalBytes(p) == TotalBytes(p[..k]) + EventBytes(p[k]) + TotalBytes(p[k + 1..])
  {
    assert p == p[..k] + p[k..];
    TotalBytesConcat(p[..k], p[k..]);
    TotalBytesHead(p[k..]);
  }

  lemma {:induction false} PlaceBytes(p: seq<Event>, m: Event)
    requires EventBytes(m) == MARKER_BYTES && MarkersCarryLoss(p)
    ensures TotalBytes(PlaceMarker(p, m)) == TotalBytes(p) + if HasMarker(p) then 0 else MARKER_BYTES
  {
    var k := MarkerIndex(p);
    var q := PlaceMarker(p, m);
    if k < |p| {
      SplitBytes(p, k);
      SplitBytes(q, k);
      assert p[..k] == q[..k] && p[k + 1..] == q[k + 1..];
    } else {
      assert q[..|q| - 1] == p;
    }
  }

  lemma {:induction false} PlaceKeepsOne(p: seq<Event>, m: Event)
    requires m.IsMarker() && m.body.payload.LossPayload? && MarkersCarryLoss(p) && OneMarker(p)
    ensures MarkersCarryLoss(PlaceMarker(p, m)) && OneMarker(PlaceMarker(p, m))
    ensures QueuedMarker(PlaceMarker(p, m)) == Some(m)
  {
    var k := MarkerIndex(p);
    var q := PlaceMarker(p, m);
    MarkerIndexAt(q, k);
  }

  /** After `Admit` there is room for the event, and the marker reports what was dropped. */
  ghost predicate Admitted(lim: Limits, p: seq<Event>, e: Event, covered: seq<Event>, r: Room) {
    && |r.pending| + 1 <= lim.maxEvents && TotalBytes(r.pending) + EventBytes(e) <= lim.maxBytes
    && OneMarker(r.pending) && MarkersCarryLoss(r.pending)
    && MarkerReports(QueuedMarker(r.pending), covered + r.dropped)
    && multiset(Plain(p)) == multiset(Plain(r.pending)) + multiset(r.dropped)
  }

  lemma {:induction false} PlacedIsAdmitted(lim: Limits, p: seq<Event>, e: Event, covered: seq<Event>, room: Room)
    requires Thinned(p, room.pending, room.dropped) && OneMarker(p) && room.dropped != []
    requires !Exceeds(lim, room.pending, e, !HasMarker(room.pending))
    requires MarkerReports(QueuedMarker(p), covered)
    ensures var m := MarkAll(room.dropped, QueuedMarker(p)).value;
            Admitted(lim, p, e, covered, Room(PlaceMarker(room.pending, m), room.dropped))
  {
    MarkAllReports(room.dropped, QueuedMarker(p), covered);
    var m := MarkAll(room.dropped, QueuedMarker(p)).value;
    PlaceKeepsPlain(room.pending, m);
    PlaceBytes(room.pending, m);
    PlaceKeepsOne(room.pending, m);
  }

  lemma {:induction false} ThinnedSelf(p: seq<Event>)
    requires MarkersCarryLoss(p)
    ensures Thinned(p, p, [])
  {}

  lemma {:induction false} AdmitFits(lim: Limits, p: seq<Event>, e: Event, covered: seq<Event>)
    requires QueueOk(lim, p, covered) && Admit(lim, p, e).Some?
    ensures Admitted(lim, p, e, covered, Admit(lim, p, e).value)
  {
    ThinnedSelf(p);
    MakeRoomThins(lim, p, p, e, HasMarker(p), []);
    var room := MakeRoom(lim, p, e, HasMarker(p), []).value;
    if room.dropped != [] {
      PlacedIsAdmitted(lim, p, e, covered, room);
    } else {
      assert covered + [] == covered;
    }
  }

  lemma {:induction false} AdmitKeepsOrder(lim: Limits, p: seq<Event>, e: Event, before: seq<Event>)
    requires MarkersCarryLoss(p) && Ascending(before + Plain(p)) && Admit(lim, p, e).Some?
    ensures Ascending(before + Plain(Admit(lim, p, e).value.pending))
  {
    MakeRoomKeepsOrder(lim, p, e, HasMarker(p), [], before);
    var room := MakeRoom(lim, p, e, HasMarker(p), []).value;
    if room.dropped != [] {
      PlaceKeepsPlain(room.pending, MarkAll(room.dropped, QueuedMarker(p)).value);
    }
  }

  /** The last capacity check of `enqueue` never closes a subscription. */
  lemma {:induction false} RecheckUnreachable(lim: Limits, p: seq<Event>, e: Event, covered: seq<Event>)
    requires QueueOk(lim, p, covered) && Admit(lim, p, e).Some?
    ensures !RecheckFails(lim, Admit(lim, p, e).value.pending, e)
  {
    AdmitFits(lim, p, e, covered);
  }

  // ----- The invariant over steps -----

  lemma {:induction false} FreshInv(lim: Limits)
    ensures SubInv(lim, Fresh())
  {
    NoMarkerIndex([]);
  }

  /** Everything delivered or queued was offered. */
  lemma {:induction false} StandingHolds(ds: seq<Delivery>)
    ensures forall e :: e in PlainDelivered(ds) ==> e in StandingAll(ds)
  {
    if ds != [] { StandingHolds(ds[..|ds| - 1]); }
  }

  lemma {:induction false} AppendOrder(before: seq<Event>, p: seq<Event>, e: Event)
    requires Ascending(before + Plain(p)) && !e.IsMarker()
    requires forall x :: x in before + Plain(p) ==> x.sequence < e.sequence
    ensures Ascending(before + Plain(p + [e]))
  {
    PlainConcat(p, [e]);
    PlainOne(e);
    AscendingExtends(before + Plain(p), e);
    assert before + Plain(p + [e]) == (before + Plain(p)) + [e];
  }

  lemma {:induction false} AppendQueue(lim: Limits, p: seq<Event>, e: Event, covered: seq<Event>)
    requires |p| + 1 <= lim.maxEvents && TotalBytes(p) + EventBytes(e) <= lim.maxBytes && !e.IsMarker()
    requires OneMarker(p) && MarkersCarryLoss(p) && MarkerReports(QueuedMarker(p), covered)
    ensures QueueOk(lim, p + [e], covered)
  {
    var q := p + [e];
    assert q[..|q| - 1] == p;
    var k := MarkerIndex(p);
    if k < |p| { MarkerIndexAt(q, k); } else { NoMarkerIndex(q); }
  }

  /** `e` is newer than everything offered so far. */
  ghost predicate NewerThanAll(s: Sub, e: Event) {
    forall x :: x in s.history.offered ==> x.sequence < e.sequence
  }

  lemma {:induction false} EnqueueQueueOk(lim: Limits, s: Sub, e: Event)
    requires QueueOk(lim, s.pending, s.history.covered) && s.Open() && !e.IsMarker()
    ensures var t := Enqueue(lim, s, e); t.Open() ==> QueueOk(lim, t.pending, t.history.covered)
  {
    var room := Admit(lim, s.pending, e);
    if room.Some? {
      AdmitFits(lim, s.pending, e, s.history.covered);
      AppendQueue(lim, room.value.pending, e, s.history.covered + room.value.dropped);
    }
  }

  lemma {:induction false} EnqueueConserves(lim: Limits, s: Sub, e: Event)
    requires QueueOk(lim, s.pending, s.history.covered) && Conserved(s) && s.Open() && !e.IsMarker()
    ensures var t := Enqueue(lim, s, e); t.Open() ==> Conserved(t)
  {
    var room := Admit(lim, s.pending, e);
    if room.Some? {
      AdmitFits(lim, s.pending, e, s.history.covered);
      PlainConcat(room.value.pending, [e]);
      PlainOne(e);
    }
  }

  lemma {:induction false} OfferedNewer(s: Sub, e: Event, p: seq<Event>)
    requires Conserved(s) && NewerThanAll(s, e) && multiset(Plain(p)) <= multiset(Plain(s.pending))
    ensures forall x :: x in PlainDelivered(s.history.delivered) + Plain(p) ==> x.sequence < e.sequence
  {
    StandingHolds(s.history.delivered);
    forall x | x in PlainDelivered(s.history.delivered) + Plain(p) ensures x.sequence < e.sequence {
      if x in Plain(p) { assert x in multiset(Plain(p)); }
      assert x in multiset(s.history.offered);
    }
  }

  lemma {:induction false} EnqueueOrders(lim: Limits, s: Sub, e: Event)
    requires SubInv(lim, s) && s.Open() && !e.IsMarker() && NewerThanAll(s, e)
    ensures Enqueue(lim, s, e).Open() ==> Ordered(Enqueue(lim, s, e))
  {
    var room := Admit(lim, s.pending, e);
    if room.Some? {
      var before := PlainDelivered(s.history.delivered);
      AdmitFits(lim, s.pending, e, s.history.covered);
      AdmitKeepsOrder(lim, s.pending, e, before);
      OfferedNewer(s, e, room.value.pending);
      AppendOrder(before, room.value.pending, e);
    }
  }

  lemma {:induction false} PrefixAscending(a: seq<Event>, b: seq<Event>)
    requires Ascending(a + b)
    ensures Ascending(a + [])
  {
    forall i, j | 0 <= i < j < |a| ensures a[i].sequence < a[j].sequence {
      assert (a + b)[i] == a[i] && (a + b)[j] == a[j];
    }
    assert a + [] == a;
  }

  lemma {:induction false} EnqueueKeepsInv(lim: Limits, s: Sub, e: Event)
    requires SubInv(lim, s) && !e.IsMarker() && NewerThanAll(s, e)
    ensures SubInv(lim, Enqueue(lim, s, e))
  {
    if s.Open() {
      EnqueueQueueOk(lim, s, e);
      EnqueueConserves(lim, s, e);
      EnqueueOrders(lim, s, e);
      AscendingExtends(s.history.offered, e);
      PrefixAscending(PlainDelivered(s.history.delivered), Plain(s.pending));
    }
  }

  lemma {:induction false} PopPlain(p: seq<Event>)
    requires p != []
    ensures Plain(p) == (if p[0].IsMarker() then [] else [p[0]]) + Plain(p[1..])
  {
    assert p == [p[0]] + p[1..];
    PlainConcat([p[0]], p[1..]);
    PlainOne(p[0]);
  }

  lemma {:induction false} PopMarker(p: seq<Event>)
    requires p != [] && MarkersCarryLoss(p) && OneMarker(p)
    ensures MarkersCarryLoss(p[1..]) && OneMarker(p[1..])
    ensures if p[0].IsMarker() then QueuedMarker(p) == Some(p[0]) && QueuedMarker(p[1..]) == None
            else QueuedMarker(p[1..]) == QueuedMarker(p)
  {
    if p[0].IsMarker() {
      NoMarkerIndex(p[1..]);
    }
  }

  lemma {:induction false} DeliveryQueueOk(lim: Limits, s: Sub)
    requires QueueOk(lim, s.pending, s.history.covered) && CanDeliver(s)
    ensures QueueOk(lim, BeginDelivery(s).pending, BeginDelivery(s).history.covered)
    ensures DeliveryReports(BeginDelivery(s).history.delivered[|s.history.delivered|])
  {
    PopMarker(s.pending);
    TotalBytesHead(s.pending);
  }

  lemma {:induction false} DeliveryConserves(s: Sub)
    requires MarkersCarryLoss(s.pending) && Conserved(s) && CanDeliver(s)
    ensures Conserved(BeginDelivery(s))
  {
    PopPlain(s.pending);
    var e, c := s.pending[0], s.history.covered;
    StandingStep(s.history.delivered, Delivery(e, if e.IsMarker() then c else []));
    assert multiset(Plain(s.pending)) ==
           multiset(if e.IsMarker() then [] else [e]) + multiset(Plain(s.pending[1..]));
  }

  lemma {:induction false} StandingStep(ds: seq<Delivery>, d: Delivery)
    ensures StandingAll(ds + [d]) == StandingAll(ds) + Standing(d)
  {
    assert (ds + [d])[..|ds|] == ds;
  }

  lemma {:induction false} DeliveryOrders(s: Sub)
    requires MarkersCarryLoss(s.pending) && CanDeliver(s)
    ensures PlainDelivered(BeginDelivery(s).history.delivered) + Plain(BeginDelivery(s).pending) ==
            PlainDelivered(s.history.delivered) + Plain(s.pending)
  {
    PopPlain(s.pending);
    var ds := BeginDelivery(s).history.delivered;
    assert ds[..|ds| - 1] == s.history.delivered;
  }

  lemma {:induction false} DeliveryKeepsInv(lim: Limits, s: Sub)
    requires SubInv(lim, s) && CanDeliver(s)
    ensures SubInv(lim, BeginDelivery(s))
  {
    var t := BeginDelivery(s);
    DeliveryQueueOk(lim, s);
    DeliveryConserves(s);
    DeliveryOrders(s);
    assert t.history.offered == s.history.offered && t.Open();
    assert Ordered(t);
  }

  // ----- Consequences for a reader of the stream -----

  function LossCount(e: Event): nat {
    if e.IsMarker() && e.body.payload.LossPayload? then e.body.payload.count else 0
  }

  function LossSum(es: seq<Event>): nat {
    if es == [] then 0 else LossSum(es[..|es| - 1]) + LossCount(es[|es| - 1])
  }

  function EventsOf(ds: seq<Delivery>): seq<Event> {
    if ds == [] then [] else EventsOf(ds[..|ds| - 1]) + [ds[|ds| - 1].event]
  }

  lemma {:induction false} DeliveredCount(ds: seq<Delivery>)
    requires forall d :: d in ds ==> DeliveryReports(d)
    ensures |StandingAll(ds)| == |PlainDelivered(ds)| + LossSum(EventsOf(ds))
  {
    if ds != [] {
      var n := |ds| - 1;
      DeliveredCount(ds[..n]);
      assert DeliveryReports(ds[n]);
      assert EventsOf(ds)[..|EventsOf(ds)| - 1] == EventsOf(ds[..n]);
    }
  }

  lemma {:induction false} NoLoss(p: seq<Event>)
    requires forall e :: e in p ==> !e.IsMarker()
    ensures LossSum(p) == 0
  {
    if p != [] { NoLoss(p[..|p| - 1]); }
  }

  lemma {:induction false} LossSumConcat(a: seq<Event>, b: seq<Event>)
    ensures LossSum(a + b) == LossSum(a) + LossSum(b)
  {
    if b == [] {
      assert a + b == a;
    } else {
      assert (a + b)[..|a + b| - 1] == a + b[..|b| - 1];
      LossSumConcat(a, b[..|b| - 1]);
    }
  }

  lemma {:induction false} PendingCount(lim: Limits, p: seq<Event>, covered: seq<Event>)
    requires QueueOk(lim, p, covered)
    ensures LossSum(p) == |covered|
  {
    var k := MarkerIndex(p);
    if k == |p| {
      NoLoss(p);
    } else {
      var a, x, b := p[..k], [p[k]], p[k + 1..];
      assert p == a + (x + b);
      LossSumConcat(a, x + b);
      LossSumConcat(x, b);
      NoLoss(a);
      NoLoss(b);
      assert x[..0] == [];
    }
  }

  /** Offered = plain delivered + plain pending + the counts of all markers delivered or pending. */
  lemma {:induction false} CountsBalance(lim: Limits, s: Sub)
    requires SubInv(lim, s) && s.Open()
    ensures |s.history.offered| ==
            |PlainDelivered(s.history.delivered)| + |Plain(s.pending)|
            + LossSum(EventsOf(s.history.delivered)) + LossSum(s.pending)
  {
    DeliveredCount(s.history.delivered);
    PendingCount(lim, s.pending, s.history.covered);
    assert |multiset(s.history.offered)| == |s.history.offered|;
    assert |multiset(Plain(s.pending))| == |Plain(s.pending)|;
    assert |multiset(s.history.covered)| == |s.history.covered|;
  }

  /** Of events with ascending numbers, no two in a sub-multiset share a number. */
  lemma {:induction false} DistinctNumbers(o: seq<Event>, c: seq<Event>)
    requires Ascending(o) && multiset(c) <= multiset(o)
    ensures forall i, j :: 0 <= i < j < |c| ==> c[i].sequence != c[j].sequence
  {
    forall i, j | 0 <= i < j < |c| ensures c[i].sequence != c[j].sequence {
      assert c[i] in multiset(o) && c[j] in multiset(o);
      var a :| 0 <= a < |o| && o[a] == c[i];
      var b :| 0 <= b < |o| && o[b] == c[j];
      OnceIn(o, a);
      assert multiset(c)[c[i]] <= multiset(o)[c[i]];
      TwiceIn(c, i, j);
    }
  }

  lemma {:induction false} TwiceIn(c: seq<Event>, i: nat, j: nat)
    requires i < j < |c|
    ensures c[i] == c[j] ==> 2 <= multiset(c)[c[i]]
  {
    assert c == c[..i] + [c[i]] + c[i + 1..];
    assert c[j] in c[i + 1..];
    assert multiset(c) == multiset(c[..i]) + multiset{c[i]} + multiset(c[i + 1..]);
  }

  lemma {:induction false} OnceIn(o: seq<Event>, a: nat)
    requires Ascending(o) && a < |o|
    ensures multiset(o)[o[a]] == 1
  {
    assert o == o[..a] + [o[a]] + o[a + 1..];
    assert multiset(o) == multiset(o[..a]) + multiset{o[a]} + multiset(o[a + 1..]);
    assert o[a] !in o[..a] && o[a] !in o[a + 1..];
  }

  /** A marker never reports more events than its range of numbers holds. */
  lemma {:induction false} ReportSpan(m: Event, c: seq<Event>, o: seq<Event>)
    requires Reports(m, c) && Ascending(o) && multiset(c) <= multiset(o)
    ensures m.body.payload.count <= m.body.payload.last - m.body.payload.first + 1
  {
    DistinctNumbers(o, c);
    var numbers := seq(|c|, i requires 0 <= i < |c| => c[i].sequence);
    forall i | 0 <= i < |c| ensures m.body.payload.first <= numbers[i] <= m.body.payload.last {
      assert c[i] in c;
    }
    PigeonHole(numbers, m.body.payload.first, m.body.payload.last);
  }

  lemma {:induction false} CoversStand(ds: seq<Delivery>, k: nat)
    requires k < |ds| && ds[k].event.IsMarker()
    ensures multiset(ds[k].covers) <= StandingAll(ds)
  {
    if k < |ds| - 1 {
      CoversStand(ds[..|ds| - 1], k);
    }
  }

  lemma {:induction false} DeliveredStand(lim: Limits, s: Sub, d: Delivery)
    requires SubInv(lim, s) && d in s.history.delivered && d.event.IsMarker()
    ensures Reports(d.event, d.covers) && multiset(d.covers) <= multiset(s.history.offered)
  {
    var k :| 0 <= k < |s.history.delivered| && s.history.delivered[k] == d;
    assert DeliveryReports(d);
    CoversStand(s.history.delivered, k);
  }

  lemma {:induction false} PendingReports(lim: Limits, s: Sub, m: Event)
    requires SubInv(lim, s) && m in s.pending && m.IsMarker()
    ensures Reports(m, s.history.covered) && multiset(s.history.covered) <= multiset(s.history.offered)
  {
    assert m == s.pending[MarkerIndex(s.pending)];
  }

  /** Every marker, delivered or pending, spans at least as many numbers as it counts. */
  lemma {:induction false} MarkersSpan(lim: Limits, s: Sub, m: Event)
    requires SubInv(lim, s) && m.IsMarker()
    requires m in s.pending || exists d :: d in s.history.delivered && d.event == m
    ensures m.body.payload.LossPayload?
    ensures 1 <= m.body.payload.count <= m.body.payload.last - m.body.payload.first + 1
  {
    if d :| d in s.history.delivered && d.event == m {
      DeliveredStand(lim, s, d);
      ReportSpan(m, d.covers, s.history.offered);
    } else {
      PendingReports(lim, s, m);
      ReportSpan(m, s.history.covered, s.history.offered);
    }
  }

  // ----- The queue as an object -----

  class Queue {
    const limits: Limits
    var pending: seq<Event>
    var pendingBytes: nat
    var active: nat
    var closing: bool
    var closed: bool
    ghost var history: History

    constructor (limits: Limits)
      ensures View() == Fresh() && Valid() && this.limits == limits
    {
      this.limits := limits;
      pending, pendingBytes, active, closing, closed := [], 0, 0, false, false;
      history := History([], [], []);
      new;
      NoMarkerIndex([]);
    }

    ghost function View(): Sub
      reads this
    {
      Sub(pending, active, closing, closed, history)
    }

    ghost predicate Valid()
      reads this
    {
      pendingBytes == TotalBytes(pending) && MarkersCarryLoss(pending) &&
      (View().Open() ==> QueueOk(limits, pending, history.covered))
    }

    method Remove(i: nat)
      requires i < |pending| && pendingBytes == TotalBytes(pending)
      modifies `pending, `pendingBytes
      ensures pending == Without(old(pending), i)
      ensures pendingBytes == TotalBytes(pending) <= old(pendingBytes)
    {
      SplitBytes(pending, i);
      TotalBytesConcat(pending[..i], pending[i + 1..]);
      pendingBytes := pendingBytes - EventBytes(pending[i]);
      pending := Without(pending, i);
    }

    /** The eviction loop of `enqueue`, with its byte arithmetic on unsigned numbers. */
    method DropUntilFits(e: Event, marked: bool) returns (room: bool, dropped: seq<Event>)
      requires pendingBytes == TotalBytes(pending) <= limits.maxBytes && EventBytes(e) <= limits.maxBytes
      modifies `pending, `pendingBytes
      ensures pendingBytes == TotalBytes(pending)
      ensures room ==> MakeRoom(limits, old(pending), e, marked, []) == Some(Room(pending, dropped))
      ensures !room ==> MakeRoom(limits, old(pending), e, marked, []) == None
    {
      dropped := [];
      while true
        invariant pendingBytes == TotalBytes(pending) <= limits.maxBytes
        invariant MakeRoom(limits, old(pending), e, marked, []) == MakeRoom(limits, pending, e, marked, dropped)
        decreases |pending|
      {
        var due := !marked && dropped != [];
        var reserved := if due then MARKER_BYTES else 0;
        var tooMany := |pending| + 1 + (if due then 1 else 0) > limits.maxEvents;
        var tooBig := EventBytes(e) > limits.maxBytes - pendingBytes ||
                      reserved > limits.maxBytes - pendingBytes - EventBytes(e);
        if !tooMany && !tooBig {
          return true, dropped;
        }
        var i := Candidate(pending, e);
        if i == |pending| {
          return false, dropped;
        }
        dropped := dropped + [pending[i]];
        Remove(i);
      }
    }

    method Clear()
      modifies `pending, `pendingBytes, `closed
      ensures pending == [] && pendingBytes == 0 && closed
    {
      pending, pendingBytes, closed := [], 0, true;
    }

    /** Extends the marker by the dropped events and puts it in its place. */
    method InsertMarker(dropped: seq<Event>, existing: Option<Event>)
      requires dropped != [] && LossCarrying(existing) && pendingBytes == TotalBytes(pending)
      requires MarkersCarryLoss(pending)
      modifies `pending, `pendingBytes
      ensures pending == PlaceMarker(old(pending), MarkAll(dropped, existing).value)
      ensures pendingBytes == TotalBytes(pending)
    {
      var marker := existing;
      for k := 0 to |dropped|
        invariant LossCarrying(marker) && marker == MarkAll(dropped[..k], existing)
      {
        assert dropped[..k + 1][..k] == dropped[..k];
        marker := Some(Mark(dropped[k], marker));
      }
      assert dropped[..|dropped|] == dropped;
      PlaceBytes(pending, marker.value);
      var i := MarkerIndex(pending);
      if i < |pending| {
        SplitBytes(pending, i);
        pendingBytes := pendingBytes - EventBytes(pending[i]) + EventBytes(marker.value);
        pending := pending[i := marker.value];
      } else {
        pending := pending + [marker.value];
        pendingBytes := pendingBytes + EventBytes(marker.value);
      }
    }

    /** `enqueue` up to its last capacity check. */
    method AdmitNext(e: Event) returns (room: bool, dropped: seq<Event>)
      requires pendingBytes == TotalBytes(pending) <= limits.maxBytes && MarkersCarryLoss(pending)
      modifies `pending, `pendingBytes
      ensures room ==> pendingBytes == TotalBytes(pending)
      ensures Admit(limits, old(pending), e) == if room then Some(Room(pending, dropped)) else None
    {
      if limits.maxBytes < EventBytes(e) {
        return false, [];
      }
      var marker := QueuedMarker(pending);
      ghost var before := pending;
      room, dropped := DropUntilFits(e, marker.Some?);
      if room && dropped != [] {
        ThinnedSelf(before);
        MakeRoomThins(limits, before, before, e, marker.Some?, []);
        InsertMarker(dropped, marker);
      }
    }

    method Offer(e: Event)
      requires Valid() && !e.IsMarker()
      modifies this
      ensures View() == Enqueue(limits, old(View()), e) && Valid()
    {
      if closing || closed {
        return;
      }
      EnqueueQueueOk(limits, View(), e);
      OfferOpen(e);
    }

    /** `enqueue` for a subscription that is still open. */
    method OfferOpen(e: Event)
      requires !closing && !closed && pendingBytes == TotalBytes(pending) <= limits.maxBytes
      requires MarkersCarryLoss(pending)
      modifies `pending, `pendingBytes, `closed, `history
      ensures View() == Enqueue(limits, old(View()), e) && pendingBytes == TotalBytes(pending)
    {
      var room, dropped := AdmitNext(e);
      if !room || |pending| >= limits.maxEvents || pendingBytes > limits.maxBytes - EventBytes(e) {
        Clear();
        return;
      }
      Push(e);
      history := history.(offered := history.offered + [e], covered := history.covered + dropped);
    }

    method Push(e: Event)
      requires pendingBytes == TotalBytes(pending)
      modifies `pending, `pendingBytes
      ensures pending == old(pending) + [e] && pendingBytes == TotalBytes(pending)
    {
      pending := pending + [e];
      pendingBytes := pendingBytes + EventBytes(e);
      assert pending[..|pending| - 1] == old(pending);
    }

    /** The locked part of `deliverNext` before the callback. */
    method Take() returns (status: Code, event: Option<Event>)
      requires Valid()
      modifies this
      ensures status.Success? <==> CanDeliver(old(View()))
      ensures status.Success? ==> event == Some(old(pending)[0]) && View() == BeginDelivery(old(View()))
      ensures !status.Success? ==> event == None && View() == old(View())
      ensures Valid()
    {
      if closing || closed {
        return Unavailable, None;
      }
      if pending == [] {
        return NotFound, None;
      }
      DeliveryQueueOk(limits, View());
      TotalBytesHead(pending);
      var e := pending[0];
      pending := pending[1..];
      pendingBytes := pendingBytes - EventBytes(e);
      active := active + 1;
      history := if e.IsMarker() then
                   history.(delivered := history.delivered + [Delivery(e, history.covered)], covered := [])
                 else history.(delivered := history.delivered + [Delivery(e, [])]);
      status, event := Success, Some(e);
    }
  }
}
