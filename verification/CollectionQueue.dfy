/** The collection runtime: a bounded priority queue of provider reads in which no two tasks share
    a key, with eviction, coalesced fresh reads, one worker and shutdown. */
module CollectionQueue {
  import opened Base
  import opened Domain
  import opened KeyOrder
  import opened Watch

  /** A fresh read is identified by the catalog generation and its sorted keys. */
  datatype Signature = Signature(generation: uint64, keys: seq<DataKey>)

  /** A task; `serial` stands for its address.  Fresh reads, and only they, have a completion that
      callers wait on. */
  datatype Task = Task(
    serial: nat, jobId: uint64, keys: seq<DataKey>, priority: Priority, signature: Option<Signature>,
    scheduled: int, deadline: int)

  /** The one worker: between its two critical sections it holds a task, and after the second it
      still has to signal its completion. */
  datatype Worker = Idle | Reading(task: Task) | Reporting(task: Task, status: Code)

  /** A call of `setCompletion`. */
  datatype Settled = Settled(task: Task, status: Code)

  datatype Limits = Limits(maxQueue: positive, maxWaiters: positive, maxBatch: positive)

  /** What fresh reads may ask for. */
  datatype Route = Route(generation: uint64, entity: Option<EntityRef>, metrics: set<uint32>)

  datatype State = State(
    limits: Limits,
    route: Route,
    queue: seq<Task>,
    worker: Worker,
    busy: set<DataKey>,
    registered: map<Signature, Task>,
    stopped: bool,
    cancelled: seq<Task>,
    waiters: multiset<nat>,
    accepted: seq<Task>,
    settled: seq<Settled>)

  datatype EnqueueResult = Accepted | Busy | Full | Stopped

  function Initial(limits: Limits): State {
    State(limits, Route(0, None, {}), [], Idle, {}, map[], false, [], multiset{}, [], [])
  }

  // ----- Steps -----

  function KeySet(t: Task): set<DataKey> { set k | k in t.keys }

  /** Whether a weak reference to `t` can still be locked. */
  predicate Owned(s: State, t: Task) {
    t in s.queue || (!s.worker.Idle? && s.worker.task == t) || t in s.cancelled
  }

  /** `releaseTaskLocked`. */
  function Release(s: State, t: Task): State {
    s.(busy := s.busy - KeySet(t),
       registered := if t.signature.Some? && t.signature.value in s.registered
                   && (!Owned(s, s.registered[t.signature.value]) || s.registered[t.signature.value] == t)
                then s.registered - {t.signature.value} else s.registered)
  }

  function Settle(s: State, t: Task, status: Code): State {
    s.(settled := s.settled + [Settled(t, status)])
  }

  /** The first position whose task has a lower priority. */
  function Position(q: seq<Task>, p: Priority): (i: nat)
    ensures i <= |q| && (i < |q| ==> Rank(q[i].priority) < Rank(p))
    ensures forall j :: 0 <= j < i ==> Rank(p) <= Rank(q[j].priority)
  {
    if q == [] || Rank(q[0].priority) < Rank(p) then 0
    else
      var i := 1 + Position(q[1..], p);
      assert forall j :: 0 < j < i ==> q[j] == q[1..][j - 1];
      i
  }

  function Insert(q: seq<Task>, t: Task): seq<Task> {
    var i := Position(q, t.priority);
    q[..i] + [t] + q[i..]
  }

  function Evict(s: State): State
    requires s.queue != []
  {
    var n := |s.queue| - 1;
    var e := s.queue[n];
    Settle(Release(s.(queue := s.queue[..n]), e), e, ResourceExhausted)
  }

  predicate Overlaps(s: State, t: Task) {
    exists k :: k in t.keys && k in s.busy
  }

  predicate Crowded(s: State, t: Task) {
    |s.queue| == s.limits.maxQueue && Rank(t.priority) <= Rank(s.queue[|s.queue| - 1].priority)
  }

  function Verdict(s: State, t: Task): EnqueueResult {
    if s.stopped then Stopped else if Overlaps(s, t) then Busy else if Crowded(s, t) then Full else Accepted
  }

  function Room(s: State): State {
    if |s.queue| == s.limits.maxQueue then Evict(s) else s
  }

  function Admit(s: State, t: Task): State {
    s.(queue := Insert(s.queue, t), busy := s.busy + KeySet(t),
       registered := if t.signature.Some? then s.registered[t.signature.value := t] else s.registered,
       accepted := s.accepted + [t])
  }

  /** `enqueueLocked`. */
  function Enqueue(s: State, t: Task): State {
    if Verdict(s, t).Accepted? then Admit(Room(s), t) else s
  }

  function Take(s: State): State {
    if s.worker.Idle? && s.queue != [] then s.(worker := Reading(s.queue[0]), queue := s.queue[1..]) else s
  }

  function Finish(s: State, status: Code): State {
    if s.worker.Reading? then Release(s, s.worker.task).(worker := Reporting(s.worker.task, status)) else s
  }

  function Report(s: State): State {
    if s.worker.Reporting? then Settle(s, s.worker.task, s.worker.status).(worker := Idle) else s
  }

  /** One turn of the loop of `shutdownAll`. */
  function Cancel(s: State): State
    requires s.queue != []
  {
    Release(s.(queue := s.queue[1..], cancelled := s.cancelled + [s.queue[0]]), s.queue[0])
  }

  function CancelAll(s: State): State
    decreases |s.queue|
  {
    if s.queue == [] then s else CancelAll(Cancel(s))
  }

  function Stop(s: State): State { CancelAll(s.(stopped := true)) }

  function ReportCancelled(s: State): State {
    if s.cancelled == [] then s else Settle(s, s.cancelled[0], NotInitialized).(cancelled := s.cancelled[1..])
  }

  // ----- Fresh reads -----

  datatype Read = Read(keys: seq<DataKey>, generation: uint64, deadline: int, now: int, requestId: uint64,
                       described: set<uint32>)

  /** A read is refused, or waits for the completion of the read with that serial. */
  datatype ReadResult = Refused(status: Code) | Waiting(serial: nat)

  /** The checks made before the lock is taken. */
  function CheckRead(limits: Limits, r: Read): Code {
    if r.keys == [] || r.generation == 0 then InvalidArgument
    else if |r.keys| > limits.maxBatch then ResourceExhausted
    else if r.deadline <= r.now then Timeout
    else if EqualNeighbours(SortKeys(r.keys)) then InvalidArgument
    else Success
  }

  predicate Supported(s: State, r: Read, k: DataKey) {
    Some(k.entity) == s.route.entity && k.metric in s.route.metrics && k.metric in r.described
  }

  function CheckRoute(s: State, r: Read): Code {
    if s.stopped then NotInitialized
    else if r.generation != s.route.generation || s.route.entity.None? then StaleGeneration
    else if exists k :: k in r.keys && !Supported(s, r, k) then Code.Unsupported
    else if |s.waiters| == s.limits.maxWaiters then ResourceExhausted
    else Success
  }

  function SignatureOf(r: Read): Signature { Signature(r.generation, SortKeys(r.keys)) }

  function FreshTask(s: State, r: Read): Task {
    Task(|s.accepted|, 0, SortKeys(r.keys), Priority.Normal, Some(SignatureOf(r)), r.now, r.deadline)
  }

  function Forget(s: State, g: Signature): State { s.(registered := s.registered - {g}) }

  function Wait(s: State, serial: nat): State { s.(waiters := s.waiters + multiset{serial}) }

  /** The part of `freshRead` that starts a new task. */
  function StartRead(s: State, r: Read): (State, ReadResult) {
    var t := FreshTask(s, r);
    if r.requestId == 0 || !Verdict(s, t).Accepted? then (s, Refused(ResourceExhausted))
    else (Wait(Enqueue(s, t), t.serial), Waiting(t.serial))
  }

  /** The critical section of `freshRead`, after the checks. */
  function JoinOrStart(s: State, r: Read): (State, ReadResult) {
    var g := SignatureOf(r);
    if g !in s.registered then StartRead(s, r)
    else if !Owned(s, s.registered[g]) then StartRead(Forget(s, g), r)
    else if r.deadline <= s.registered[g].deadline then
      (Wait(s, s.registered[g].serial), Waiting(s.registered[g].serial))
    else (s, Refused(ResourceExhausted))
  }

  function FreshRead(s: State, r: Read): (State, ReadResult) {
    if !CheckRead(s.limits, r).Success? then (s, Refused(CheckRead(s.limits, r)))
    else if !CheckRoute(s, r).Success? then (s, Refused(CheckRoute(s, r)))
    else JoinOrStart(s, r)
  }

  /** A waiter gives up or has its answer. */
  function Leave(s: State, serial: nat): State { s.(waiters := s.waiters - multiset{serial}) }

  lemma {:induction false} OneFewer(w: multiset<nat>, n: nat)
    requires n in w
    ensures |w - multiset{n}| == |w| - 1
  {
    assert w == w - multiset{n} + multiset{n};
  }

  // ----- Invariants -----

  ghost function Live(s: State): set<Task> {
    (set t | t in s.queue) + if s.worker.Reading? then {s.worker.task} else {}
  }

  /** No two live tasks share a key, and the busy keys are theirs. */
  ghost predicate KeysInv(live: set<Task>, busy: set<DataKey>) {
    && (forall t, u, k :: t in live && u in live && k in t.keys && k in u.keys ==> t == u)
    && (forall t, k :: t in live && k in t.keys ==> k in busy)
    && (forall k :: k in busy ==> exists t :: t in live && k in t.keys)
  }

  /** The registered fresh reads are exactly the live ones. */
  ghost predicate FreshInv(live: set<Task>, registered: map<Signature, Task>) {
    && (forall g :: g in registered ==> registered[g] in live && registered[g].signature == Some(g))
    && (forall t :: t in live && t.signature.Some? ==>
                      t.signature.value in registered && registered[t.signature.value] == t)
  }

  /** Higher priority, or older at equal priority. */
  ghost predicate Before(a: Task, b: Task) {
    Rank(a.priority) > Rank(b.priority) || (a.priority == b.priority && a.serial < b.serial)
  }

  ghost predicate Ordered(q: seq<Task>) {
    forall i, j :: 0 <= i < j < |q| ==> Before(q[i], q[j])
  }

  ghost function HeldBy(w: Worker): multiset<Task> { if w.Idle? then multiset{} else multiset{w.task} }

  function Tasks(h: seq<Settled>): seq<Task> { seq(|h|, i requires 0 <= i < |h| => h[i].task) }

  /** Every accepted task is in exactly one place: queued, with the worker, cancelled and waiting
      to be settled, or settled. */
  ghost predicate Accounted(s: State) {
    && (forall i :: 0 <= i < |s.accepted| ==> s.accepted[i].serial == i)
    && multiset(s.accepted) ==
         multiset(s.queue) + HeldBy(s.worker) + multiset(s.cancelled) + multiset(Tasks(s.settled))
  }

  ghost predicate WaitersInv(s: State) {
    && |s.waiters| <= s.limits.maxWaiters
    && forall n :: n in s.waiters ==> n < |s.accepted| && s.accepted[n].signature.Some?
  }

  ghost predicate Core(s: State) {
    && KeysInv(Live(s), s.busy) && FreshInv(Live(s), s.registered)
    && Ordered(s.queue) && |s.queue| <= s.limits.maxQueue
    && Accounted(s) && WaitersInv(s)
  }

  /** Once stopped the queue stays empty. */
  ghost predicate Inv(s: State) {
    Core(s) && (s.stopped ==> s.queue == [])
  }

  // ----- Accounting -----

  lemma {:induction false} SerialsAreUnique(a: seq<Task>, t: Task)
    requires forall i :: 0 <= i < |a| ==> a[i].serial == i
    ensures multiset(a)[t] <= 1 && (t in multiset(a) ==> t.serial < |a| && a[t.serial] == t)
  {
    if a != [] {
      var n := |a| - 1;
      assert a == a[..n] + [a[n]];
      SerialsAreUnique(a[..n], t);
      if t == a[n] {
        assert t !in multiset(a[..n]);
      }
    }
  }

  /** A task that is somewhere is nowhere else. */
  lemma {:induction false} OnePlace(s: State, t: Task)
    requires Accounted(s)
    ensures multiset(s.queue)[t] + HeldBy(s.worker)[t] + multiset(s.cancelled)[t] + multiset(Tasks(s.settled))[t] <= 1
    ensures t in s.queue || t in HeldBy(s.worker) || t in s.cancelled || t in Tasks(s.settled) ==>
              t.serial < |s.accepted| && s.accepted[t.serial] == t
  {
    SerialsAreUnique(s.accepted, t);
    assert t in s.queue ==> t in multiset(s.queue);
    assert t in s.cancelled ==> t in multiset(s.cancelled);
    assert t in Tasks(s.settled) ==> t in multiset(Tasks(s.settled));
  }

  lemma {:induction false} SettleTasks(h: seq<Settled>, e: Settled)
    ensures Tasks(h + [e]) == Tasks(h) + [e.task]
  {}

  // ----- Each step keeps the invariant -----

  lemma {:induction false} RemoveLive(live: set<Task>, busy: set<DataKey>, registered: map<Signature, Task>, t: Task)
    requires KeysInv(live, busy) && FreshInv(live, registered) && t in live
    ensures KeysInv(live - {t}, busy - KeySet(t))
    ensures FreshInv(live - {t}, if t.signature.Some? then registered - {t.signature.value} else registered)
  {
    forall k | k in busy - KeySet(t) ensures exists u :: u in live - {t} && k in u.keys {
      var u :| u in live && k in u.keys;
      assert u in live - {t};
    }
  }

  lemma {:induction false} AddLive(live: set<Task>, busy: set<DataKey>, registered: map<Signature, Task>, t: Task)
    requires KeysInv(live, busy) && FreshInv(live, registered)
    requires forall k :: k in t.keys ==> k !in busy
    requires t.signature.Some? ==> t.signature.value !in registered
    ensures KeysInv(live + {t}, busy + KeySet(t))
    ensures FreshInv(live + {t}, if t.signature.Some? then registered[t.signature.value := t] else registered)
  {
    forall k | k in busy + KeySet(t) ensures exists u :: u in live + {t} && k in u.keys {
      if k in busy {
        var u :| u in live && k in u.keys;
        assert u in live + {t};
      } else {
        assert t in live + {t};
      }
    }
  }

  /** Releasing a live task forgets exactly its keys and its registration. */
  lemma {:induction false} ReleaseIs(s: State, before: State, t: Task)
    requires FreshInv(Live(before), before.registered) && t in Live(before)
    requires s.registered == before.registered && s.busy == before.busy
    ensures Release(s, t) == s.(busy := s.busy - KeySet(t),
                                registered := if t.signature.Some? then s.registered - {t.signature.value}
                                              else s.registered)
  {}

  lemma {:induction false} LastAlone(s: State, n: nat)
    requires Accounted(s) && n + 1 == |s.queue|
    ensures s.queue[n] !in s.queue[..n] && s.queue[n] !in HeldBy(s.worker)
    ensures multiset(s.queue) == multiset(s.queue[..n]) + multiset{s.queue[n]}
  {
    assert s.queue == s.queue[..n] + [s.queue[n]];
    assert s.queue[n] in s.queue[..n] ==> s.queue[n] in multiset(s.queue[..n]);
    OnePlace(s, s.queue[n]);
  }

  lemma {:induction false} FirstAlone(s: State)
    requires Accounted(s) && s.queue != []
    ensures s.queue[0] !in s.queue[1..] && s.queue[0] !in HeldBy(s.worker)
    ensures multiset(s.queue) == multiset(s.queue[1..]) + multiset{s.queue[0]}
  {
    assert s.queue == [s.queue[0]] + s.queue[1..];
    assert s.queue[0] in s.queue[1..] ==> s.queue[0] in multiset(s.queue[1..]);
    OnePlace(s, s.queue[0]);
  }

  /** What evicting does to the state. */
  lemma {:induction false} EvictLive(s: State, n: nat, e: Task)
    requires n + 1 == |s.queue| && e == s.queue[n] && e !in s.queue[..n]
    requires e !in HeldBy(s.worker)
    ensures Live(Evict(s)) == Live(s) - {e} && e in Live(s)
  {
    assert s.queue == s.queue[..n] + [e];
  }

  lemma {:induction false} EvictIs(s: State, n: nat, e: Task)
    requires Core(s) && n + 1 == |s.queue| && e == s.queue[n]
    ensures Evict(s) == s.(queue := s.queue[..n], busy := s.busy - KeySet(e),
                           registered := if e.signature.Some? then s.registered - {e.signature.value} else s.registered,
                           settled := s.settled + [Settled(e, ResourceExhausted)])
    ensures Live(Evict(s)) == Live(s) - {e} && e in Live(s)
  {
    LastAlone(s, n);
    ReleaseIs(s.(queue := s.queue[..n]), s, e);
    EvictLive(s, n, e);
  }

  lemma {:induction false} EvictAccounted(s: State, n: nat, d: State)
    requires Accounted(s) && n + 1 == |s.queue| && d.queue == s.queue[..n] && d.worker == s.worker
    requires d.cancelled == s.cancelled && d.accepted == s.accepted
    requires d.settled == s.settled + [Settled(s.queue[n], ResourceExhausted)]
    ensures Accounted(d)
  {
    LastAlone(s, n);
    SettleTasks(s.settled, Settled(s.queue[n], ResourceExhausted));
  }

  lemma {:induction false} EvictKeeps(s: State)
    requires Core(s) && s.queue != []
    ensures Core(Evict(s)) && Live(Evict(s)) == Live(s) - {s.queue[|s.queue| - 1]}
  {
    var n := |s.queue| - 1;
    EvictIs(s, n, s.queue[n]);
    RemoveLive(Live(s), s.busy, s.registered, s.queue[n]);
    EvictAccounted(s, n, Evict(s));
  }

  lemma {:induction false} InsertHolds(q: seq<Task>, t: Task)
    ensures multiset(Insert(q, t)) == multiset(q) + multiset{t}
    ensures |Insert(q, t)| == |q| + 1 && forall u :: u in Insert(q, t) <==> u in q || u == t
  {
    var i := Position(q, t.priority);
    assert q == q[..i] + q[i..];
  }

  lemma {:induction false} InsertAtOrdered(q: seq<Task>, t: Task, i: nat, r: seq<Task>)
    requires Ordered(q) && i <= |q| && r == q[..i] + [t] + q[i..]
    requires forall a :: 0 <= a < i ==> Before(q[a], t)
    requires forall a :: i <= a < |q| ==> Before(t, q[a])
    ensures Ordered(r)
  {
    forall a, b | 0 <= a < b < |r| ensures Before(r[a], r[b]) {
      assert a != i ==> r[a] == q[if a < i then a else a - 1];
      assert b != i ==> r[b] == q[if b < i then b else b - 1];
    }
  }

  lemma {:induction false} InsertOrdered(q: seq<Task>, t: Task)
    requires Ordered(q) && forall i :: 0 <= i < |q| ==> q[i].serial < t.serial
    ensures Ordered(Insert(q, t))
  {
    var i := Position(q, t.priority);
    forall a | i <= a < |q| ensures Before(t, q[a]) {
      assert i < a ==> Before(q[i], q[a]);
    }
    forall a | 0 <= a < i ensures Before(q[a], t) {
      assert Rank(t.priority) == Rank(q[a].priority) ==> t.priority == q[a].priority;
    }
    InsertAtOrdered(q, t, i, Insert(q, t));
  }

  lemma {:induction false} AdmitAccounted(s: State, t: Task, d: State)
    requires Accounted(s) && t.serial == |s.accepted| && d == Admit(s, t)
    ensures Accounted(d)
  {
    InsertHolds(s.queue, t);
  }

  lemma {:induction false} AdmitOrdered(s: State, t: Task)
    requires Ordered(s.queue) && Accounted(s) && t.serial == |s.accepted|
    ensures Ordered(Insert(s.queue, t))
  {
    forall i | 0 <= i < |s.queue| ensures s.queue[i].serial < t.serial {
      OnePlace(s, s.queue[i]);
    }
    InsertOrdered(s.queue, t);
  }

  lemma {:induction false} AdmitLive(s: State, t: Task)
    ensures Live(Admit(s, t)) == Live(s) + {t} && |Admit(s, t).queue| == |s.queue| + 1
  {
    InsertHolds(s.queue, t);
  }

  lemma {:induction false} AdmitKeeps(s: State, t: Task)
    requires Core(s) && |s.queue| < s.limits.maxQueue && t.serial == |s.accepted|
    requires forall k :: k in t.keys ==> k !in s.busy
    requires t.signature.Some? ==> t.signature.value !in s.registered
    ensures Core(Admit(s, t)) && Live(Admit(s, t)) == Live(s) + {t}
  {
    AdmitLive(s, t);
    AdmitOrdered(s, t);
    AdmitAccounted(s, t, Admit(s, t));
    AddLive(Live(s), s.busy, s.registered, t);
  }

  /** A task offered to the queue: a new object, and a fresh read not yet registered. */
  ghost predicate New(s: State, t: Task) {
    t.serial == |s.accepted| && (t.signature.Some? ==> t.signature.value !in s.registered)
  }

  lemma {:induction false} EnqueueKeeps(s: State, t: Task)
    requires Inv(s) && New(s, t)
    ensures Inv(Enqueue(s, t))
    ensures Verdict(s, t).Accepted? ==> Live(Enqueue(s, t)) == Live(Room(s)) + {t}
  {
    if Verdict(s, t).Accepted? {
      if |s.queue| == s.limits.maxQueue {
        EvictKeeps(s);
      }
      AdmitKeeps(Room(s), t);
    }
  }

  lemma {:induction false} EnqueueEvicting(s: State, t: Task, n: nat)
    requires |s.queue| == n + 1
    ensures Verdict(s, t).Accepted? && |s.queue| == s.limits.maxQueue ==>
              && Enqueue(s, t).queue == Insert(s.queue[..n], t)
              && Enqueue(s, t).settled == s.settled + [Settled(s.queue[n], ResourceExhausted)]
    ensures Verdict(s, t).Accepted? && |s.queue| != s.limits.maxQueue ==> Enqueue(s, t).queue == Insert(s.queue, t)
  {}

  lemma {:induction false} OnlyTheLastLeaves(q: seq<Task>, n: nat, r: seq<Task>, u: Task)
    requires Ordered(q) && |q| == n + 1 && u in q && u !in r && forall v :: v in q[..n] ==> v in r
    ensures u == q[n] && forall v :: v in q && v != u ==> v in r && Before(v, u)
  {
    forall v | v in q && v != q[n] ensures v in q[..n] && Before(v, q[n]) {
      var i :| 0 <= i < |q| && q[i] == v;
      assert q[..n][i] == v;
    }
  }

  /** A task is evicted only for one of higher priority, and then it is the newest of the lowest
      priority; nothing else leaves the queue. */
  lemma {:induction false} EvictionIsJust(s: State, t: Task, u: Task)
    requires Ordered(s.queue) && u in s.queue && u !in Enqueue(s, t).queue
    ensures |s.queue| == s.limits.maxQueue && Rank(u.priority) < Rank(t.priority)
    ensures forall v :: v in s.queue && v != u ==> v in Enqueue(s, t).queue && Before(v, u)
    ensures Settled(u, ResourceExhausted) in Enqueue(s, t).settled
  {
    var n := |s.queue| - 1;
    InsertHolds(s.queue, t);
    InsertHolds(s.queue[..n], t);
    EnqueueEvicting(s, t, n);
    OnlyTheLastLeaves(s.queue, n, Enqueue(s, t).queue, u);
  }

  /** A step after which the same tasks are live keeps what is said about their keys and registrations. */
  lemma {:induction false} SameLiveKeeps(s: State, t: State)
    requires Core(s) && Live(t) == Live(s) && t.busy == s.busy && t.registered == s.registered
    requires t.limits == s.limits && Ordered(t.queue) && |t.queue| <= |s.queue| && Accounted(t) && WaitersInv(t)
    ensures Core(t)
  {}

  lemma {:induction false} TakeAccounted(s: State)
    requires Accounted(s) && s.worker.Idle? && s.queue != []
    ensures Accounted(Take(s)) && Live(Take(s)) == Live(s)
  {
    assert s.queue == [s.queue[0]] + s.queue[1..];
  }

  lemma {:induction false} TakeKeeps(s: State)
    requires Inv(s)
    ensures Inv(Next(s, Dequeue))
  {
    if s.worker.Idle? && s.queue != [] {
      TakeAccounted(s);
      SameLiveKeeps(s, Take(s));
    }
  }

  /** What finishing the worker's task does to the state. */
  lemma {:induction false} FinishIs(s: State, status: Code)
    requires Inv(s) && s.worker.Reading?
    ensures var t := s.worker.task;
            Finish(s, status) ==
            s.(busy := s.busy - KeySet(t), worker := Reporting(t, status),
               registered := if t.signature.Some? then s.registered - {t.signature.value} else s.registered)
  {
    assert s.worker.task in s.queue <==> s.worker.task in multiset(s.queue);
    OnePlace(s, s.worker.task);
    ReleaseIs(s, s, s.worker.task);
  }

  lemma {:induction false} FinishLive(s: State, status: Code)
    requires Accounted(s) && s.worker.Reading?
    ensures s.worker.task in Live(s) && Live(Finish(s, status)) == Live(s) - {s.worker.task}
  {
    assert s.worker.task in s.queue <==> s.worker.task in multiset(s.queue);
    OnePlace(s, s.worker.task);
    assert Live(Finish(s, status)) == Live(s) - {s.worker.task};
  }

  lemma {:induction false} CompleteKeeps(s: State, status: Code)
    requires Inv(s)
    ensures Inv(Next(s, Complete(status)))
  {
    if s.worker.Reading? {
      FinishIs(s, status);
      FinishLive(s, status);
      RemoveLive(Live(s), s.busy, s.registered, s.worker.task);
    }
  }

  /** Finishing frees the keys of what the worker has read: exactly that task is no longer live. */
  lemma {:induction false} FinishKeeps(s: State, status: Code)
    requires Inv(s)
    ensures Inv(Finish(s, status))
    ensures s.worker.Reading? ==>
              && s.worker.task in Live(s) && Live(Finish(s, status)) == Live(s) - {s.worker.task}
              && Finish(s, status).worker == Reporting(s.worker.task, status) && Finish(s, status).queue == s.queue
  {
    CompleteKeeps(s, status);
    if s.worker.Reading? {
      FinishLive(s, status);
    }
  }

  lemma {:induction false} ReportKeeps(s: State)
    requires Inv(s)
    ensures Inv(Next(s, Announce))
  {
    if s.worker.Reporting? {
      SettleTasks(s.settled, Settled(s.worker.task, s.worker.status));
      assert Live(Report(s)) == Live(s);
      SameLiveKeeps(s, Report(s));
    }
  }

  /** What cancelling the first task does to the state. */
  lemma {:induction false} CancelIs(s: State, t: Task)
    requires Core(s) && s.queue != [] && t == s.queue[0]
    ensures Cancel(s) == s.(queue := s.queue[1..], cancelled := s.cancelled + [t], busy := s.busy - KeySet(t),
                            registered := if t.signature.Some? then s.registered - {t.signature.value}
                                          else s.registered)
    ensures Live(Cancel(s)) == Live(s) - {t} && t in Live(s)
  {
    FirstAlone(s);
    ReleaseIs(s.(queue := s.queue[1..], cancelled := s.cancelled + [t]), s, t);
    assert s.queue == [t] + s.queue[1..];
    assert Live(Cancel(s)) == Live(s) - {t};
  }

  lemma {:induction false} CancelAccounted(s: State, d: State)
    requires Accounted(s) && s.queue != [] && d.queue == s.queue[1..] && d.worker == s.worker
    requires d.cancelled == s.cancelled + [s.queue[0]] && d.accepted == s.accepted && d.settled == s.settled
    ensures Accounted(d)
  {
    FirstAlone(s);
  }

  lemma {:induction false} CancelKeeps(s: State)
    requires Core(s) && s.queue != []
    ensures Core(Cancel(s))
  {
    CancelIs(s, s.queue[0]);
    CancelAccounted(s, Cancel(s));
    RemoveLive(Live(s), s.busy, s.registered, s.queue[0]);
  }

  lemma {:induction false} CancelAllKeeps(s: State)
    requires Core(s)
    ensures Core(CancelAll(s)) && CancelAll(s).queue == []
    decreases |s.queue|
  {
    if s.queue != [] {
      CancelKeeps(s);
      CancelAllKeeps(Cancel(s));
    }
  }

  lemma {:induction false} CancelAllMoves(s: State)
    ensures CancelAll(s).stopped == s.stopped && CancelAll(s).queue == []
    ensures CancelAll(s).cancelled == s.cancelled + s.queue
    ensures CancelAll(s).worker == s.worker && CancelAll(s).settled == s.settled
    decreases |s.queue|
  {
    if s.queue != [] {
      CancelAllMoves(Cancel(s));
      assert s.queue == [s.queue[0]] + s.queue[1..];
    }
  }

  /** Stopping moves the whole queue, in its order, to the cancelled tasks; the worker goes on. */
  lemma {:induction false} StopKeeps(s: State)
    requires Inv(s)
    ensures Inv(Stop(s)) && Stop(s).stopped && Stop(s).queue == []
    ensures Stop(s).cancelled == s.cancelled + s.queue && Stop(s).worker == s.worker && Stop(s).settled == s.settled
  {
    var next := s.(stopped := true);
    CancelAllMoves(next);
    assert Live(next) == Live(s);
    CancelAllKeeps(next);
  }

  lemma {:induction false} ReportCancelledAccounted(s: State)
    requires Accounted(s)
    ensures Accounted(ReportCancelled(s))
  {
    if s.cancelled != [] {
      SettleTasks(s.settled, Settled(s.cancelled[0], NotInitialized));
      assert s.cancelled == [s.cancelled[0]] + s.cancelled[1..];
    }
  }

  lemma {:induction false} ReportCancelledKeeps(s: State)
    requires Inv(s)
    ensures Inv(Next(s, AnnounceCancelled))
  {
    if s.cancelled != [] {
      ReportCancelledAccounted(s);
      assert Live(ReportCancelled(s)) == Live(s);
      SameLiveKeeps(s, ReportCancelled(s));
    }
  }

  lemma {:induction false} EnqueueHistory(s: State, t: Task)
    ensures Enqueue(s, t).accepted == s.accepted + (if Verdict(s, t).Accepted? then [t] else [])
    ensures s.settled <= Enqueue(s, t).settled
    ensures Enqueue(s, t).waiters == s.waiters && Enqueue(s, t).limits == s.limits && Enqueue(s, t).stopped == s.stopped
  {}

  lemma {:induction false} WaitKeeps(s: State, n: nat)
    requires Inv(s) && |s.waiters| < s.limits.maxWaiters && n < |s.accepted| && s.accepted[n].signature.Some?
    ensures Inv(Wait(s, n)) && Live(Wait(s, n)) == Live(s)
  {
    assert Live(Wait(s, n)) == Live(s);
  }

  lemma {:induction false} StartReadKeeps(s: State, r: Read)
    requires Inv(s) && SignatureOf(r) !in s.registered && |s.waiters| < s.limits.maxWaiters
    ensures Inv(StartRead(s, r).0)
    ensures StartRead(s, r).1.Waiting? ==> FreshTask(s, r) in Live(StartRead(s, r).0)
  {
    var t := FreshTask(s, r);
    EnqueueKeeps(s, t);
    EnqueueHistory(s, t);
    if StartRead(s, r).1.Waiting? {
      WaitKeeps(Enqueue(s, t), t.serial);
    }
  }

  lemma {:induction false} StartReadIs(s: State, r: Read)
    ensures StartRead(s, r).1.Refused? ==> StartRead(s, r).0 == s
    ensures StartRead(s, r).1.Waiting? ==>
              && StartRead(s, r).1.serial == |s.accepted| && |s.accepted| in StartRead(s, r).0.waiters
              && StartRead(s, r).0.accepted == s.accepted + [FreshTask(s, r)]
  {
    EnqueueHistory(s, FreshTask(s, r));
  }

  /** The weak references to registered reads never expire. */
  lemma {:induction false} RegisteredIsOwned(s: State, g: Signature)
    requires Inv(s) && g in s.registered
    ensures Owned(s, s.registered[g]) && s.registered[g] in Live(s) && s.registered[g].signature == Some(g)
    ensures s.registered[g].serial < |s.accepted| && s.accepted[s.registered[g].serial] == s.registered[g]
  {
    OnePlace(s, s.registered[g]);
  }

  lemma {:induction false} FreshReadKeeps(s: State, r: Read)
    requires Inv(s)
    ensures Inv(FreshRead(s, r).0)
  {
    var g := SignatureOf(r);
    if CheckRead(s.limits, r).Success? && CheckRoute(s, r).Success? {
      if g !in s.registered {
        StartReadKeeps(s, r);
      } else {
        RegisteredIsOwned(s, g);
        WaitKeeps(s, s.registered[g].serial);
      }
    }
  }

  /** What a waiting read waits for in state `d`. */
  ghost predicate Serves(d: State, n: nat, r: Read) {
    && n in d.waiters && n < |d.accepted| && d.accepted[n] in Live(d)
    && d.accepted[n].signature == Some(SignatureOf(r)) && r.deadline <= d.accepted[n].deadline
  }

  /** A read that waits does so for a live task over exactly its keys in its generation that may run
      at least until the read's own deadline; a refused read changes nothing. */
  lemma {:induction false} ReadWaitsForItsKeys(s: State, r: Read)
    requires Inv(s)
    ensures FreshRead(s, r).1.Refused? ==> FreshRead(s, r).0 == s
    ensures FreshRead(s, r).1.Waiting? ==> Serves(FreshRead(s, r).0, FreshRead(s, r).1.serial, r)
  {
    var g := SignatureOf(r);
    if CheckRead(s.limits, r).Success? && CheckRoute(s, r).Success? {
      if g !in s.registered {
        StartReadKeeps(s, r);
        StartReadIs(s, r);
      } else {
        RegisteredIsOwned(s, g);
        WaitKeeps(s, s.registered[g].serial);
      }
    }
  }

  /** A second read of the same keys, in whatever order, and with no later deadline joins the first. */
  lemma {:induction false} SameKeysCoalesce(s: State, a: Read, b: Read, d: State)
    requires Inv(s) && FreshRead(s, a).1.Waiting? && d == FreshRead(s, a).0
    requires multiset(a.keys) == multiset(b.keys) && a.generation == b.generation && b.deadline <= a.deadline
    requires CheckRead(d.limits, b).Success? && CheckRoute(d, b).Success?
    ensures FreshRead(d, b).1 == FreshRead(s, a).1 && FreshRead(d, b).0.accepted == d.accepted
  {
    SameKeysSortAlike(a.keys, b.keys);
    FreshReadKeeps(s, a);
    ReadWaitsForItsKeys(s, a);
    RegisteredIsOwned(d, SignatureOf(b));
  }

  // ----- Runs -----

  datatype Action =
    | Submit(jobId: uint64, keys: seq<DataKey>, priority: Priority, scheduled: int, deadline: int)
    | Request(read: Read)
    | GiveUp(serial: nat)
    | Dequeue
    | Complete(status: Code)
    | Announce
    | Shutdown
    | AnnounceCancelled
    | Reroute(route: Route)

  function Scheduled(s: State, jobId: uint64, keys: seq<DataKey>, p: Priority, scheduled: int, deadline: int): Task {
    Task(|s.accepted|, jobId, keys, p, None, scheduled, deadline)
  }

  function Next(s: State, a: Action): State {
    match a
    case Submit(j, ks, p, at, deadline) => Enqueue(s, Scheduled(s, j, ks, p, at, deadline))
    case Request(r) => FreshRead(s, r).0
    case GiveUp(n) => Leave(s, n)
    case Dequeue => Take(s)
    case Complete(status) => Finish(s, status)
    case Announce => Report(s)
    case Shutdown => Stop(s)
    case AnnounceCancelled => ReportCancelled(s)
    case Reroute(route) => s.(route := route)
  }

  lemma {:induction false} WaitersShrink(s: State, n: nat)
    requires WaitersInv(s)
    ensures WaitersInv(Leave(s, n))
  {
    if n in s.waiters {
      OneFewer(s.waiters, n);
    } else {
      assert s.waiters - multiset{n} == s.waiters;
    }
  }

  lemma {:induction false} LeaveKeeps(s: State, n: nat)
    requires Inv(s)
    ensures Inv(Next(s, GiveUp(n)))
  {
    WaitersShrink(s, n);
    assert Live(Leave(s, n)) == Live(s);
    SameLiveKeeps(s, Leave(s, n));
  }

  lemma {:induction false} RerouteKeeps(s: State, route: Route)
    requires Inv(s)
    ensures Inv(Next(s, Reroute(route)))
  {
    assert Live(s.(route := route)) == Live(s);
    SameLiveKeeps(s, s.(route := route));
  }

  lemma {:induction false} SubmitKeeps(s: State, a: Action)
    requires Inv(s) && a.Submit?
    ensures Inv(Next(s, a))
  {
    EnqueueKeeps(s, Scheduled(s, a.jobId, a.keys, a.priority, a.scheduled, a.deadline));
  }

  lemma {:induction false} RequestKeeps(s: State, r: Read)
    requires Inv(s)
    ensures Inv(Next(s, Request(r)))
  {
    FreshReadKeeps(s, r);
  }

  lemma {:induction false} ShutdownKeeps(s: State)
    requires Inv(s)
    ensures Inv(Next(s, Shutdown))
  {
    StopKeeps(s);
  }

  lemma {:induction false} NextKeeps(s: State, a: Action)
    requires Inv(s)
    ensures Inv(Next(s, a))
  {
    match a
    case Submit(_, _, _, _, _) => SubmitKeeps(s, a);
    case Request(r) => RequestKeeps(s, r);
    case GiveUp(n) => LeaveKeeps(s, n);
    case Dequeue => TakeKeeps(s);
    case Complete(status) => CompleteKeeps(s, status);
    case Announce => ReportKeeps(s);
    case Shutdown => ShutdownKeeps(s);
    case AnnounceCancelled => ReportCancelledKeeps(s);
    case Reroute(route) => RerouteKeeps(s, route);
  }

  function Run(limits: Limits, actions: seq<Action>): State {
    if actions == [] then Initial(limits)
    else Next(Run(limits, actions[..|actions| - 1]), actions[|actions| - 1])
  }

  /** The states that the actions lead through, one by one. */
  ghost predicate IsTrace(limits: Limits, trace: seq<State>, actions: seq<Action>) {
    && |trace| == |actions| + 1 && trace[0] == Initial(limits)
    && forall i {:trigger Next(trace[i], actions[i])} :: 0 <= i < |actions| ==>
                                                           trace[i + 1] == Next(trace[i], actions[i])
  }

  lemma {:induction false} TraceStep(limits: Limits, trace: seq<State>, actions: seq<Action>, a: Action)
    requires IsTrace(limits, trace, actions)
    ensures IsTrace(limits, trace + [Next(trace[|actions|], a)], actions + [a])
  {
    var t, b := trace + [Next(trace[|actions|], a)], actions + [a];
    forall i | 0 <= i < |b| ensures t[i + 1] == Next(t[i], b[i]) {
      assert i < |actions| ==> Next(trace[i], actions[i]) == trace[i + 1];
    }
  }

  lemma {:induction false} TraceIsRun(limits: Limits, trace: seq<State>, actions: seq<Action>)
    requires IsTrace(limits, trace, actions)
    ensures trace[|actions|] == Run(limits, actions)
  {
    if actions != [] {
      var n := |actions| - 1;
      assert trace[n + 1] == Next(trace[n], actions[n]);
      var t, b := trace[..n + 1], actions[..n];
      forall i | 0 <= i < n ensures t[i + 1] == Next(t[i], b[i]) {
        assert Next(trace[i], actions[i]) == trace[i + 1];
      }
      TraceIsRun(limits, t, b);
    }
  }

  /** Every reachable state keeps the invariant. */
  lemma {:induction false} RunKeeps(limits: Limits, actions: seq<Action>)
    ensures Inv(Run(limits, actions))
  {
    if actions == [] {
      assert Tasks([]) == [];
    } else {
      RunKeeps(limits, actions[..|actions| - 1]);
      NextKeeps(Run(limits, actions[..|actions| - 1]), actions[|actions| - 1]);
    }
  }

  /** In every run a fresh read's completion is signalled exactly once, and only after its task has
      left the queue and the worker; until then it is never signalled. */
  lemma {:induction false} SignalledExactlyOnce(limits: Limits, actions: seq<Action>, n: nat)
    requires n < |Run(limits, actions).accepted|
    ensures var s := Run(limits, actions);
            var t := s.accepted[n];
            && (t in Live(s) ==> multiset(Tasks(s.settled))[t] == 0)
            && (t !in Live(s) && t !in s.cancelled && !(s.worker.Reporting? && s.worker.task == t) ==>
                  multiset(Tasks(s.settled))[t] == 1)
            && multiset(Tasks(s.settled))[t] <= 1
  {
    var s := Run(limits, actions);
    var t := s.accepted[n];
    RunKeeps(limits, actions);
    SerialsAreUnique(s.accepted, t);
    assert t in multiset(s.accepted);
    assert t in s.queue <==> t in multiset(s.queue);
    assert t in s.cancelled <==> t in multiset(s.cancelled);
  }

  /** When nothing is queued, read or being reported, every waiter's completion has been signalled. */
  lemma {:induction false} NobodyIsForgotten(limits: Limits, actions: seq<Action>, n: nat)
    requires n in Run(limits, actions).waiters
    requires var s := Run(limits, actions); s.queue == [] && s.worker.Idle? && s.cancelled == []
    ensures var s := Run(limits, actions); n < |s.accepted| && s.accepted[n] in Tasks(s.settled)
  {
    var s := Run(limits, actions);
    RunKeeps(limits, actions);
    SignalledExactlyOnce(limits, actions, n);
    assert s.accepted[n] in multiset(Tasks(s.settled));
  }

  lemma {:induction false} CancelAllHistory(s: State)
    ensures CancelAll(s).accepted == s.accepted && CancelAll(s).settled == s.settled
    decreases |s.queue|
  {
    if s.queue != [] {
      CancelAllHistory(Cancel(s));
    }
  }

  lemma {:induction false} StartHistory(s: State, r: Read)
    ensures s.settled <= StartRead(s, r).0.settled && s.accepted <= StartRead(s, r).0.accepted
  {
    EnqueueHistory(s, FreshTask(s, r));
  }

  lemma {:induction false} JoinHistory(s: State, r: Read)
    ensures s.settled <= JoinOrStart(s, r).0.settled && s.accepted <= JoinOrStart(s, r).0.accepted
  {
    var g := SignatureOf(r);
    if g !in s.registered {
      StartHistory(s, r);
    } else if !Owned(s, s.registered[g]) {
      StartHistory(Forget(s, g), r);
    }
  }

  lemma {:induction false} FreshReadHistory(s: State, r: Read)
    ensures s.settled <= FreshRead(s, r).0.settled && s.accepted <= FreshRead(s, r).0.accepted
    ensures s.stopped ==> FreshRead(s, r).0 == s
  {
    if CheckRead(s.limits, r).Success? && CheckRoute(s, r).Success? {
      JoinHistory(s, r);
    }
  }

  /** A signal, once given, stands: histories only grow, and once stopped nothing is accepted. */
  lemma {:induction false} HistoryGrows(s: State, a: Action)
    ensures s.settled <= Next(s, a).settled && s.accepted <= Next(s, a).accepted
    ensures s.stopped ==> Next(s, a).accepted == s.accepted
  {
    match a
    case Submit(j, ks, p, at, deadline) => EnqueueHistory(s, Scheduled(s, j, ks, p, at, deadline));
    case Request(r) => FreshReadHistory(s, r);
    case Shutdown => CancelAllHistory(s.(stopped := true));
    case _ =>
  }

  // ----- The runtime object -----

  class Runtime {
    const limits: Limits
    var route: Route
    var queue: seq<Task>
    var worker: Worker
    var busy: set<DataKey>
    var registered: map<Signature, Task>
    var stopped: bool
    var cancelled: seq<Task>
    var waiting: nat
    var created: nat
    ghost var waiters: multiset<nat>
    ghost var accepted: seq<Task>
    ghost var settled: seq<Settled>
    ghost var actions: seq<Action>
    ghost var trace: seq<State>

    constructor (limits: Limits)
      ensures Valid() && this.limits == limits && actions == []
    {
      this.limits := limits;
      route, queue, worker, busy, registered := Route(0, None, {}), [], Idle, {}, map[];
      stopped, cancelled, waiting, created := false, [], 0, 0;
      waiters, accepted, settled, actions, trace := multiset{}, [], [], [], [Initial(limits)];
    }

    ghost function View(): State
      reads this
    {
      State(limits, route, queue, worker, busy, registered, stopped, cancelled, waiters, accepted, settled)
    }

    /** The object is in the state its actions lead to ... */
    ghost predicate Valid()
      reads this
    {
      && IsTrace(limits, trace, actions) && View() == trace[|actions|]
      && waiting == |waiters| && created == |accepted|
    }

    /** ... so what holds in every run holds of it. */
    lemma {:induction false} ValidIsReached()
      requires Valid()
      ensures View() == Run(limits, actions) && Inv(View())
    {
      TraceIsRun(limits, trace, actions);
      RunKeeps(limits, actions);
    }

    ghost method Record(a: Action)
      requires Valid()
      modifies `actions, `trace
      ensures actions == old(actions) + [a] && IsTrace(limits, trace, actions) && trace[|actions|] == Next(View(), a)
    {
      TraceStep(limits, trace, actions, a);
      trace, actions := trace + [Next(View(), a)], actions + [a];
    }

    /** `releaseTaskLocked`. */
    method ReleaseTask(t: Task)
      modifies `busy, `registered
      ensures View() == Release(old(View()), t)
    {
      for i := 0 to |t.keys|
        invariant busy == old(busy) - set k | k in t.keys[..i]
        invariant registered == old(registered)
      {
        busy := busy - {t.keys[i]};
      }
      assert t.keys[..|t.keys|] == t.keys;
      if t.signature.Some? && t.signature.value in registered {
        var other := registered[t.signature.value];
        var expired := other !in queue && !(!worker.Idle? && worker.task == other) && other !in cancelled;
        if expired || other == t {
          registered := registered - {t.signature.value};
        }
      }
    }

    method AnyBusy(keys: seq<DataKey>) returns (found: bool)
      ensures found <==> exists k :: k in keys && k in busy
    {
      for i := 0 to |keys|
        invariant forall k :: k in keys[..i] ==> k !in busy
      {
        if keys[i] in busy {
          return true;
        }
      }
      assert keys[..|keys|] == keys;
      found := false;
    }

    method FindPosition(p: Priority) returns (i: nat)
      ensures i == Position(queue, p)
    {
      i := 0;
      while i < |queue| && Rank(p) <= Rank(queue[i].priority)
        invariant i <= |queue|
        invariant forall j :: 0 <= j < i ==> Rank(p) <= Rank(queue[j].priority)
      {
        i := i + 1;
      }
    }

    method EvictLast()
      requires queue != []
      modifies `queue, `busy, `registered, `settled
      ensures View() == Evict(old(View()))
    {
      var e := queue[|queue| - 1];
      queue := queue[..|queue| - 1];
      ReleaseTask(e);
      settled := settled + [Settled(e, ResourceExhausted)];
    }

    method MarkBusy(keys: seq<DataKey>)
      modifies `busy
      ensures busy == old(busy) + set k | k in keys
    {
      for i := 0 to |keys|
        invariant busy == old(busy) + set k | k in keys[..i]
      {
        busy := busy + {keys[i]};
      }
      assert keys[..|keys|] == keys;
    }

    method AdmitTask(t: Task)
      modifies `queue, `busy, `registered, `created, `accepted
      ensures View() == Admit(old(View()), t) && created == old(created) + 1
    {
      MarkBusy(t.keys);
      if t.signature.Some? {
        registered := registered[t.signature.value := t];
      }
      var i := FindPosition(t.priority);
      queue := queue[..i] + [t] + queue[i..];
      created := created + 1;
      accepted := accepted + [t];
    }

    method Push(t: Task) returns (result: EnqueueResult)
      modifies `queue, `busy, `registered, `created, `accepted, `settled
      ensures result == Verdict(old(View()), t) && View() == Enqueue(old(View()), t)
      ensures created == old(created) + if result.Accepted? then 1 else 0
    {
      if stopped {
        return Stopped;
      }
      var overlapping := AnyBusy(t.keys);
      if overlapping {
        return Busy;
      }
      if |queue| == limits.maxQueue && (queue == [] || Rank(t.priority) <= Rank(queue[|queue| - 1].priority)) {
        return Full;
      }
      if |queue| == limits.maxQueue {
        EvictLast();
      }
      AdmitTask(t);
      result := Accepted;
    }

    /** One job of `runDue`, offered to the queue as a task. */
    method SubmitJob(jobId: uint64, keys: seq<DataKey>, priority: Priority, scheduled: int, deadline: int)
      returns (result: EnqueueResult)
      requires Valid()
      modifies `queue, `busy, `registered, `created, `accepted, `settled, `actions, `trace
      ensures Valid() && actions == old(actions) + [Submit(jobId, keys, priority, scheduled, deadline)]
      ensures result == Verdict(old(View()), Scheduled(old(View()), jobId, keys, priority, scheduled, deadline))
      ensures accepted == old(accepted) +
                          if result.Accepted? then [Scheduled(old(View()), jobId, keys, priority, scheduled, deadline)]
                          else []
    {
      Record(Submit(jobId, keys, priority, scheduled, deadline));
      EnqueueHistory(View(), Scheduled(View(), jobId, keys, priority, scheduled, deadline));
      result := Push(Task(created, jobId, keys, priority, None, scheduled, deadline));
    }

    /** The first critical section of the worker. */
    method TakeTask() returns (task: Option<Task>)
      requires Valid() && worker.Idle?
      modifies `queue, `worker, `actions, `trace
      ensures Valid() && actions == old(actions) + [Dequeue]
      ensures task == if old(queue) == [] then None else Some(old(queue)[0])
    {
      Record(Dequeue);
      if queue == [] {
        return None;
      }
      task := Some(queue[0]);
      worker, queue := Reading(queue[0]), queue[1..];
    }

    /** The second critical section of the worker. */
    method FinishTask(status: Code)
      requires Valid() && worker.Reading?
      modifies `worker, `busy, `registered, `actions, `trace
      ensures Valid() && actions == old(actions) + [Complete(status)]
    {
      Record(Complete(status));
      ReleaseTask(worker.task);
      worker := Reporting(worker.task, status);
    }

    /** The worker signals the completion of what it has finished. */
    method ReportTask()
      requires Valid() && worker.Reporting?
      modifies `worker, `settled, `actions, `trace
      ensures Valid() && actions == old(actions) + [Announce]
    {
      Record(Announce);
      settled := settled + [Settled(worker.task, worker.status)];
      worker := Idle;
    }

    method CancelFirst()
      requires queue != []
      modifies `queue, `busy, `registered, `cancelled
      ensures View() == Cancel(old(View()))
    {
      var t := queue[0];
      cancelled := cancelled + [t];
      queue := queue[1..];
      ReleaseTask(t);
    }

    method CancelQueue()
      modifies `queue, `busy, `registered, `stopped, `cancelled
      ensures View() == Next(old(View()), Shutdown)
    {
      stopped := true;
      while queue != []
        invariant CancelAll(View()) == Stop(old(View()))
        decreases |queue|
      {
        CancelFirst();
      }
    }

    /** The critical section of `shutdownAll`. */
    method StopAll()
      requires Valid()
      modifies `queue, `busy, `registered, `stopped, `cancelled, `actions, `trace
      ensures Valid() && actions == old(actions) + [Shutdown]
    {
      Record(Shutdown);
      CancelQueue();
    }

    /** One turn of the loop of `shutdownAll` that signals the cancelled tasks. */
    method ReportNextCancelled()
      requires Valid() && cancelled != []
      modifies `cancelled, `settled, `actions, `trace
      ensures Valid() && actions == old(actions) + [AnnounceCancelled]
    {
      Record(AnnounceCancelled);
      settled := settled + [Settled(cancelled[0], NotInitialized)];
      cancelled := cancelled[1..];
    }

    // ----- Fresh reads -----

    method HasEqualNeighbours(s: seq<DataKey>) returns (found: bool)
      ensures found <==> EqualNeighbours(s)
    {
      var i := 1;
      while i < |s|
        invariant 1 <= i && forall j :: 0 < j < i && j < |s| ==> s[j - 1] != s[j]
      {
        if s[i - 1] == s[i] {
          return true;
        }
        i := i + 1;
      }
      found := false;
    }

    method AllSupported(r: Read) returns (ok: bool)
      requires route.entity.Some?
      ensures ok <==> forall k :: k in r.keys ==> Supported(View(), r, k)
    {
      for i := 0 to |r.keys|
        invariant forall k :: k in r.keys[..i] ==> Supported(View(), r, k)
      {
        var k := r.keys[i];
        if k.entity != route.entity.value || k.metric !in route.metrics || k.metric !in r.described {
          assert k in r.keys && !Supported(View(), r, k);
          return false;
        }
      }
      assert r.keys[..|r.keys|] == r.keys;
      ok := true;
    }

    method CheckArguments(r: Read) returns (status: Code)
      ensures status == CheckRead(limits, r)
    {
      if r.keys == [] || r.generation == 0 {
        return InvalidArgument;
      }
      if |r.keys| > limits.maxBatch {
        return ResourceExhausted;
      }
      if r.deadline <= r.now {
        return Timeout;
      }
      var repeated := HasEqualNeighbours(SortKeys(r.keys));
      status := if repeated then InvalidArgument else Success;
    }

    method CheckRouting(r: Read) returns (status: Code)
      requires waiting == |waiters|
      ensures status == CheckRoute(View(), r)
    {
      if stopped {
        return NotInitialized;
      }
      if r.generation != route.generation || route.entity.None? {
        return StaleGeneration;
      }
      var ok := AllSupported(r);
      if !ok {
        return Code.Unsupported;
      }
      status := if waiting == limits.maxWaiters then ResourceExhausted else Success;
    }

    method StartTask(r: Read) returns (result: ReadResult)
      requires created == |accepted| && waiting == |waiters|
      modifies `queue, `busy, `registered, `created, `accepted, `settled, `waiting, `waiters
      ensures (View(), result) == StartRead(old(View()), r)
      ensures created == |accepted| && waiting == |waiters|
    {
      if r.requestId == 0 {
        return Refused(ResourceExhausted);
      }
      var keys := SortKeys(r.keys);
      var task := Task(created, 0, keys, Priority.Normal, Some(Signature(r.generation, keys)), r.now, r.deadline);
      EnqueueHistory(View(), task);
      var queued := Push(task);
      if !queued.Accepted? {
        return Refused(ResourceExhausted);
      }
      waiting, waiters := waiting + 1, waiters + multiset{task.serial};
      result := Waiting(task.serial);
    }

    method JoinOrStartTask(r: Read) returns (result: ReadResult)
      requires created == |accepted| && waiting == |waiters|
      modifies `queue, `busy, `registered, `created, `accepted, `settled, `waiting, `waiters
      ensures (View(), result) == JoinOrStart(old(View()), r)
      ensures created == |accepted| && waiting == |waiters|
    {
      var g := Signature(r.generation, SortKeys(r.keys));
      if g in registered {
        var task := registered[g];
        if task in queue || (!worker.Idle? && worker.task == task) || task in cancelled {
          if r.deadline <= task.deadline {
            waiting, waiters := waiting + 1, waiters + multiset{task.serial};
            return Waiting(task.serial);
          }
          return Refused(ResourceExhausted);
        }
        registered := registered - {g};
      }
      result := StartTask(r);
    }

    /** `freshRead` up to the point where it waits. */
    method RequestRead(r: Read) returns (result: ReadResult)
      requires Valid()
      modifies `queue, `busy, `registered, `created, `accepted, `settled, `waiting, `waiters, `actions, `trace
      ensures Valid() && actions == old(actions) + [Request(r)]
      ensures result == FreshRead(old(View()), r).1
    {
      Record(Request(r));
      var status := CheckArguments(r);
      if !status.Success? {
        return Refused(status);
      }
      status := CheckRouting(r);
      if !status.Success? {
        return Refused(status);
      }
      result := JoinOrStartTask(r);
    }

    /** The last critical section of `freshRead`. */
    method StopWaiting(serial: nat)
      requires Valid() && serial in waiters
      modifies `waiting, `waiters, `actions, `trace
      ensures Valid() && actions == old(actions) + [GiveUp(serial)]
    {
      Record(GiveUp(serial));
      DropWaiter(serial);
    }

    method DropWaiter(serial: nat)
      requires serial in waiters && waiting == |waiters|
      modifies `waiting, `waiters
      ensures View() == Leave(old(View()), serial) && waiting == |waiters|
    {
      OneFewer(waiters, serial);
      waiting, waiters := waiting - 1, waiters - multiset{serial};
    }
  }
}
