/** What the collection queue answers, told from its live tasks, and with what each task ends. */
module QueueLaws {
  import opened Base
  import opened Collections
  import opened Domain
  import opened KeyOrder
  import opened Watch
  import opened CollectionQueue

  // ----- The verdict on a task -----

  /** Heartbeats come before high, high before normal and normal before low priority. */
  predicate Higher(p: Priority, q: Priority) {
    match q
    case Low => !p.Low?
    case Normal => p.High? || p.Heartbeat?
    case High => p.Heartbeat?
    case Heartbeat => false
  }

  /** A task that is queued or being read needs one of these keys. */
  ghost predicate Clashes(s: State, keys: seq<DataKey>) {
    exists u, k :: u in Live(s) && k in u.keys && k in keys
  }

  /** The queue has a free place, or holds a task of lower priority. */
  ghost predicate HasRoom(s: State, p: Priority) {
    |s.queue| < s.limits.maxQueue || exists u :: u in s.queue && Higher(p, u.priority)
  }

  lemma {:induction false} OverlapsIff(s: State, t: Task)
    requires KeysInv(Live(s), s.busy)
    ensures Overlaps(s, t) <==> Clashes(s, t.keys)
  {
    if Clashes(s, t.keys) {
      var u, k :| u in Live(s) && k in u.keys && k in t.keys;
      assert k in s.busy;
    }
  }

  lemma {:induction false} CrowdedIff(s: State, t: Task)
    requires Ordered(s.queue) && |s.queue| <= s.limits.maxQueue
    ensures Crowded(s, t) <==> !HasRoom(s, t.priority)
  {
    var n := |s.queue| - 1;
    if u :| u in s.queue && Higher(t.priority, u.priority) {
      var i :| 0 <= i < |s.queue| && s.queue[i] == u;
      assert i < n ==> Before(s.queue[i], s.queue[n]);
    }
    if n + 1 == s.limits.maxQueue && Rank(s.queue[n].priority) < Rank(t.priority) {
      assert s.queue[n] in s.queue && Higher(t.priority, s.queue[n].priority);
    }
  }

  /** In every state that keeps the invariant: a task is accepted if and only if the runtime is not stopped,
      no live task shares a key with it and there is a free place or a queued task of lower priority. */
  lemma {:induction false} VerdictIs(s: State, t: Task)
    requires Inv(s)
    ensures Verdict(s, t) == if s.stopped then Stopped
                             else if Clashes(s, t.keys) then Busy
                             else if HasRoom(s, t.priority) then Accepted
                             else Full
  {
    OverlapsIff(s, t);
    CrowdedIff(s, t);
  }

  // ----- The answer to a fresh read -----

  /** The checks a fresh read has to pass before it joins or starts a task. */
  ghost function ReadCheck(s: State, r: Read): Code {
    if r.keys == [] || r.generation == 0 then InvalidArgument
    else if s.limits.maxBatch < |r.keys| then ResourceExhausted
    else if r.deadline <= r.now then Timeout
    else if !Distinct(r.keys) then InvalidArgument
    else if s.stopped then NotInitialized
    else if s.route.entity.None? || s.route.generation != r.generation then StaleGeneration
    else if forall k :: k in r.keys ==>
                          && s.route.entity == Some(k.entity)
                          && k.metric in s.route.metrics && k.metric in r.described then
      if |s.waiters| < s.limits.maxWaiters then Success else ResourceExhausted
    else Code.Unsupported
  }

  /** `u` already reads exactly these keys for this generation. */
  predicate ReadsSame(u: Task, r: Read) {
    u.signature == Some(Signature(r.generation, SortKeys(r.keys)))
  }

  lemma {:induction false} ChecksAre(s: State, r: Read)
    requires |s.waiters| <= s.limits.maxWaiters
    ensures ReadCheck(s, r) ==
            if !CheckRead(s.limits, r).Success? then CheckRead(s.limits, r) else CheckRoute(s, r)
  {
    SortKeysIs(r.keys);
    NeighboursSuffice(SortKeys(r.keys));
    DistinctInAnyOrder(SortKeys(r.keys), r.keys);
  }

  /** A read that passes its checks waits for a task that already reads the same keys, if that one ends no
      earlier; without such a task it starts its own if it has a request number, its keys are free and there
      is room; in all other cases it is refused and nothing changes. */
  lemma {:induction false} ReadAnswer(s: State, r: Read)
    requires Inv(s)
    ensures !ReadCheck(s, r).Success? ==> FreshRead(s, r) == (s, Refused(ReadCheck(s, r)))
    ensures ReadCheck(s, r).Success? ==>
              forall u :: u in Live(s) && ReadsSame(u, r) ==>
                            FreshRead(s, r).1 == if r.deadline <= u.deadline then Waiting(u.serial)
                                                 else Refused(ResourceExhausted)
    ensures ReadCheck(s, r).Success? && (forall u :: u in Live(s) ==> !ReadsSame(u, r)) ==>
              FreshRead(s, r).1 ==
              if r.requestId != 0 && !Clashes(s, r.keys) && HasRoom(s, Priority.Normal) then Waiting(|s.accepted|)
              else Refused(ResourceExhausted)
    ensures FreshRead(s, r).1.Refused? ==> FreshRead(s, r).0 == s
  {
    ChecksAre(s, r);
    if ReadCheck(s, r).Success? {
      AnswerAfterChecks(s, r);
    }
  }

  lemma {:induction false} RegisteredIff(s: State, r: Read)
    requires Inv(s)
    ensures SignatureOf(r) in s.registered <==> exists u :: u in Live(s) && ReadsSame(u, r)
    ensures forall u :: u in Live(s) && ReadsSame(u, r) ==>
                          SignatureOf(r) in s.registered && s.registered[SignatureOf(r)] == u
    ensures SignatureOf(r) in s.registered ==> Owned(s, s.registered[SignatureOf(r)])
  {
    if SignatureOf(r) in s.registered {
      RegisteredIsOwned(s, SignatureOf(r));
      assert ReadsSame(s.registered[SignatureOf(r)], r);
    }
  }

  lemma {:induction false} SortedClash(s: State, r: Read)
    ensures Clashes(s, SortKeys(r.keys)) <==> Clashes(s, r.keys)
  {
    SortKeysIs(r.keys);
    SameMembers(SortKeys(r.keys), r.keys);
  }

  lemma {:induction false} AnswerAfterChecks(s: State, r: Read)
    requires Inv(s)
    ensures forall u :: u in Live(s) && ReadsSame(u, r) ==>
                          JoinOrStart(s, r).1 == if r.deadline <= u.deadline then Waiting(u.serial)
                                                 else Refused(ResourceExhausted)
    ensures (forall u :: u in Live(s) ==> !ReadsSame(u, r)) ==>
              JoinOrStart(s, r).1 ==
              if !s.stopped && r.requestId != 0 && !Clashes(s, r.keys) && HasRoom(s, Priority.Normal)
              then Waiting(|s.accepted|) else Refused(ResourceExhausted)
    ensures JoinOrStart(s, r).1.Refused? ==> JoinOrStart(s, r).0 == s
  {
    RegisteredIff(s, r);
    VerdictIs(s, FreshTask(s, r));
    SortedClash(s, r);
  }

  // ----- What each task ends with -----

  /** The tasks a step ends, by serial, and the status each ends with: the read's own, not initialised for what
      a shutdown cancels, exhausted for what another task pushes out of the queue. */
  ghost function EndedBy(s: State, a: Action): map<nat, Code> {
    match a
    case Complete(status) => if s.worker.Reading? then map[s.worker.task.serial := status] else map[]
    case Shutdown => map t | t in s.queue :: t.serial := NotInitialized
    case Submit(_, _, _, _, _) => PushedOut(s, Next(s, a))
    case Request(_) => PushedOut(s, Next(s, a))
    case _ => map[]
  }

  ghost function PushedOut(s: State, t: State): map<nat, Code> {
    map u | u in s.queue && u !in t.queue :: u.serial := ResourceExhausted
  }

  ghost function Ended(limits: Limits, actions: seq<Action>): map<nat, Code> {
    if actions == [] then map[]
    else
      var n := |actions| - 1;
      Ended(limits, actions[..n]) + EndedBy(Run(limits, actions[..n]), actions[n])
  }

  ghost predicate EndsAs(ended: map<nat, Code>, t: Task, status: Code) {
    t.serial in ended && ended[t.serial] == status
  }

  ghost predicate SettledAs(xs: seq<Settled>, ended: map<nat, Code>) {
    forall x :: x in xs ==> EndsAs(ended, x.task, x.status)
  }

  ghost predicate CancelledAs(ts: seq<Task>, ended: map<nat, Code>) {
    forall t :: t in ts ==> EndsAs(ended, t, NotInitialized)
  }

  ghost predicate ReportedAs(w: Worker, ended: map<nat, Code>) {
    w.Reporting? ==> EndsAs(ended, w.task, w.status)
  }

  ghost predicate NoneEnded(live: set<Task>, ended: map<nat, Code>) {
    forall t :: t in live ==> t.serial !in ended
  }

  ghost predicate Below(ended: map<nat, Code>, n: nat) {
    forall i :: i in ended ==> i < n
  }

  /** What is settled, reported or cancelled has ended so; what is live has not ended. */
  ghost predicate EndInv(s: State, ended: map<nat, Code>) {
    && SettledAs(s.settled, ended) && CancelledAs(s.cancelled, ended) && ReportedAs(s.worker, ended)
    && NoneEnded(Live(s), ended) && Below(ended, |s.accepted|)
  }

  lemma {:induction false} LiveSerials(s: State, t: Task)
    requires Accounted(s) && t in Live(s)
    ensures t.serial < |s.accepted| && s.accepted[t.serial] == t
  {
    OnePlace(s, t);
  }

  /** `more` ends exactly the tasks `gone`. */
  ghost predicate Ends(more: map<nat, Code>, gone: set<Task>) {
    forall n :: n in more <==> exists t :: t in gone && t.serial == n
  }

  /** Ending some live tasks leaves the others, and what had ended, as they were. */
  lemma {:induction false} EndSome(s: State, ended: map<nat, Code>, more: map<nat, Code>, gone: set<Task>)
    requires Accounted(s) && EndInv(s, ended) && gone <= Live(s) && Ends(more, gone)
    ensures SettledAs(s.settled, ended + more) && CancelledAs(s.cancelled, ended + more)
    ensures ReportedAs(s.worker, ended + more)
    ensures NoneEnded(Live(s) - gone, ended + more) && Below(ended + more, |s.accepted|)
  {
    forall t | t in Live(s) ensures t.serial < |s.accepted| && s.accepted[t.serial] == t {
      LiveSerials(s, t);
    }
    forall n | n in more ensures n !in ended && n < |s.accepted| {
      var t :| t in gone && t.serial == n;
    }
    forall t, status | EndsAs(ended, t, status) ensures EndsAs(ended + more, t, status) {}
  }

  // ----- Step by step -----

  predicate SameTasks(s: State, t: State) {
    && t.settled == s.settled && t.cancelled == s.cancelled && t.worker == s.worker
    && t.queue == s.queue && t.accepted == s.accepted
  }

  /** Whether tasks have ended depends on these parts of the state only. */
  lemma {:induction false} SameEnds(s: State, t: State, ended: map<nat, Code>)
    requires EndInv(s, ended) && SameTasks(s, t)
    ensures EndInv(t, ended)
  {
    assert Live(t) == Live(s);
  }

  lemma {:induction false} AcceptedEnds(s: State, t: Task, ended: map<nat, Code>)
    requires Inv(s) && EndInv(s, ended) && t.serial == |s.accepted| && Verdict(s, t).Accepted?
    requires |s.queue| != s.limits.maxQueue
    ensures PushedOut(s, Enqueue(s, t)) == map[] && EndInv(Enqueue(s, t), ended)
  {
    InsertHolds(s.queue, t);
    assert Live(Enqueue(s, t)) <= Live(s) + {t};
    assert t.serial !in ended;
  }

  lemma {:induction false} PushedOne(s: State, d: State, last: Task)
    requires forall u :: u in s.queue && u !in d.queue <==> u == last
    ensures PushedOut(s, d) == map[last.serial := ResourceExhausted]
  {}

  lemma {:induction false} LastGoes(q: seq<Task>, r: seq<Task>, t: Task, n: nat, u: Task)
    requires |q| == n + 1 && q[n] !in q[..n] && t != q[n] && forall v :: v in r <==> v in q[..n] || v == t
    ensures u in q && u !in r <==> u == q[n]
  {
    assert q == q[..n] + [q[n]];
  }

  /** The one task that a full queue gives up is the last. */
  lemma {:induction false} PushedIsLast(s: State, t: Task, n: nat)
    requires Accounted(s) && t.serial == |s.accepted| && Verdict(s, t).Accepted?
    requires |s.queue| == s.limits.maxQueue == n + 1
    ensures PushedOut(s, Enqueue(s, t)) == map[s.queue[n].serial := ResourceExhausted]
  {
    var r := Enqueue(s, t).queue;
    EnqueueEvicting(s, t, n);
    InsertHolds(s.queue[..n], t);
    LastAlone(s, n);
    LiveSerials(s, s.queue[n]);
    forall u ensures u in s.queue && u !in r <==> u == s.queue[n] {
      LastGoes(s.queue, r, t, n, u);
    }
    PushedOne(s, Enqueue(s, t), s.queue[n]);
  }

  lemma {:induction false} EvictingEnds(s: State, t: Task, ended: map<nat, Code>, n: nat)
    requires Accounted(s) && EndInv(s, ended) && t.serial == |s.accepted| && Verdict(s, t).Accepted?
    requires |s.queue| == s.limits.maxQueue == n + 1
    ensures EndInv(Enqueue(s, t), ended + PushedOut(s, Enqueue(s, t)))
  {
    var more := PushedOut(s, Enqueue(s, t));
    PushedIsLast(s, t, n);
    LastAlone(s, n);
    assert s.queue[n] in Live(s) && Ends(more, {s.queue[n]});
    EndSome(s, ended, more, {s.queue[n]});
    EvictedParts(s, t, ended + more, n);
  }

  lemma {:induction false} EvictedParts(s: State, t: Task, ended: map<nat, Code>, n: nat)
    requires |s.queue| == s.limits.maxQueue == n + 1 && Verdict(s, t).Accepted? && t.serial == |s.accepted|
    requires SettledAs(s.settled, ended) && CancelledAs(s.cancelled, ended) && ReportedAs(s.worker, ended)
    requires NoneEnded(Live(s) - {s.queue[n]}, ended) && Below(ended, |s.accepted|)
    requires EndsAs(ended, s.queue[n], ResourceExhausted) && s.queue[n] !in s.queue[..n]
    requires s.queue[n] !in HeldBy(s.worker)
    ensures EndInv(Enqueue(s, t), ended)
  {
    var d := Enqueue(s, t);
    EnqueueEvicting(s, t, n);
    InsertHolds(s.queue[..n], t);
    assert t.serial !in ended;
    forall u | u in Live(d) ensures u.serial !in ended {
      if u != t {
        assert u in Live(s) - {s.queue[n]};
      }
    }
  }

  lemma {:induction false} EnqueueEnds(s: State, t: Task, ended: map<nat, Code>)
    requires Inv(s) && EndInv(s, ended) && t.serial == |s.accepted|
    ensures EndInv(Enqueue(s, t), ended + PushedOut(s, Enqueue(s, t)))
  {
    if !Verdict(s, t).Accepted? {
      assert PushedOut(s, s) == map[] && ended + map[] == ended;
    } else if |s.queue| != s.limits.maxQueue {
      AcceptedEnds(s, t, ended);
      assert ended + map[] == ended;
    } else {
      EvictingEnds(s, t, ended, |s.queue| - 1);
    }
  }

  /** A fresh read leaves the tasks as they were, or enqueues one. */
  lemma {:induction false} StartMoves(s: State, r: Read)
    ensures SameTasks(s, StartRead(s, r).0) || SameTasks(Enqueue(s, FreshTask(s, r)), StartRead(s, r).0)
  {}

  lemma {:induction false} ReadMoves(s: State, r: Read)
    requires SignatureOf(r) in s.registered ==> Owned(s, s.registered[SignatureOf(r)])
    ensures SameTasks(s, FreshRead(s, r).0) || SameTasks(Enqueue(s, FreshTask(s, r)), FreshRead(s, r).0)
  {
    StartMoves(s, r);
  }

  lemma {:induction false} SamePushed(s: State, d: State, e: State)
    requires d.queue == e.queue
    ensures PushedOut(s, d) == PushedOut(s, e) && PushedOut(s, s) == map[]
  {}

  lemma {:induction false} ReadMovesUnder(s: State, r: Read)
    requires Inv(s)
    ensures SameTasks(s, FreshRead(s, r).0) || SameTasks(Enqueue(s, FreshTask(s, r)), FreshRead(s, r).0)
  {
    if SignatureOf(r) in s.registered {
      RegisteredIsOwned(s, SignatureOf(r));
    }
    ReadMoves(s, r);
  }

  lemma {:induction false} ReadEnds(s: State, r: Read, ended: map<nat, Code>)
    requires Inv(s) && EndInv(s, ended)
    ensures EndInv(FreshRead(s, r).0, ended + PushedOut(s, FreshRead(s, r).0))
  {
    var d, e := FreshRead(s, r).0, Enqueue(s, FreshTask(s, r));
    ReadMovesUnder(s, r);
    EnqueueEnds(s, FreshTask(s, r), ended);
    if SameTasks(s, d) {
      SamePushed(s, d, s);
      assert ended + map[] == ended;
      SameEnds(s, d, ended);
    } else {
      SamePushed(s, d, e);
      SameEnds(e, d, ended + PushedOut(s, e));
    }
  }

  lemma {:induction false} CompleteEnds(s: State, status: Code, ended: map<nat, Code>)
    requires Inv(s) && EndInv(s, ended)
    ensures EndInv(Next(s, Complete(status)), ended + EndedBy(s, Complete(status)))
  {
    if s.worker.Reading? {
      var more := EndedBy(s, Complete(status));
      FinishIs(s, status);
      FinishLive(s, status);
      assert Ends(more, {s.worker.task});
      EndSome(s, ended, more, {s.worker.task});
    } else {
      assert ended + map[] == ended;
    }
  }

  lemma {:induction false} WorkerApart(s: State)
    requires Accounted(s) && s.worker.Reading?
    ensures s.worker.task !in s.queue
  {
    assert s.worker.task in s.queue <==> s.worker.task in multiset(s.queue);
    OnePlace(s, s.worker.task);
  }

  lemma {:induction false} ShutdownEnds(s: State, ended: map<nat, Code>)
    requires Accounted(s) && EndInv(s, ended)
    ensures EndInv(Next(s, Shutdown), ended + EndedBy(s, Shutdown))
  {
    var more, gone := EndedBy(s, Shutdown), (set t | t in s.queue);
    CancelAllMoves(s.(stopped := true));
    CancelAllHistory(s.(stopped := true));
    if s.worker.Reading? {
      WorkerApart(s);
    }
    EndSome(s, ended, more, gone);
    StopParts(s, Stop(s), ended + more);
  }

  lemma {:induction false} StopParts(s: State, d: State, ended: map<nat, Code>)
    requires SettledAs(s.settled, ended) && CancelledAs(s.cancelled, ended) && ReportedAs(s.worker, ended)
    requires Below(ended, |s.accepted|) && NoneEnded(Live(s) - (set t | t in s.queue), ended)
    requires forall t :: t in s.queue ==> EndsAs(ended, t, NotInitialized)
    requires d.queue == [] && d.cancelled == s.cancelled + s.queue && d.worker == s.worker
    requires d.settled == s.settled && d.accepted == s.accepted && !(s.worker.Reading? && s.worker.task in s.queue)
    ensures EndInv(d, ended)
  {
    assert Live(d) <= Live(s) - (set t | t in s.queue);
  }

  lemma {:induction false} DequeueEnds(s: State, ended: map<nat, Code>)
    requires Accounted(s) && EndInv(s, ended)
    ensures EndInv(Next(s, Dequeue), ended)
  {
    if s.worker.Idle? && s.queue != [] {
      TakeAccounted(s);
    }
  }

  lemma {:induction false} AnnounceEnds(s: State, ended: map<nat, Code>)
    requires EndInv(s, ended)
    ensures EndInv(Next(s, Announce), ended)
  {
    assert Live(Report(s)) == Live(s);
  }

  lemma {:induction false} AnnounceCancelledEnds(s: State, ended: map<nat, Code>)
    requires EndInv(s, ended)
    ensures EndInv(Next(s, AnnounceCancelled), ended)
  {
    assert Live(ReportCancelled(s)) == Live(s);
  }

  lemma {:induction false} SubmitEnds(s: State, a: Action, ended: map<nat, Code>)
    requires Inv(s) && EndInv(s, ended) && a.Submit?
    ensures EndInv(Next(s, a), ended + EndedBy(s, a))
  {
    EnqueueEnds(s, Scheduled(s, a.jobId, a.keys, a.priority, a.scheduled, a.deadline), ended);
  }

  lemma {:induction false} StepEnds(s: State, a: Action, ended: map<nat, Code>)
    requires Inv(s) && EndInv(s, ended)
    ensures EndInv(Next(s, a), ended + EndedBy(s, a))
  {
    assert ended + map[] == ended;
    match a
    case Submit(_, _, _, _, _) => SubmitEnds(s, a, ended);
    case Request(r) => ReadEnds(s, r, ended);
    case GiveUp(n) => SameEnds(s, Leave(s, n), ended);
    case Dequeue => DequeueEnds(s, ended);
    case Complete(status) => CompleteEnds(s, status, ended);
    case Announce => AnnounceEnds(s, ended);
    case Shutdown => ShutdownEnds(s, ended);
    case AnnounceCancelled => AnnounceCancelledEnds(s, ended);
    case Reroute(route) => SameEnds(s, s.(route := route), ended);
  }

  lemma {:induction false} RunEnds(limits: Limits, actions: seq<Action>)
    ensures EndInv(Run(limits, actions), Ended(limits, actions))
  {
    if actions != [] {
      var n := |actions| - 1;
      RunKeeps(limits, actions[..n]);
      RunEnds(limits, actions[..n]);
      StepEnds(Run(limits, actions[..n]), actions[n], Ended(limits, actions[..n]));
    }
  }

  /** In every run, what is signalled for a task is what it ended with: the status its read completed with,
      not initialised if a shutdown cancelled it, exhausted if another task pushed it out. */
  lemma {:induction false} SignalIsTheOutcome(limits: Limits, actions: seq<Action>, x: Settled)
    requires x in Run(limits, actions).settled
    ensures EndsAs(Ended(limits, actions), x.task, x.status)
  {
    RunEnds(limits, actions);
  }
}
