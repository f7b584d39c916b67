/** Due times: `installPlan`, `runDue` and the publication of plans.  Each job is due on the grid of
    its period from the creation of the plan, however late and irregularly the scheduler runs. */
module Scheduler {
  import opened Base
  import opened Domain
  import opened Watch
  import opened Plan
  import opened SampleCredit
  import Q = CollectionQueue
  import QL = QueueLaws

  // ----- The grid of one job -----

  /** How many slots have passed since `created`; the slots are one period apart, the first one
      period after creation. */
  function Elapsed(created: int, now: int, period: int): nat
    requires 0 < period
  {
    if now < created then 0 else (now - created) / period
  }

  function Slot(created: int, period: int, k: int): int { created + k * period }

  /** How far `runDue` moves a job that is next due at `due`. */
  function Steps(due: int, now: int, period: int): nat
    requires 0 < period
  {
    if now < due then 0 else (now - due) / period + 1
  }

  lemma {:induction false} QuotientShifts(x: nat, k: nat, p: positive)
    requires k * p <= x
    ensures (x - k * p) / p == x / p - k
  {
    var q := x / p;
    QuotientBounds(x, p, k);
    QuotientBounds(x, p, q);
    QuotientBounds(x, p, q + 1);
    assert (q - k) * p == q * p - k * p && (q - k + 1) * p == (q + 1) * p - k * p;
    QuotientBounds(x - k * p, p, q - k);
    QuotientBounds(x - k * p, p, q - k + 1);
  }

  /** A job that has used up `k` slots moves to the slot after the last one not after `now`. */
  lemma {:induction false} DueAdvances(created: int, period: int, k: nat, now: int)
    requires 0 < period
    ensures var due := Slot(created, period, k + 1);
            var n := Steps(due, now, period);
            && n == Max(0, Elapsed(created, now, period) - k)
            && due + n * period == Slot(created, period, Max(k, Elapsed(created, now, period)) + 1)
            && now < due + n * period
            && (0 < n ==> due + (n - 1) * period == Slot(created, period, Elapsed(created, now, period)) <= now)
  {
    var due := Slot(created, period, k + 1);
    var e := Elapsed(created, now, period);
    var n := Steps(due, now, period);
    if created <= now {
      QuotientBounds(now - created, period, k + 1);
      QuotientBounds(now - created, period, e);
      QuotientBounds(now - created, period, e + 1);
      if due <= now {
        QuotientShifts(now - created, k + 1, period);
        assert n == e - k;
        assert due + n * period == Slot(created, period, e + 1);
        assert due + (n - 1) * period == Slot(created, period, e);
      } else {
        assert e <= k;
        assert now < due;
      }
    } else {
      assert 0 < (k + 1) * period;
    }
  }

  lemma {:induction false} ElapsedGrows(created: int, a: int, b: int, period: int)
    requires 0 < period
    ensures Elapsed(created, Max(a, b), period) == Max(Elapsed(created, a, period), Elapsed(created, b, period))
  {
    var lo, hi := Min(a, b), Max(a, b);
    if created <= lo {
      QuotientBounds(lo - created, period, Elapsed(created, lo, period));
      QuotientBounds(hi - created, period, Elapsed(created, lo, period));
    }
  }

  // ----- All jobs of a plan -----

  datatype CollectionPlan = CollectionPlan(
    version: uint64, snapshotVersion: uint64, generation: uint64, createdAt: int, jobs: seq<Job>)

  /** The counters `runDue` reports. */
  datatype Summary = Summary(enqueued: nat, missed: nat, busy: nat, rejected: nat) {
    function Total(): nat { enqueued + missed + busy + rejected }

    function Add(s: Summary): Summary {
      Summary(enqueued + s.enqueued, missed + s.missed, busy + s.busy, rejected + s.rejected)
    }
  }

  /** A range of slots handed to `recordSamples` because no task will report them. */
  datatype Logical = Logical(job: Job, first: int, count: nat)

  /** All that the scheduler needs of a plan. */
  ghost predicate Schedulable(jobs: seq<Job>) {
    forall i :: 0 <= i < |jobs| ==> 0 < jobs[i].group.period && jobs[i].items != [] && jobs[i].id == i + 1
  }

  /** The next slot of a job after `t`. */
  function NextSlot(created: int, job: Job, t: int): int
    requires 0 < job.group.period
  {
    Slot(created, job.group.period, Elapsed(created, t, job.group.period) + 1)
  }

  /** The slots of the first `n` jobs up to time `t`. */
  function SlotsPassed(jobs: seq<Job>, n: nat, created: int, t: int): nat
    requires Schedulable(jobs) && n <= |jobs|
  {
    if n == 0 then 0 else SlotsPassed(jobs, n - 1, created, t) + Elapsed(created, t, jobs[n - 1].group.period)
  }

  /** The first `n` jobs have been moved past `now`, the others only past `before`. */
  ghost predicate OnGrid(jobs: seq<Job>, created: int, before: int, now: int, due: map<uint64, int>, n: nat)
    requires Schedulable(jobs)
  {
    forall i :: 0 <= i < |jobs| ==>
                  && jobs[i].id in due
                  && due[jobs[i].id] == NextSlot(created, jobs[i], if i < n then Max(before, now) else before)
  }

  lemma {:induction false} NoSlotsYet(jobs: seq<Job>, n: nat, created: int)
    requires Schedulable(jobs) && n <= |jobs|
    ensures SlotsPassed(jobs, n, created, created) == 0
  {
    if n != 0 {
      NoSlotsYet(jobs, n - 1, created);
    }
  }

  /** What `runDue` does for one due job: `steps` slots are used up, all but the last are missed, and
      the last becomes a task or is rejected. */
  datatype Turn = Turn(steps: nat, summary: Summary, logical: seq<Logical>)

  predicate GoodTurn(t: Turn, job: Job, due: int, now: int)
    requires 0 < job.group.period
  {
    && t.steps == Steps(due, now, job.group.period) && t.summary.Total() == t.steps
    && t.summary.missed == (if t.steps == 0 then 0 else t.steps - 1) && t.summary.enqueued <= 1
    && t.logical == if t.steps == t.summary.enqueued then []
                    else [Logical(job, due, t.steps - t.summary.enqueued)]
  }

  datatype Answer = Queued | KeysBusy | NotQueued

  function AnswerOf(r: Q.EnqueueResult): Answer {
    match r case Accepted => Queued case Busy => KeysBusy case _ => NotQueued
  }

  /** The turn of a job that is due, by what became of its task. */
  function TurnOf(job: Job, due: int, now: int, answer: Answer): (t: Turn)
    requires 0 < job.group.period && due <= now
    ensures GoodTurn(t, job, due, now) && 0 < t.steps && (t.summary.enqueued == 1 <==> answer.Queued?)
  {
    var n := Steps(due, now, job.group.period);
    match answer
    case Queued => Turn(n, Summary(1, n - 1, 0, 0), if 1 < n then [Logical(job, due, n - 1)] else [])
    case KeysBusy => Turn(n, Summary(0, n - 1, 1, 0), [Logical(job, due, n)])
    case NotQueued => Turn(n, Summary(0, n - 1, 0, 1), [Logical(job, due, n)])
  }

  /** What becomes of the last slot of a turn, told from the queue's live tasks: it is counted as enqueued if and only
      if its keys are free and there is room, as busy if and only if a live task needs one of them, else as
      rejected. */
  lemma {:induction false} SlotIsCounted(s: Q.State, job: Job, due: int, now: int, at: int)
    requires Q.Inv(s) && 0 < job.group.period && due <= now
    ensures var answer := AnswerOf(Q.Verdict(s, TaskOf(|s.accepted|, job, at)));
            var t := TurnOf(job, due, now, answer);
            && (t.summary.enqueued == 1 <==>
                  !s.stopped && !QL.Clashes(s, KeysOf(job.items)) && QL.HasRoom(s, job.priority))
            && (t.summary.busy == 1 <==> !s.stopped && QL.Clashes(s, KeysOf(job.items)))
            && t.summary.enqueued + t.summary.busy + t.summary.rejected == 1 && t.summary.missed == t.steps - 1
  {
    QL.VerdictIs(s, TaskOf(|s.accepted|, job, at));
  }

  function Covered(logical: seq<Logical>, period: int): seq<int> {
    if logical == [] then [] else Instants(logical[0].first, period, 0, logical[0].count)
  }

  /** The slots reported at once and the slot of the queued task are together exactly the slots from
      the one that was due to the last one not after `now`. */
  lemma {:induction false} SlotsAreCovered(t: Turn, job: Job, due: int, now: int)
    requires 0 < job.group.period && GoodTurn(t, job, due, now)
    ensures Covered(t.logical, job.group.period)
            + (if t.summary.enqueued == 1 then [due + (t.steps - 1) * job.group.period] else [])
            == Instants(due, job.group.period, 0, t.steps)
  {}

  /** A turn starts at the first slot after the time reached before. */
  predicate TurnFor(t: Turn, job: Job, created: int, before: int, now: int)
    requires 0 < job.group.period
  {
    GoodTurn(t, job, NextSlot(created, job, before), now)
  }

  /** So the slots of a job between two scheduler times are reported exactly once: those handed over at
      once and the one of the queued task are all of them, in order. */
  lemma {:induction false} AllSlotsReported(t: Turn, job: Job, created: int, before: int, now: int)
    requires 0 < job.group.period && TurnFor(t, job, created, before, now)
    ensures var p := job.group.period;
            var passed := Elapsed(created, Max(before, now), p) - Elapsed(created, before, p);
            && 0 <= passed == t.summary.Total()
            && Covered(t.logical, p)
               + (if t.summary.enqueued == 1 then [Slot(created, p, Elapsed(created, now, p))] else [])
               == Instants(NextSlot(created, job, before), p, 0, passed)
  {
    var p, due := job.group.period, NextSlot(created, job, before);
    DueAdvances(created, p, Elapsed(created, before, p), now);
    ElapsedGrows(created, before, now, p);
    SlotsAreCovered(t, job, due, now);
  }

  /** What the turns of the first jobs report together. */
  function SumOf(turns: seq<Turn>): Summary {
    if turns == [] then Summary(0, 0, 0, 0) else SumOf(turns[..|turns| - 1]).Add(turns[|turns| - 1].summary)
  }

  function LogicalOf(turns: seq<Turn>): seq<Logical> {
    if turns == [] then [] else LogicalOf(turns[..|turns| - 1]) + turns[|turns| - 1].logical
  }

  /** The tasks the queue took for those turns, numbered from `serial`. */
  function TakenFor(turns: seq<Turn>, serial: nat, jobs: seq<Job>, created: int, now: int): seq<Q.Task>
    requires Schedulable(jobs) && |turns| <= |jobs|
  {
    if turns == [] then []
    else
      var n := |turns| - 1;
      var taken := TakenFor(turns[..n], serial, jobs, created, now);
      taken + TakenBy(turns[n], serial + |taken|, jobs[n], created, now)
  }

  function TakenBy(t: Turn, serial: nat, job: Job, created: int, now: int): seq<Q.Task>
    requires 0 < job.group.period
  {
    if t.summary.enqueued == 1 then
      [TaskOf(serial, job, Slot(created, job.group.period, Elapsed(created, now, job.group.period)))]
    else []
  }

  function TaskOf(serial: nat, job: Job, at: int): Q.Task {
    Q.Task(serial, job.id, KeysOf(job.items), job.priority, None, at, at + Window(job.items))
  }

  ghost predicate TurnsFor(turns: seq<Turn>, jobs: seq<Job>, created: int, before: int, now: int)
    requires Schedulable(jobs)
  {
    |turns| <= |jobs| && forall i :: 0 <= i < |turns| ==> TurnAt(turns, jobs, created, before, now, i)
  }

  predicate TurnAt(turns: seq<Turn>, jobs: seq<Job>, created: int, before: int, now: int, i: nat)
    requires Schedulable(jobs) && i < |turns| <= |jobs|
  {
    TurnFor(turns[i], jobs[i], created, before, now)
  }

  /** What has been reported and taken after some of the turns. */
  datatype Mark = Mark(summary: Summary, logical: seq<Logical>, accepted: seq<Q.Task>)

  function MarkAfter(m: Mark, t: Turn, job: Job, created: int, now: int): Mark
    requires 0 < job.group.period
  {
    Mark(m.summary.Add(t.summary), m.logical + t.logical, m.accepted + TakenBy(t, |m.accepted|, job, created, now))
  }

  predicate MarkAt(marks: seq<Mark>, turns: seq<Turn>, jobs: seq<Job>, created: int, now: int, k: nat)
    requires Schedulable(jobs) && k < |turns| <= |jobs| && |marks| == |turns| + 1
  {
    marks[k + 1] == MarkAfter(marks[k], turns[k], jobs[k], created, now)
  }

  ghost predicate MarksFor(marks: seq<Mark>, turns: seq<Turn>, jobs: seq<Job>, created: int, now: int)
    requires Schedulable(jobs)
  {
    && |turns| <= |jobs| && |marks| == |turns| + 1
    && forall k :: 0 <= k < |turns| ==> MarkAt(marks, turns, jobs, created, now, k)
  }

  lemma {:induction false} MarksStep(marks: seq<Mark>, m: Mark, turns: seq<Turn>, t: Turn, jobs: seq<Job>, created: int,
                                     now: int)
    requires Schedulable(jobs) && MarksFor(marks, turns, jobs, created, now) && |turns| < |jobs|
    requires m == MarkAfter(marks[|turns|], t, jobs[|turns|], created, now)
    ensures MarksFor(marks + [m], turns + [t], jobs, created, now)
  {
    forall k | 0 <= k < |turns| + 1 ensures MarkAt(marks + [m], turns + [t], jobs, created, now, k) {
      assert k < |turns| ==> MarkAt(marks, turns, jobs, created, now, k);
    }
  }

  /** The last mark sums up all turns. */
  lemma {:induction false} MarksTell(marks: seq<Mark>, turns: seq<Turn>, jobs: seq<Job>, created: int, now: int)
    requires Schedulable(jobs) && MarksFor(marks, turns, jobs, created, now)
    requires marks[0].summary == Summary(0, 0, 0, 0) && marks[0].logical == []
    ensures var last, first := marks[|turns|], marks[0].accepted;
            && last.summary == SumOf(turns) && last.logical == LogicalOf(turns)
            && last.accepted == first + TakenFor(turns, |first|, jobs, created, now)
  {
    if turns == [] {
      assert marks[0].accepted + [] == marks[0].accepted;
    } else {
      var n := |turns| - 1;
      var m, t := marks[..n + 1], turns[..n];
      forall k | 0 <= k < n ensures MarkAt(m, t, jobs, created, now, k) {
        assert MarkAt(marks, turns, jobs, created, now, k);
      }
      MarksTell(m, t, jobs, created, now);
      assert MarkAt(marks, turns, jobs, created, now, n);
      TakenStep(marks[0].accepted, turns, jobs, created, now);
    }
  }

  lemma {:induction false} TakenStep(first: seq<Q.Task>, turns: seq<Turn>, jobs: seq<Job>, created: int, now: int)
    requires Schedulable(jobs) && 0 < |turns| <= |jobs|
    ensures var n := |turns| - 1;
            var before := first + TakenFor(turns[..n], |first|, jobs, created, now);
            first + TakenFor(turns, |first|, jobs, created, now) ==
            before + TakenBy(turns[n], |before|, jobs[n], created, now)
  {}

  lemma {:induction false} TurnsStep(turns: seq<Turn>, t: Turn, jobs: seq<Job>, created: int, before: int, now: int)
    requires Schedulable(jobs) && |turns| < |jobs| && TurnsFor(turns, jobs, created, before, now)
    requires TurnFor(t, jobs[|turns|], created, before, now)
    ensures TurnsFor(turns + [t], jobs, created, before, now)
  {
    var all := turns + [t];
    forall i | 0 <= i < |all| ensures TurnAt(all, jobs, created, before, now, i) {
      assert i < |turns| ==> TurnAt(turns, jobs, created, before, now, i);
    }
  }

  /** The queue took as many tasks as the turns count. */
  lemma {:induction false} TakenCount(turns: seq<Turn>, serial: nat, jobs: seq<Job>, created: int, before: int,
                                      now: int)
    requires Schedulable(jobs) && TurnsFor(turns, jobs, created, before, now)
    ensures |TakenFor(turns, serial, jobs, created, now)| == SumOf(turns).enqueued
  {
    if turns != [] {
      var n := |turns| - 1;
      forall i | 0 <= i < n ensures TurnAt(turns[..n], jobs, created, before, now, i) {
        assert TurnAt(turns, jobs, created, before, now, i);
      }
      TakenCount(turns[..n], serial, jobs, created, before, now);
      assert TurnAt(turns, jobs, created, before, now, n);
    }
  }

  /** What is queued for a slot of a job. */
  ghost predicate IsTaskFor(a: Q.Action, job: Job, created: int, now: int)
    requires 0 < job.group.period
  {
    && a.Submit? && a.jobId == job.id && a.priority == job.priority && a.keys == KeysOf(job.items)
    && a.scheduled == Slot(created, job.group.period, Elapsed(created, now, job.group.period)) <= now
    && a.deadline == a.scheduled + Window(job.items)
  }

  function KeysOf(items: seq<Item>): seq<DataKey> {
    seq(|items|, i requires 0 <= i < |items| => DataKey(items[i].key.entity, items[i].key.dataId))
  }

  /** The shortest freshness of the items. */
  function Window(items: seq<Item>): int {
    if items == [] then 0
    else if |items| == 1 then items[0].freshness
    else Min(Window(items[..|items| - 1]), items[|items| - 1].freshness)
  }

  ghost predicate LeastFreshness(items: seq<Item>, window: int) {
    && (forall k :: 0 <= k < |items| ==> window <= items[k].freshness)
    && exists k :: 0 <= k < |items| && window == items[k].freshness
  }

  lemma {:induction false} WindowIsLeast(items: seq<Item>)
    requires items != []
    ensures LeastFreshness(items, Window(items))
  {
    if 1 < |items| {
      var rest := items[..|items| - 1];
      WindowIsLeast(rest);
      assert forall k :: 0 <= k < |rest| ==> rest[k] == items[k];
    }
  }

  method RequestOf(items: seq<Item>) returns (keys: seq<DataKey>, window: int)
    requires items != []
    ensures keys == KeysOf(items) && window == Window(items)
    ensures LeastFreshness(items, window)
  {
    window := items[0].freshness;
    keys := [];
    for i := 0 to |items|
      invariant keys == KeysOf(items[..i]) && window == (if i == 0 then items[0].freshness else Window(items[..i]))
    {
      assert items[..i + 1][..i] == items[..i];
      window := Min(window, items[i].freshness);
      keys := keys + [DataKey(items[i].key.entity, items[i].key.dataId)];
    }
    assert items[..|items|] == items;
    WindowIsLeast(items);
  }

  lemma {:induction false} PastNow(created: int, job: Job, t: int)
    requires 0 < job.group.period
    ensures t < NextSlot(created, job, t)
  {
    DueAdvances(created, job.group.period, Elapsed(created, t, job.group.period), t);
  }

  /** Moving one more job past `now`. */
  lemma {:induction false} GridStep(jobs: seq<Job>, created: int, before: int, now: int,
                                    due: map<uint64, int>, i: nat)
    requires Schedulable(jobs) && i < |jobs| && OnGrid(jobs, created, before, now, due, i)
    ensures var p, d := jobs[i].group.period, due[jobs[i].id];
            && OnGrid(jobs, created, before, now, due[jobs[i].id := d + Steps(d, now, p) * p], i + 1)
            && Elapsed(created, Max(before, now), p) == Elapsed(created, before, p) + Steps(d, now, p)
            && (0 < Steps(d, now, p) ==>
                  d + (Steps(d, now, p) - 1) * p == Slot(created, p, Elapsed(created, now, p)) <= now)
  {
    var p := jobs[i].group.period;
    DueAdvances(created, p, Elapsed(created, before, p), now);
    ElapsedGrows(created, before, now, p);
  }

  /** The actions from `from` on are tasks of the first `n` jobs, at most one each and in their order. */
  ghost predicate TasksOf(actions: seq<Q.Action>, from: nat, jobs: seq<Job>, created: int, now: int, n: nat)
    requires n <= |jobs| && Schedulable(jobs)
  {
    && from <= |actions|
    && (forall k :: from <= k < |actions| ==>
                      actions[k].Submit? && 1 <= actions[k].jobId <= n
                      && IsTaskFor(actions[k], jobs[actions[k].jobId - 1], created, now))
    && (forall k, l :: from <= k < l < |actions| ==> actions[k].jobId < actions[l].jobId)
  }

  function TaskFor(job: Job, at: int): Q.Action {
    Q.Submit(job.id, KeysOf(job.items), job.priority, at, at + Window(job.items))
  }

  lemma {:induction false} TasksStep(actions: seq<Q.Action>, from: nat, jobs: seq<Job>, created: int,
                                     now: int, i: nat)
    requires Schedulable(jobs) && i < |jobs| && TasksOf(actions, from, jobs, created, now, i)
    ensures TasksOf(actions, from, jobs, created, now, i + 1)
    ensures var at := Slot(created, jobs[i].group.period, Elapsed(created, now, jobs[i].group.period));
            at <= now ==> TasksOf(actions + [TaskFor(jobs[i], at)], from, jobs, created, now, i + 1)
  {}

  class Coordinator {
    const maxJobs: positive
    const maxBatch: positive
    const runtime: Q.Runtime
    var plan: CollectionPlan
    var nextDue: map<uint64, int>
    var installed: uint64
    var nextRequest: uint64
    ghost var latest: int
    ghost var totals: Summary

    /** Since the plan was installed, every job is next due at its first slot after the latest
        scheduler time, and the reported counters add up to all slots that have passed. */
    ghost predicate Valid()
      reads this, runtime
    {
      && runtime.Valid() && Schedulable(plan.jobs) && installed <= plan.version
      && (installed == plan.version ==>
            && OnGrid(plan.jobs, plan.createdAt, latest, latest, nextDue, 0)
            && totals.Total() == SlotsPassed(plan.jobs, |plan.jobs|, plan.createdAt, latest))
    }

    constructor (maxJobs: positive, maxBatch: positive, limits: Q.Limits)
      ensures Valid() && fresh(runtime) && plan.jobs == []
    {
      this.maxJobs, this.maxBatch := maxJobs, maxBatch;
      plan := CollectionPlan(0, 0, 0, 0, []);
      nextDue, installed, nextRequest, latest, totals := map[], 0, 1, 0, Summary(0, 0, 0, 0);
      runtime := new Q.Runtime(limits);
    }

    /** `installPlan`. */
    method Install()
      requires Valid()
      modifies `installed, `nextDue, `latest, `totals
      ensures Valid() && installed == plan.version && latest == plan.createdAt && totals == Summary(0, 0, 0, 0)
    {
      installed, latest, totals := plan.version, plan.createdAt, Summary(0, 0, 0, 0);
      nextDue := map[];
      for i := 0 to |plan.jobs|
        invariant installed == plan.version && latest == plan.createdAt && totals == Summary(0, 0, 0, 0)
        invariant forall j :: 0 <= j < i ==>
                                && plan.jobs[j].id in nextDue
                                && nextDue[plan.jobs[j].id] == plan.createdAt + plan.jobs[j].group.period
      {
        nextDue := nextDue[plan.jobs[i].id := plan.createdAt + plan.jobs[i].group.period];
      }
      NoSlotsYet(plan.jobs, |plan.jobs|, plan.createdAt);
    }

    /** `applyWatchSnapshot`: compiles a snapshot and publishes it as the next plan. */
    method ApplySnapshot(generation: uint64, dataGeneration: uint64, version: uint64, es: seq<Effective>,
                         data: DataCatalog, now: int)
      returns (status: Code)
      requires Valid()
      modifies `plan
      ensures Valid()
      ensures status == if generation == 0 || generation != dataGeneration then StaleGeneration
                        else if !Fine(es, data) then InvalidArgument
                        else if |Batches(es, maxBatch)| > Min(maxJobs, UINT64_MAX - 1) then ResourceExhausted
                        else if old(plan).version == UINT64_MAX then Internal
                        else Success
      ensures !status.Success? ==> plan == old(plan)
      ensures status.Success? ==>
                && plan == CollectionPlan(old(plan).version + 1, version, generation, now, plan.jobs)
                && Numbered(plan.jobs, Batches(es, maxBatch))
    {
      if generation == 0 || generation != dataGeneration {
        return StaleGeneration;
      }
      var jobs;
      status, jobs := Compile(es, data, maxBatch, maxJobs);
      if !status.Success? {
        return;
      }
      if plan.version == UINT64_MAX {
        return Internal;
      }
      forall i | 0 <= i < |jobs| ensures GoodJob(jobs[i], maxBatch) && jobs[i].id == i + 1 {
        JobsAreGood(es, data, maxBatch, jobs, i);
      }
      plan := CollectionPlan(plan.version + 1, version, generation, now, jobs);
    }

    /** `allocateRequestId`: zero when the numbers are used up. */
    method AllocateRequest() returns (id: uint64)
      modifies `nextRequest
      ensures id == 0 ==> nextRequest == old(nextRequest) && nextRequest in {0, UINT64_MAX}
      ensures id != 0 ==> id == old(nextRequest) && nextRequest == id + 1
    {
      if nextRequest == 0 || nextRequest == UINT64_MAX {
        return 0;
      }
      id := nextRequest;
      nextRequest := nextRequest + 1;
    }

    /** What becomes of a task: without a request id it is not offered, else the queue decides. */
    ghost function AnswerFor(job: Job, at: int): Answer
      reads this, runtime
    {
      if nextRequest in {0, UINT64_MAX} then NotQueued
      else AnswerOf(Q.Verdict(runtime.View(), TaskOf(|runtime.accepted|, job, at)))
    }

    /** Makes a task for a slot and offers it to the queue. */
    method Offer(job: Job, at: int) returns (answer: Answer)
      requires runtime.Valid() && job.items != []
      modifies runtime, `nextRequest
      ensures runtime.Valid() && answer == old(AnswerFor(job, at))
      ensures runtime.actions == old(runtime.actions) + [TaskFor(job, at)]
              || (runtime.actions == old(runtime.actions) && answer.NotQueued?)
      ensures runtime.accepted == old(runtime.accepted) +
                                  if answer.Queued? then [TaskOf(|old(runtime.accepted)|, job, at)] else []
    {
      var keys, window := RequestOf(job.items);
      var request := AllocateRequest();
      if request == 0 {
        return NotQueued;
      }
      var result := runtime.SubmitJob(job.id, keys, job.priority, at, at + window);
      answer := AnswerOf(result);
    }

    /** The body of the loop of `runDue` for a job that is due. */
    method RunJob(job: Job, due: int, now: int) returns (turn: Turn)
      requires runtime.Valid() && 0 < job.group.period && job.items != [] && due <= now
      modifies runtime, `nextRequest
      ensures runtime.Valid() && 0 < turn.steps
      ensures var at := due + (Steps(due, now, job.group.period) - 1) * job.group.period;
              turn == TurnOf(job, due, now, old(AnswerFor(job, at)))
      ensures var at := due + (turn.steps - 1) * job.group.period;
              && (runtime.actions == old(runtime.actions) + [TaskFor(job, at)]
                  || (runtime.actions == old(runtime.actions) && turn.summary.enqueued == 0))
              && runtime.accepted == old(runtime.accepted) +
                                     if turn.summary.enqueued == 1 then [TaskOf(|old(runtime.accepted)|, job, at)]
                                     else []
    {
      var steps := Steps(due, now, job.group.period);
      var answer := Offer(job, due + (steps - 1) * job.group.period);
      turn := TurnOf(job, due, now, answer);
    }

    /** One turn of the loop of `runDue`. */
    method RunNext(i: nat, now: int) returns (turn: Turn)
      requires runtime.Valid() && Schedulable(plan.jobs) && i < |plan.jobs|
      requires OnGrid(plan.jobs, plan.createdAt, latest, now, nextDue, i)
      modifies runtime, `nextRequest, `nextDue
      ensures runtime.Valid() && OnGrid(plan.jobs, plan.createdAt, latest, now, nextDue, i + 1)
      ensures TurnFor(turn, plan.jobs[i], plan.createdAt, latest, now)
      ensures var p := plan.jobs[i].group.period;
              Elapsed(plan.createdAt, Max(latest, now), p) == Elapsed(plan.createdAt, latest, p) + turn.summary.Total()
      ensures var p := plan.jobs[i].group.period;
              var at := Slot(plan.createdAt, p, Elapsed(plan.createdAt, now, p));
              || (runtime.actions == old(runtime.actions) && turn.summary.enqueued == 0)
              || (runtime.actions == old(runtime.actions) + [TaskFor(plan.jobs[i], at)] && at <= now)
      ensures runtime.accepted ==
              old(runtime.accepted) + TakenBy(turn, |old(runtime.accepted)|, plan.jobs[i], plan.createdAt, now)
    {
      var job := plan.jobs[i];
      var due := nextDue[job.id];
      GridStep(plan.jobs, plan.createdAt, latest, now, nextDue, i);
      if due <= now {
        turn := RunJob(job, due, now);
        nextDue := nextDue[job.id := due + turn.steps * job.group.period];
      } else {
        assert nextDue[job.id := due] == nextDue;
        turn := Turn(0, Summary(0, 0, 0, 0), []);
      }
    }

    /** The loop of `runDue`. */
    method RunJobs(now: int) returns (summary: Summary, logical: seq<Logical>, ghost turns: seq<Turn>)
      requires Valid() && installed == plan.version
      modifies runtime, `nextRequest, `nextDue
      ensures runtime.Valid()
      ensures OnGrid(plan.jobs, plan.createdAt, latest, now, nextDue, |plan.jobs|)
      ensures SlotsPassed(plan.jobs, |plan.jobs|, plan.createdAt, Max(latest, now)) ==
              SlotsPassed(plan.jobs, |plan.jobs|, plan.createdAt, latest) + summary.Total()
      ensures old(runtime.actions) <= runtime.actions
      ensures TasksOf(runtime.actions, |old(runtime.actions)|, plan.jobs, plan.createdAt, now, |plan.jobs|)
      ensures |turns| == |plan.jobs| && TurnsFor(turns, plan.jobs, plan.createdAt, latest, now)
      ensures summary == SumOf(turns) && logical == LogicalOf(turns)
      ensures runtime.accepted ==
              old(runtime.accepted) + TakenFor(turns, |old(runtime.accepted)|, plan.jobs, plan.createdAt, now)
    {
      summary, logical, turns := Summary(0, 0, 0, 0), [], [];
      ghost var jobs, created, before, from := plan.jobs, plan.createdAt, latest, |runtime.actions|;
      ghost var marks := [Mark(summary, logical, runtime.accepted)];
      for i := 0 to |plan.jobs|
        invariant runtime.Valid() && OnGrid(jobs, created, before, now, nextDue, i)
        invariant SlotsPassed(jobs, i, created, Max(before, now)) ==
                  SlotsPassed(jobs, i, created, before) + summary.Total()
        invariant old(runtime.actions) <= runtime.actions && TasksOf(runtime.actions, from, jobs, created, now, i)
        invariant |turns| == i && TurnsFor(turns, jobs, created, before, now)
        invariant MarksFor(marks, turns, jobs, created, now)
        invariant marks[0] == Mark(Summary(0, 0, 0, 0), [], old(runtime.accepted))
        invariant marks[i] == Mark(summary, logical, runtime.accepted)
      {
        TasksStep(runtime.actions, from, jobs, created, now, i);
        var turn := RunNext(i, now);
        TurnsStep(turns, turn, jobs, created, before, now);
        summary, logical := summary.Add(turn.summary), logical + turn.logical;
        MarksStep(marks, Mark(summary, logical, runtime.accepted), turns, turn, jobs, created, now);
        marks, turns := marks + [Mark(summary, logical, runtime.accepted)], turns + [turn];
      }
      MarksTell(marks, turns, jobs, created, now);
    }

    /** `runDue` for the installed plan. */
    method RunInstalled(now: int) returns (summary: Summary, logical: seq<Logical>, ghost turns: seq<Turn>)
      requires Valid() && installed == plan.version
      modifies runtime, `nextRequest, `nextDue, `latest, `totals
      ensures Valid() && latest == Max(old(latest), now) && totals == old(totals).Add(summary)
      ensures old(runtime.actions) <= runtime.actions
      ensures TasksOf(runtime.actions, |old(runtime.actions)|, plan.jobs, plan.createdAt, now, |plan.jobs|)
      ensures forall i :: 0 <= i < |plan.jobs| ==> plan.jobs[i].id in nextDue && now < nextDue[plan.jobs[i].id]
      ensures |turns| == |plan.jobs| && TurnsFor(turns, plan.jobs, plan.createdAt, old(latest), now)
      ensures summary == SumOf(turns) && logical == LogicalOf(turns)
      ensures runtime.accepted ==
              old(runtime.accepted) + TakenFor(turns, |old(runtime.accepted)|, plan.jobs, plan.createdAt, now)
    {
      summary, logical, turns := RunJobs(now);
      latest, totals := Max(latest, now), totals.Add(summary);
      forall i | 0 <= i < |plan.jobs| ensures plan.jobs[i].id in nextDue && now < nextDue[plan.jobs[i].id] {
        PastNow(plan.createdAt, plan.jobs[i], latest);
      }
    }

    /** The scheduler time that the slots of the present plan are counted from. */
    ghost function Reached(): int
      reads this
    {
      if installed == plan.version then latest else plan.createdAt
    }

    /** `runDue`: the slots that are due are used up, each job is offered to the queue at most once, for
        its latest slot, and every slot is counted; what is handed over as logical and what the queue
        took are those of the jobs' turns, in order. */
    method RunDue(now: int)
      returns (status: Code, summary: Summary, logical: seq<Logical>, ghost turns: seq<Turn>)
      requires Valid()
      modifies runtime, this
      ensures Valid() && plan == old(plan)
      ensures status == if now < 0 then InvalidArgument else if old(runtime.stopped) then NotInitialized
                        else if summary.busy == 0 && summary.rejected == 0 then Success else PartialResult
      ensures !Readable(status) ==> runtime.actions == old(runtime.actions) && nextDue == old(nextDue) && logical == []
      ensures Readable(status) ==>
                && installed == plan.version && latest == Max(old(Reached()), now)
                && totals == (if old(installed) == plan.version then old(totals) else Summary(0, 0, 0, 0)).Add(summary)
                && old(runtime.actions) <= runtime.actions
                && TasksOf(runtime.actions, |old(runtime.actions)|, plan.jobs, plan.createdAt, now, |plan.jobs|)
                && forall i :: 0 <= i < |plan.jobs| ==> plan.jobs[i].id in nextDue && now < nextDue[plan.jobs[i].id]
      ensures Readable(status) ==>
                && |turns| == |plan.jobs| && TurnsFor(turns, plan.jobs, plan.createdAt, old(Reached()), now)
                && summary == SumOf(turns) && logical == LogicalOf(turns)
                && runtime.accepted ==
                   old(runtime.accepted) + TakenFor(turns, |old(runtime.accepted)|, plan.jobs, plan.createdAt, now)
                && |runtime.accepted| == |old(runtime.accepted)| + summary.enqueued
    {
      summary, logical, turns := Summary(0, 0, 0, 0), [], [];
      if now < 0 {
        return InvalidArgument, summary, logical, turns;
      }
      if runtime.stopped {
        return NotInitialized, summary, logical, turns;
      }
      if installed != plan.version {
        Install();
      }
      ghost var before, serial := latest, |runtime.accepted|;
      summary, logical, turns := RunInstalled(now);
      TakenCount(turns, serial, plan.jobs, plan.createdAt, before, now);
      status := if summary.busy == 0 && summary.rejected == 0 then Success else PartialResult;
    }
  }
}
