/** One batch of tasks in runs of the pool itself, with a clock that moves only when nothing but a sleeping or
    running task is left to move: the schedule that Lateness assumes is the one these runs have. */
module BatchRun {
  import opened Lateness
  import P = ThreadPool

  // ----- no idle worker beside a waiting task

  const IsReady: P.WorkerPc -> bool := (pc: P.WorkerPc) => !pc.Running? && !pc.Blocked?

  /** Either the workers on their way to the list and the notifications owed cover the list, or the
      notifications cover all the workers asleep. */
  ghost predicate OnTheWay<T>(s: P.Pool<T>) {
    || P.PendingNotifies(s) + P.Count(s.workers, IsReady) >= |s.tasks|
    || P.PendingNotifies(s) >= P.Count(s.workers, P.IsBlocked)
  }

  ghost predicate Open<T>(s: P.Pool<T>) { P.Inv(s) && s.shutdown.NotCalled? && OnTheWay(s) }

  lemma OnTheWayWorker<T>(s: P.Pool<T>, w: nat)
    requires P.FlagInv(s) && !s.terminate && OnTheWay(s) && P.Enabled(s, P.WorkerStep(w))
    ensures OnTheWay(P.WorkerMove(s, w))
  {
    var pc := P.WorkerMove(s, w).workers[w];
    assert P.WorkerKnows(s.workers[w], s.tasks == [], s.terminate);
    P.CountUpdate(s.workers, w, pc, IsReady);
    P.CountUpdate(s.workers, w, pc, P.IsBlocked);
  }

  lemma OnTheWayClient<T>(s: P.Pool<T>, c: nat, v: nat)
    requires OnTheWay(s) && P.Enabled(s, P.ClientStep(c, v))
    ensures OnTheWay(P.ClientMove(s, c, v))
  {
    P.CountUpdate(s.clients, c, P.ClientMove(s, c, v).clients[c], P.IsNotifying<T>());
    if s.clients[c].Notifying? {
      if v < |s.workers| && s.workers[v].Blocked? {
        P.CountUpdate(s.workers, v, P.Woken, IsReady);
        P.CountUpdate(s.workers, v, P.Woken, P.IsBlocked);
      } else {
        P.CountNone(s.workers, P.IsBlocked);
      }
    }
  }

  lemma OpenStep<T>(s: P.Pool<T>, p: P.Step<T>)
    requires Open(s) && P.Enabled(s, p) && !p.CallShutdown?
    ensures Open(P.Apply(s, p))
  {
    P.InvStep(s, p);
    match p
    case WorkerStep(w) => OnTheWayWorker(s, w);
    case Spurious(w) =>
      P.CountUpdate(s.workers, w, P.Woken, IsReady);
      P.CountUpdate(s.workers, w, P.Woken, P.IsBlocked);
    case Call(c, task) => P.CountUpdate(s.clients, c, P.WantPush(task), P.IsNotifying<T>());
    case ClientStep(c, v) => OnTheWayClient(s, c, v);
    case _ =>
  }

  // ----- the pool with a clock

  /** `busy[w]` is when worker w's last function ends; `popped` and `who` say when and by whom each dispatched
      task was taken. */
  datatype Timed = Timed(
    pool: P.Pool<Job>, handed: int, now: int, busy: seq<int>, popped: seq<int>, who: seq<nat>)

  datatype Step = Move(p: P.Step<Job>) | Tick

  /** An idle pool at the moment in which the drain reads the clock. */
  ghost predicate Init(s: Timed) {
    && P.Init(s.pool) && s.now == s.handed && s.popped == [] && s.who == []
    && s.busy == seq(|s.pool.workers|, _ => s.handed)
  }

  /** A worker leaves its task once the function has ended; the batch is handed over at one reading; the pool
      is not shut down meanwhile. */
  predicate CanMove(s: Timed, p: P.Step<Job>) {
    && P.Enabled(s.pool, p) && !p.CallShutdown?
    && (p.WorkerStep? ==> p.w < |s.busy| && (s.pool.workers[p.w].Running? ==> s.busy[p.w] <= s.now))
    && (p.Call? ==> s.now == s.handed)
  }

  /** Nothing can move without a new call or a spurious wakeup. */
  ghost predicate Quiet(s: Timed) {
    && (forall w: nat :: !CanMove(s, P.WorkerStep(w)))
    && (forall c: nat, v: nat :: !CanMove(s, P.ClientStep(c, v)))
  }

  ghost predicate Enabled(s: Timed, step: Step) {
    match step
    case Move(p) => CanMove(s, p)
    case Tick => Quiet(s)
  }

  predicate Takes(s: Timed, p: P.Step<Job>)
    requires CanMove(s, p)
  {
    p.WorkerStep? && s.pool.workers[p.w].Popping? && s.pool.tasks != []
  }

  /** The lambda sleeps until the task's time point and then runs the function. */
  ghost function Apply(s: Timed, step: Step): Timed
    requires Enabled(s, step)
  {
    match step
    case Tick => s.(now := s.now + 1)
    case Move(p) =>
      var t := s.(pool := P.Apply(s.pool, p));
      if Takes(s, p) then
        var job := s.pool.tasks[0];
        t.(busy := s.busy[p.w := Max(job.due, s.now) + job.time], popped := s.popped + [s.now], who := s.who + [p.w])
      else t
  }

  ghost predicate Runs(s: Timed, steps: seq<Step>, t: Timed)
    decreases steps
  {
    if steps == [] then t == s
    else Enabled(s, steps[0]) && Runs(Apply(s, steps[0]), steps[1..], t)
  }

  // ----- the clock

  ghost predicate ClockInv(s: Timed) {
    && s.handed <= s.now && |s.busy| == |s.pool.workers|
    && (forall w :: 0 <= w < |s.busy| ==>
          && s.handed <= s.busy[w]
          && (if s.pool.workers[w].Running? then s.now <= s.busy[w] else s.busy[w] <= s.now))
    && (s.pool.tasks != [] ==> forall w :: 0 <= w < |s.busy| ==> s.now <= s.busy[w])
    && (forall c :: 0 <= c < |s.pool.clients| && !s.pool.clients[c].Outside? ==> s.now == s.handed)
  }

  /** When nothing can move, the mutex is free, every worker sleeps or is still at its task, and no caller is
      inside `execute`. */
  lemma OwnerCanMove(s: Timed)
    requires Open(s.pool) && |s.busy| == |s.pool.workers|
    ensures s.pool.mtx.ByWorker? ==> CanMove(s, P.WorkerStep(s.pool.mtx.w))
    ensures s.pool.mtx.ByClient? ==> CanMove(s, P.ClientStep(s.pool.mtx.c, 0))
  {
    if s.pool.mtx.ByWorker? { assert P.OwnsMutex(s.pool.workers[s.pool.mtx.w]); }
  }

  lemma QuietMutex(s: Timed)
    requires Open(s.pool) && Quiet(s) && |s.busy| == |s.pool.workers|
    ensures s.pool.mtx.Free?
  {
    OwnerCanMove(s);
  }

  lemma QuietWorkers(s: Timed)
    requires Open(s.pool) && Quiet(s) && |s.busy| == |s.pool.workers|
    ensures forall w :: 0 <= w < |s.busy| ==>
      s.pool.workers[w].Blocked? || (s.pool.workers[w].Running? && s.now < s.busy[w])
  {
    QuietMutex(s);
    forall w | 0 <= w < |s.busy|
      ensures s.pool.workers[w].Blocked? || (s.pool.workers[w].Running? && s.now < s.busy[w])
    {
      assert P.WorkerKnows(s.pool.workers[w], s.pool.tasks == [], s.pool.terminate);
      assert !CanMove(s, P.WorkerStep(w));
    }
  }

  lemma QuietClients(s: Timed)
    requires Open(s.pool) && Quiet(s) && |s.busy| == |s.pool.workers|
    ensures forall c :: 0 <= c < |s.pool.clients| ==> s.pool.clients[c].Outside?
  {
    QuietMutex(s);
    forall c | 0 <= c < |s.pool.clients| ensures s.pool.clients[c].Outside? {
      var v := 0;
      if !P.NobodyBlocked(s.pool.workers) { v :| 0 <= v < |s.pool.workers| && s.pool.workers[v].Blocked?; }
      assert !CanMove(s, P.ClientStep(c, v));
    }
  }

  lemma {:induction false} SomeCounted<X>(xs: seq<X>, i: nat, p: X -> bool)
    requires i < |xs| && p(xs[i])
    ensures P.Count(xs, p) > 0
  {
    if i > 0 { SomeCounted(xs[1..], i - 1, p); }
  }

  /** No task waits beside an idle worker when nothing can move. */
  lemma QuietBusy(s: Timed)
    requires Open(s.pool) && Quiet(s) && |s.busy| == |s.pool.workers| && s.pool.tasks != []
    ensures forall w :: 0 <= w < |s.busy| ==> s.pool.workers[w].Running? && s.now < s.busy[w]
  {
    QuietWorkers(s);
    QuietClients(s);
    P.CountNone(s.pool.clients, P.IsNotifying<Job>());
    P.CountNone(s.pool.workers, IsReady);
    forall w | 0 <= w < |s.busy| ensures !s.pool.workers[w].Blocked? {
      if s.pool.workers[w].Blocked? { SomeCounted(s.pool.workers, w, P.IsBlocked); }
    }
  }

  lemma ClockTick(s: Timed)
    requires Open(s.pool) && ClockInv(s) && Quiet(s)
    ensures ClockInv(Apply(s, Tick))
  {
    QuietWorkers(s);
    QuietClients(s);
    if s.pool.tasks != [] { QuietBusy(s); }
  }

  lemma ClockWorker(s: Timed, w: nat)
    requires Open(s.pool) && ClockInv(s) && CanMove(s, P.WorkerStep(w))
    ensures ClockInv(Apply(s, Move(P.WorkerStep(w))))
  {
    assert P.WorkerKnows(s.pool.workers[w], s.pool.tasks == [], s.pool.terminate);
  }

  lemma ClockClient(s: Timed, c: nat, v: nat)
    requires Open(s.pool) && ClockInv(s) && CanMove(s, P.ClientStep(c, v))
    ensures ClockInv(Apply(s, Move(P.ClientStep(c, v))))
  {
  }

  lemma ClockStep(s: Timed, step: Step)
    requires Open(s.pool) && ClockInv(s) && Enabled(s, step)
    ensures ClockInv(Apply(s, step))
  {
    match step
    case Tick => ClockTick(s);
    case Move(p) =>
      match p
      case WorkerStep(w) => ClockWorker(s, w);
      case ClientStep(c, v) => ClockClient(s, c, v);
      case _ =>
  }

  // ----- the schedule

  ghost function BatchOf(s: Timed): Batch { Batch(s.handed, |s.pool.workers|, s.pool.dispatched, s.who) }

  /** Job k was taken at time `at`, by a worker that was free no later than the others, when it was free. */
  ghost predicate TakenAt(b: Batch, k: nat, at: int)
    requires Assigned(b) && k < |b.jobs|
  {
    Earliest(Free(b, k), b.who[k]) && at == Free(b, k)[b.who[k]]
  }

  ghost predicate Scheduled(b: Batch, busy: seq<int>, popped: seq<int>) {
    && Assigned(b) && |popped| == |b.jobs| && busy == Free(b, |b.jobs|)
    && forall k :: 0 <= k < |b.jobs| ==> TakenAt(b, k, popped[k])
  }

  function More(b: Batch, job: Job, w: nat): Batch { b.(jobs := b.jobs + [job], who := b.who + [w]) }

  lemma {:induction false} FreeOfMore(b: Batch, job: Job, w: nat, k: nat)
    requires Assigned(b) && w < b.workers && k <= |b.jobs|
    ensures Assigned(More(b, job, w)) && Free(More(b, job, w), k) == Free(b, k)
  {
    if k > 0 { FreeOfMore(b, job, w, k - 1); }
  }

  lemma FreeNext(b: Batch, job: Job, w: nat)
    requires Assigned(b) && w < b.workers
    ensures var c, n, free := More(b, job, w), |b.jobs|, Free(b, |b.jobs|);
      Assigned(c) && Start(c, n) == Max(job.due, free[w])
      && Free(c, n + 1) == free[w := Max(job.due, free[w]) + job.time]
  {
    var c, n := More(b, job, w), |b.jobs|;
    FreeOfMore(b, job, w, n);
    assert c.who[n] == w && c.jobs[n] == job;
  }

  lemma TakenBefore(b: Batch, job: Job, w: nat, k: nat, at: int)
    requires Assigned(b) && w < b.workers && k < |b.jobs| && TakenAt(b, k, at)
    ensures Assigned(More(b, job, w)) && TakenAt(More(b, job, w), k, at)
  {
    FreeOfMore(b, job, w, k);
  }

  lemma TakenNow(b: Batch, job: Job, w: nat)
    requires Assigned(b) && w < b.workers && Earliest(Free(b, |b.jobs|), w)
    ensures Assigned(More(b, job, w)) && TakenAt(More(b, job, w), |b.jobs|, Free(b, |b.jobs|)[w])
  {
    FreeOfMore(b, job, w, |b.jobs|);
  }

  lemma ScheduledMore(b: Batch, busy: seq<int>, popped: seq<int>, job: Job, w: nat)
    requires Scheduled(b, busy, popped) && w < b.workers && Earliest(busy, w)
    ensures Scheduled(More(b, job, w), busy[w := Max(job.due, busy[w]) + job.time], popped + [busy[w]])
  {
    FreeNext(b, job, w);
    TakenNow(b, job, w);
    forall k | 0 <= k < |b.jobs| ensures TakenAt(More(b, job, w), k, (popped + [busy[w]])[k]) {
      TakenBefore(b, job, w, k, popped[k]);
    }
  }

  ghost predicate ScheduleInv(s: Timed) { Scheduled(BatchOf(s), s.busy, s.popped) }

  /** A worker takes a task the moment it is free. */
  lemma TakerIsFree(s: Timed, w: nat)
    requires ClockInv(s) && CanMove(s, P.WorkerStep(w)) && Takes(s, P.WorkerStep(w))
    ensures s.busy[w] == s.now && Earliest(s.busy, w)
  {
  }

  lemma TakesHead(s: Timed, w: nat)
    requires CanMove(s, P.WorkerStep(w)) && Takes(s, P.WorkerStep(w)) && s.busy[w] == s.now
    ensures var t, job := Apply(s, Move(P.WorkerStep(w))), s.pool.tasks[0];
      && BatchOf(t) == More(BatchOf(s), job, w) && t.popped == s.popped + [s.busy[w]]
      && t.busy == s.busy[w := Max(job.due, s.busy[w]) + job.time]
  {
  }

  lemma ScheduleTake(s: Timed, w: nat)
    requires ClockInv(s) && ScheduleInv(s) && CanMove(s, P.WorkerStep(w)) && Takes(s, P.WorkerStep(w))
    ensures ScheduleInv(Apply(s, Move(P.WorkerStep(w))))
  {
    TakerIsFree(s, w);
    TakesHead(s, w);
    ScheduledMore(BatchOf(s), s.busy, s.popped, s.pool.tasks[0], w);
  }

  lemma ScheduleStep(s: Timed, step: Step)
    requires Open(s.pool) && ClockInv(s) && ScheduleInv(s) && Enabled(s, step)
    ensures ScheduleInv(Apply(s, step))
  {
    if step.Move? {
      if Takes(s, step.p) { ScheduleTake(s, step.p.w); } else { TakesNothing(s, step.p); }
    }
  }

  lemma TakesNothing(s: Timed, p: P.Step<Job>)
    requires CanMove(s, p) && !Takes(s, p)
    ensures P.Apply(s.pool, p).dispatched == s.pool.dispatched
    ensures |P.Apply(s.pool, p).workers| == |s.pool.workers|
  {
  }

  // ----- the result

  ghost predicate TimedInv(s: Timed) { Open(s.pool) && ClockInv(s) && ScheduleInv(s) }

  lemma InitTimed(s: Timed)
    requires Init(s)
    ensures TimedInv(s)
  {
    P.InitInv(s.pool);
  }

  lemma TimedStep(s: Timed, step: Step)
    requires TimedInv(s) && Enabled(s, step)
    ensures TimedInv(Apply(s, step))
  {
    if step.Move? { OpenStep(s.pool, step.p); }
    ClockStep(s, step);
    ScheduleStep(s, step);
  }

  lemma {:induction false} RunKeepsTimed(s: Timed, steps: seq<Step>, t: Timed)
    requires TimedInv(s) && Runs(s, steps, t)
    ensures TimedInv(t)
    decreases steps
  {
    if steps != [] {
      TimedStep(s, steps[0]);
      RunKeepsTimed(Apply(s, steps[0]), steps[1..], t);
    }
  }

  /** The batch as it has been pushed: later than the reading, in the order of the time points. */
  ghost predicate InOrder(jobs: seq<Job>, handed: int) {
    && (forall k :: 0 <= k < |jobs| ==> jobs[k].due > handed)
    && (forall i, j :: 0 <= i < j < |jobs| ==> jobs[i].due < jobs[j].due)
  }

  lemma StartOfTaken(b: Batch, k: nat, at: int)
    requires Assigned(b) && k < |b.jobs| && TakenAt(b, k, at)
    ensures Start(b, k) == Max(b.jobs[k].due, at) && Earliest(Free(b, k), b.who[k])
  {
  }

  lemma ScheduledIsFirstFree(b: Batch, busy: seq<int>, popped: seq<int>)
    requires Scheduled(b, busy, popped) && InOrder(b.jobs, b.handed)
    ensures FirstFree(b)
  {
    forall k | 0 <= k < |b.jobs| ensures Earliest(Free(b, k), b.who[k]) { StartOfTaken(b, k, popped[k]); }
  }

  lemma TakenInOrder(s: Timed)
    requires P.FifoInv(s.pool) && InOrder(s.pool.submitted, s.handed)
    ensures InOrder(s.pool.dispatched, s.handed)
  {
    assert forall k :: 0 <= k < |s.pool.dispatched| ==> s.pool.dispatched[k] == s.pool.submitted[k];
  }

  /** How late the function of the k-th task starts, which the k-th pop decides. */
  function LateBy(s: Timed, k: nat): int
    requires k < |s.popped| && k < |s.pool.dispatched|
  {
    Max(s.pool.dispatched[k].due, s.popped[k]) - s.pool.dispatched[k].due
  }

  lemma LateByBound(s: Timed, k: nat)
    requires TimedInv(s) && InOrder(s.pool.submitted, s.handed) && k < |s.pool.dispatched|
    ensures k < |s.popped| && 0 <= LateBy(s, k) <= WorkBefore(BatchOf(s), k)
    ensures |s.pool.workers| * LateBy(s, k) <= WorkBefore(BatchOf(s), k)
  {
    TakenInOrder(s);
    ScheduledIsFirstFree(BatchOf(s), s.busy, s.popped);
    StartOfTaken(BatchOf(s), k, s.popped[k]);
    LatenessBound(BatchOf(s), k);
    assert LateBy(s, k) == Late(BatchOf(s), k);
  }

  /** In every run of the pool on a batch handed over in time order, whatever the interleaving: no function
      starts before its time point, and its lateness, and even the number of workers times its lateness, is at
      most the running time of the tasks before it. */
  lemma BatchLateness(s0: Timed, steps: seq<Step>, s: Timed, k: nat)
    requires Init(s0) && Runs(s0, steps, s) && InOrder(s.pool.submitted, s.handed) && k < |s.pool.dispatched|
    ensures k < |s.popped| && 0 <= LateBy(s, k) <= WorkBefore(BatchOf(s), k)
    ensures |s.pool.workers| * LateBy(s, k) <= WorkBefore(BatchOf(s), k)
  {
    InitTimed(s0);
    RunKeepsTimed(s0, steps, s);
    LateByBound(s, k);
  }

  /** Functions that take no time all start exactly at their time points. */
  lemma InstantBatchOnTime(s0: Timed, steps: seq<Step>, s: Timed, k: nat)
    requires Init(s0) && Runs(s0, steps, s) && InOrder(s.pool.submitted, s.handed) && k < |s.pool.dispatched|
    requires forall j :: 0 <= j < k ==> s.pool.dispatched[j].time == 0
    ensures k < |s.popped| && LateBy(s, k) == 0
  {
    BatchLateness(s0, steps, s, k);
    NoWork(BatchOf(s), k);
  }

  /** And while a task waits and nothing can move, every worker is at a task. */
  lemma NoIdleWorker(s0: Timed, steps: seq<Step>, s: Timed)
    requires Init(s0) && Runs(s0, steps, s) && Quiet(s) && s.pool.tasks != []
    ensures forall w :: 0 <= w < |s.pool.workers| ==> s.pool.workers[w].Running?
  {
    InitTimed(s0);
    RunKeepsTimed(s0, steps, s);
    QuietBusy(s);
  }
}
