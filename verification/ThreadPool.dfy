/** The worker pool as a transition system: every thread has a program counter, the task mutex has an
    explicit owner, and waiting, notifying and spurious wakeups are steps of their own. */
module ThreadPool {

  /** Where a worker stands inside `Run` and `GetTask`. */
  datatype WorkerPc =
    | AtLoop            // about to test the flag in the loop of Run
    | WantLock          // GetTask: about to take the task mutex
    | Testing           // owns the mutex, about to evaluate the wait predicate
    | Blocking          // owns it, the predicate was false, about to release and block in one step
    | Blocked           // asleep on the condition variable
    | Woken             // awake again, about to retake the mutex
    | Deciding          // owns the mutex, the predicate was true, about to read the flag again
    | Popping           // owns the mutex, read the flag as false, about to pop
    | Running(k: nat)   // executes the k-th dispatched task, owns nothing
    | Crashed           // the "task list is empty" check fired
    | Exited            // left Run

  /** Where a caller of `execute` stands. */
  datatype ClientPc<T> = Outside | WantPush(task: T) | Pushing(task: T) | Notifying

  /** Where the caller of `Shutdown` stands. */
  datatype ShutdownPc =
    | NotCalled
    | Polling           // about to take the task mutex
    | Peeking           // owns it, about to look at the list
    | WantThreads       // saw the list empty, released the mutex, about to take the thread mutex
    | SettingFlag
    | WakingAll
    | Joining(next: nat)
    | Returned

  datatype Owner = Free | ByWorker(w: nat) | ByClient(c: nat) | ByShutdown

  /** `submitted`, `dispatched`, `finished` and `sealed` are histories: the tasks pushed, the tasks popped,
      the positions (in `dispatched`) of the tasks that ran to the end, and how many tasks had been pushed
      when Shutdown saw the list empty. */
  datatype Pool<T> = Pool(
    workers: seq<WorkerPc>, clients: seq<ClientPc<T>>, shutdown: ShutdownPc,
    mtx: Owner, tasks: seq<T>, terminate: bool,
    submitted: seq<T>, dispatched: seq<T>, finished: seq<nat>, sealed: nat)

  /** One step of one thread. `ClientStep` carries the worker that a `notify_one` picks. */
  datatype Step<T> =
    | WorkerStep(w: nat)
    | Spurious(w: nat)
    | Call(c: nat, task: T)
    | ClientStep(c: nat, wakes: nat)
    | CallShutdown
    | ShutdownStep

  ghost predicate Init<T>(s: Pool<T>) {
    && (forall w :: 0 <= w < |s.workers| ==> s.workers[w] == AtLoop)
    && (forall c :: 0 <= c < |s.clients| ==> s.clients[c].Outside?)
    && s.shutdown.NotCalled? && s.mtx.Free? && s.tasks == [] && !s.terminate
    && s.submitted == [] && s.dispatched == [] && s.finished == [] && s.sealed == 0
  }

  predicate NobodyBlocked(ws: seq<WorkerPc>) {
    forall w :: 0 <= w < |ws| ==> !ws[w].Blocked?
  }

  predicate Enabled<T>(s: Pool<T>, step: Step<T>) {
    match step
    case WorkerStep(w) =>
      w < |s.workers| && !s.workers[w].Blocked? && !s.workers[w].Crashed? && !s.workers[w].Exited?
      && (s.workers[w].WantLock? || s.workers[w].Woken? ==> s.mtx.Free?)
    case Spurious(w) => w < |s.workers| && s.workers[w].Blocked?
    case Call(c, _) => c < |s.clients| && s.clients[c].Outside?
    case ClientStep(c, v) =>
      c < |s.clients| && !s.clients[c].Outside?
      && (s.clients[c].WantPush? ==> s.mtx.Free?)
      && (s.clients[c].Notifying? ==>
            (v < |s.workers| && s.workers[v].Blocked?) || NobodyBlocked(s.workers))
    case CallShutdown => s.shutdown.NotCalled?
    case ShutdownStep =>
      !s.shutdown.NotCalled? && !s.shutdown.Returned?
      && (s.shutdown.Polling? ==> s.mtx.Free?)
      && (s.shutdown.Joining? && s.shutdown.next < |s.workers| ==> s.workers[s.shutdown.next].Exited?)
  }

  function Moved<T>(s: Pool<T>, w: nat, pc: WorkerPc): Pool<T>
    requires w < |s.workers|
  {
    s.(workers := s.workers[w := pc])
  }

  function WorkerMove<T>(s: Pool<T>, w: nat): Pool<T>
    requires Enabled(s, WorkerStep(w))
  {
    match s.workers[w]
    case AtLoop => Moved(s, w, if s.terminate then Exited else WantLock)
    case WantLock => Moved(s, w, Testing).(mtx := ByWorker(w))
    case Woken => Moved(s, w, Testing).(mtx := ByWorker(w))
    case Testing => Moved(s, w, if s.tasks != [] || s.terminate then Deciding else Blocking)
    case Blocking => Moved(s, w, Blocked).(mtx := Free)
    case Deciding => if s.terminate then Moved(s, w, AtLoop).(mtx := Free) else Moved(s, w, Popping)
    case Popping =>
      if s.tasks == [] then Moved(s, w, Crashed).(mtx := Free)
      else Moved(s, w, Running(|s.dispatched|)).(
             mtx := Free, tasks := s.tasks[1..], dispatched := s.dispatched + [s.tasks[0]])
    case Running(k) => Moved(s, w, AtLoop).(finished := s.finished + [k])
  }

  function ClientMove<T>(s: Pool<T>, c: nat, v: nat): Pool<T>
    requires Enabled(s, ClientStep(c, v))
  {
    match s.clients[c]
    case WantPush(t) => s.(clients := s.clients[c := Pushing(t)], mtx := ByClient(c))
    case Pushing(t) => s.(clients := s.clients[c := Notifying], mtx := Free,
                          tasks := s.tasks + [t], submitted := s.submitted + [t])
    case Notifying =>
      var s' := s.(clients := s.clients[c := Outside]);
      if v < |s.workers| && s.workers[v].Blocked? then Moved(s', v, Woken) else s'
  }

  function WakeAll(ws: seq<WorkerPc>): seq<WorkerPc> {
    seq(|ws|, w requires 0 <= w < |ws| => if ws[w].Blocked? then Woken else ws[w])
  }

  function ShutdownMove<T>(s: Pool<T>): Pool<T>
    requires Enabled(s, ShutdownStep)
  {
    match s.shutdown
    case Polling => s.(shutdown := Peeking, mtx := ByShutdown)
    case Peeking =>
      if s.tasks == [] then s.(shutdown := WantThreads, mtx := Free, sealed := |s.submitted|)
      else s.(shutdown := Polling, mtx := Free)
    case WantThreads => s.(shutdown := SettingFlag)
    case SettingFlag => s.(shutdown := WakingAll, terminate := true)
    case WakingAll => s.(shutdown := Joining(0), workers := WakeAll(s.workers))
    case Joining(i) => if i < |s.workers| then s.(shutdown := Joining(i + 1)) else s.(shutdown := Returned)
  }

  function Apply<T>(s: Pool<T>, step: Step<T>): Pool<T>
    requires Enabled(s, step)
  {
    match step
    case WorkerStep(w) => WorkerMove(s, w)
    case Spurious(w) => Moved(s, w, Woken)
    case Call(c, t) => s.(clients := s.clients[c := WantPush(t)])
    case ClientStep(c, v) => ClientMove(s, c, v)
    case CallShutdown => s.(shutdown := Polling)
    case ShutdownStep => ShutdownMove(s)
  }

  /** The steps, taken in order from `s`, are all enabled and end in `t`. */
  ghost predicate Runs<T>(s: Pool<T>, steps: seq<Step<T>>, t: Pool<T>)
    decreases steps
  {
    if steps == [] then t == s
    else Enabled(s, steps[0]) && Runs(Apply(s, steps[0]), steps[1..], t)
  }

  // ----- counting threads

  ghost function Count<X>(xs: seq<X>, p: X -> bool): (n: nat)
    ensures n <= |xs|
  {
    if xs == [] then 0 else Count(xs[1..], p) + (if p(xs[0]) then 1 else 0)
  }

  lemma {:induction false} CountUpdate<X>(xs: seq<X>, i: nat, x: X, p: X -> bool)
    requires i < |xs|
    ensures Count(xs[i := x], p) + (if p(xs[i]) then 1 else 0) == Count(xs, p) + (if p(x) then 1 else 0)
  {
    if i == 0 {
      assert xs[0 := x][1..] == xs[1..];
    } else {
      CountUpdate(xs[1..], i - 1, x, p);
      assert xs[i := x][1..] == xs[1..][i - 1 := x];
    }
  }

  lemma {:induction false} CountNone<X>(xs: seq<X>, p: X -> bool)
    requires forall i :: 0 <= i < |xs| ==> !p(xs[i])
    ensures Count(xs, p) == 0
  {
    if xs != [] { CountNone(xs[1..], p); }
  }

  lemma {:induction false} CountAppend<X>(a: seq<X>, b: seq<X>, p: X -> bool)
    ensures Count(a + b, p) == Count(a, p) + Count(b, p)
  {
    if a == [] {
      assert a + b == b;
    } else {
      CountAppend(a[1..], b, p);
      assert (a + b)[1..] == a[1..] + b;
    }
  }

  lemma {:induction false} CountSame<X>(a: seq<X>, b: seq<X>, p: X -> bool)
    requires |a| == |b| && forall i :: 0 <= i < |a| ==> p(a[i]) == p(b[i])
    ensures Count(a, p) == Count(b, p)
  {
    if a != [] { CountSame(a[1..], b[1..], p); }
  }

  lemma CountOne<X>(x: X, p: X -> bool)
    ensures Count([x], p) == if p(x) then 1 else 0
  {
    assert [x][1..] == [];
  }

  lemma {:induction false} CountSome<X>(xs: seq<X>, i: nat, p: X -> bool)
    requires i < |xs| && p(xs[i])
    ensures Count(xs, p) >= 1
  {
    if i > 0 { CountSome(xs[1..], i - 1, p); }
  }

  lemma {:induction false} CountTwo<X>(xs: seq<X>, i: nat, j: nat, p: X -> bool)
    requires i < j < |xs| && p(xs[i]) && p(xs[j])
    ensures Count(xs, p) >= 2
  {
    if i > 0 { CountTwo(xs[1..], i - 1, j - 1, p); } else { CountSome(xs[1..], j - 1, p); }
  }

  lemma CountExists<X>(xs: seq<X>, p: X -> bool)
    ensures Count(xs, p) > 0 <==> exists x :: x in xs && p(x)
  {
    if x :| x in xs && p(x) {
      var i :| 0 <= i < |xs| && xs[i] == x;
      CountSome(xs, i, p);
    } else {
      CountNone(xs, p);
    }
  }

  const IsBlocked: WorkerPc -> bool := (pc: WorkerPc) => pc.Blocked?

  function IsNotifying<T>(): ClientPc<T> -> bool { (pc: ClientPc<T>) => pc.Notifying? }

  ghost function Awake<T>(s: Pool<T>): nat { |s.workers| - Count(s.workers, IsBlocked) }

  ghost function PendingNotifies<T>(s: Pool<T>): nat { Count(s.clients, IsNotifying<T>()) }

  // ----- what every step keeps

  predicate OwnsMutex(pc: WorkerPc) { pc.Testing? || pc.Blocking? || pc.Deciding? || pc.Popping? }

  ghost predicate MutexInv<T>(s: Pool<T>) {
    && (forall w :: 0 <= w < |s.workers| ==> (OwnsMutex(s.workers[w]) <==> s.mtx == ByWorker(w)))
    && (forall c :: 0 <= c < |s.clients| ==> (s.clients[c].Pushing? <==> s.mtx == ByClient(c)))
    && (s.shutdown.Peeking? <==> s.mtx.ByShutdown?)
    && (s.mtx.ByWorker? ==> s.mtx.w < |s.workers|)
    && (s.mtx.ByClient? ==> s.mtx.c < |s.clients|)
  }

  predicate PastCheck(pc: ShutdownPc) { !pc.NotCalled? && !pc.Polling? && !pc.Peeking? }

  /** What a worker's position says about the list and the flag. */
  predicate WorkerKnows(pc: WorkerPc, empty: bool, terminate: bool) {
    && !pc.Crashed?
    && (pc.Popping? ==> !empty)
    && (pc.Deciding? ==> !empty || terminate)
    && (pc.Blocking? ==> empty)
    && (pc.Exited? ==> terminate)
  }

  ghost predicate FlagInv<T>(s: Pool<T>) {
    && (s.terminate <==> s.shutdown.WakingAll? || s.shutdown.Joining? || s.shutdown.Returned?)
    && (forall w :: 0 <= w < |s.workers| ==> WorkerKnows(s.workers[w], s.tasks == [], s.terminate))
  }

  ghost predicate JoinInv<T>(s: Pool<T>) {
    && (s.shutdown.Joining? ==> s.shutdown.next <= |s.workers|)
    && (s.shutdown.Joining? ==> forall w :: 0 <= w < s.shutdown.next ==> s.workers[w].Exited?)
    && (s.shutdown.Returned? ==> forall w :: 0 <= w < |s.workers| ==> s.workers[w].Exited?)
  }

  /** First in, first out, and nothing lost between the list and the workers. */
  ghost predicate FifoInv<T>(s: Pool<T>) {
    && s.submitted == s.dispatched + s.tasks
    && (PastCheck(s.shutdown) ==> s.sealed <= |s.dispatched|)
  }

  /** Every dispatched task is either held by exactly one worker or listed exactly once as finished. */
  ghost predicate InFlightInv<T>(s: Pool<T>) {
    && (forall w :: 0 <= w < |s.workers| && s.workers[w].Running? ==>
          s.workers[w].k < |s.dispatched| && s.workers[w].k !in s.finished)
    && (forall w, v :: 0 <= w < v < |s.workers| && s.workers[w].Running? ==> s.workers[w] != s.workers[v])
    && (forall i :: 0 <= i < |s.finished| ==> s.finished[i] < |s.dispatched|)
    && (forall i, j :: 0 <= i < j < |s.finished| ==> s.finished[i] != s.finished[j])
    && (forall k: nat :: k < |s.dispatched| ==> k in s.finished || Running(k) in s.workers)
  }

  /** No wakeup is lost: the notifications still to be sent plus the workers that are awake cover the list. */
  ghost predicate WakeupInv<T>(s: Pool<T>) {
    PendingNotifies(s) + Awake(s) >= if |s.tasks| <= |s.workers| then |s.tasks| else |s.workers|
  }

  ghost predicate Inv<T>(s: Pool<T>) {
    MutexInv(s) && FlagInv(s) && JoinInv(s) && FifoInv(s) && InFlightInv(s) && WakeupInv(s)
  }

  lemma InitInv<T>(s: Pool<T>)
    requires Init(s)
    ensures Inv(s)
  {
    CountNone(s.workers, IsBlocked);
  }

  lemma MutexStep<T>(s: Pool<T>, step: Step<T>)
    requires MutexInv(s) && Enabled(s, step)
    ensures MutexInv(Apply(s, step))
  {
    match step
    case WorkerStep(w) => MutexWorker(s, w);
    case Spurious(w) =>
    case Call(c, task) =>
    case ClientStep(c, v) => MutexClient(s, c, v);
    case CallShutdown =>
    case ShutdownStep => MutexShutdown(s);
  }

  lemma MutexWorker<T>(s: Pool<T>, w: nat)
    requires MutexInv(s) && Enabled(s, WorkerStep(w))
    ensures MutexInv(WorkerMove(s, w))
  {
  }

  lemma MutexClient<T>(s: Pool<T>, c: nat, v: nat)
    requires MutexInv(s) && Enabled(s, ClientStep(c, v))
    ensures MutexInv(ClientMove(s, c, v))
  {
  }

  lemma MutexShutdown<T>(s: Pool<T>)
    requires MutexInv(s) && Enabled(s, ShutdownStep)
    ensures MutexInv(ShutdownMove(s))
  {
  }

  lemma FlagStep<T>(s: Pool<T>, step: Step<T>)
    requires MutexInv(s) && FlagInv(s) && Enabled(s, step)
    ensures FlagInv(Apply(s, step))
  {
    match step
    case WorkerStep(w) => FlagWorker(s, w);
    case Spurious(w) =>
    case Call(c, task) =>
    case ClientStep(c, v) => FlagClient(s, c, v);
    case CallShutdown =>
    case ShutdownStep => FlagShutdown(s);
  }

  lemma FlagWorker<T>(s: Pool<T>, w: nat)
    requires MutexInv(s) && FlagInv(s) && Enabled(s, WorkerStep(w))
    ensures FlagInv(WorkerMove(s, w))
  {
  }

  lemma FlagClient<T>(s: Pool<T>, c: nat, v: nat)
    requires MutexInv(s) && FlagInv(s) && Enabled(s, ClientStep(c, v))
    ensures FlagInv(ClientMove(s, c, v))
  {
  }

  lemma FlagShutdown<T>(s: Pool<T>)
    requires FlagInv(s) && Enabled(s, ShutdownStep)
    ensures FlagInv(ShutdownMove(s))
  {
  }

  lemma JoinStep<T>(s: Pool<T>, step: Step<T>)
    requires FlagInv(s) && JoinInv(s) && Enabled(s, step)
    ensures JoinInv(Apply(s, step))
  {
  }

  lemma FifoStep<T>(s: Pool<T>, step: Step<T>)
    requires FlagInv(s) && FifoInv(s) && Enabled(s, step)
    ensures FifoInv(Apply(s, step))
  {
  }

  /** A step that neither starts nor ends a task keeps InFlightInv. */
  lemma InFlightFrame<T>(s: Pool<T>, t: Pool<T>)
    requires InFlightInv(s) && t.dispatched == s.dispatched && t.finished == s.finished
    requires |t.workers| == |s.workers|
    requires forall w :: 0 <= w < |s.workers| ==>
      t.workers[w] == s.workers[w] || (!s.workers[w].Running? && !t.workers[w].Running?)
    ensures InFlightInv(t)
  {
    forall k: nat | k < |t.dispatched| && k !in t.finished
      ensures Running(k) in t.workers
    {
      var w :| 0 <= w < |s.workers| && s.workers[w] == Running(k);
      assert t.workers[w] == Running(k);
    }
  }

  lemma InFlightPop<T>(s: Pool<T>, w: nat)
    requires InFlightInv(s) && Enabled(s, WorkerStep(w)) && s.workers[w].Popping? && s.tasks != []
    ensures InFlightInv(WorkerMove(s, w))
  {
    var t := WorkerMove(s, w);
    forall k: nat | k < |t.dispatched| && k !in t.finished
      ensures Running(k) in t.workers
    {
      if k < |s.dispatched| {
        var v :| 0 <= v < |s.workers| && s.workers[v] == Running(k);
        assert t.workers[v] == Running(k);
      } else {
        assert t.workers[w] == Running(k);
      }
    }
  }

  lemma InFlightFinish<T>(s: Pool<T>, w: nat)
    requires InFlightInv(s) && Enabled(s, WorkerStep(w)) && s.workers[w].Running?
    ensures InFlightInv(WorkerMove(s, w))
  {
    var t := WorkerMove(s, w);
    forall k: nat | k < |t.dispatched|
      ensures k in t.finished || Running(k) in t.workers
    {
      if k == s.workers[w].k {
        assert t.finished[|s.finished|] == k;
      } else if k in s.finished {
        var i :| 0 <= i < |s.finished| && s.finished[i] == k;
        assert t.finished[i] == k;
      } else {
        var v :| 0 <= v < |s.workers| && s.workers[v] == Running(k);
        assert t.workers[v] == Running(k);
      }
    }
  }

  lemma InFlightStep<T>(s: Pool<T>, step: Step<T>)
    requires InFlightInv(s) && Enabled(s, step)
    ensures InFlightInv(Apply(s, step))
  {
    if step.WorkerStep? && s.workers[step.w].Running? {
      InFlightFinish(s, step.w);
    } else if step.WorkerStep? && s.workers[step.w].Popping? && s.tasks != [] {
      InFlightPop(s, step.w);
    } else {
      InFlightFrame(s, Apply(s, step));
    }
  }

  lemma WakeupWorker<T>(s: Pool<T>, w: nat)
    requires FlagInv(s) && WakeupInv(s) && MutexInv(s) && Enabled(s, WorkerStep(w))
    ensures WakeupInv(WorkerMove(s, w))
  {
    CountUpdate(s.workers, w, WorkerMove(s, w).workers[w], IsBlocked);
    assert WorkerKnows(s.workers[w], s.tasks == [], s.terminate);
  }

  lemma WakeupClient<T>(s: Pool<T>, c: nat, v: nat)
    requires WakeupInv(s) && Enabled(s, ClientStep(c, v))
    ensures WakeupInv(ClientMove(s, c, v))
  {
    CountUpdate(s.clients, c, ClientMove(s, c, v).clients[c], IsNotifying<T>());
    if s.clients[c].Notifying? {
      if v < |s.workers| && s.workers[v].Blocked? {
        CountUpdate(s.workers, v, Woken, IsBlocked);
      } else {
        CountNone(s.workers, IsBlocked);
      }
    }
  }

  lemma WakeupStep<T>(s: Pool<T>, step: Step<T>)
    requires MutexInv(s) && FlagInv(s) && WakeupInv(s) && Enabled(s, step)
    ensures WakeupInv(Apply(s, step))
  {
    match step
    case WorkerStep(w) => WakeupWorker(s, w);
    case Spurious(w) => CountUpdate(s.workers, w, Woken, IsBlocked);
    case Call(c, task) => CountUpdate(s.clients, c, WantPush(task), IsNotifying<T>());
    case ClientStep(c, v) => WakeupClient(s, c, v);
    case CallShutdown =>
    case ShutdownStep => if s.shutdown.WakingAll? { CountNone(WakeAll(s.workers), IsBlocked); }
  }

  lemma InvStep<T>(s: Pool<T>, step: Step<T>)
    requires Inv(s) && Enabled(s, step)
    ensures Inv(Apply(s, step))
  {
    MutexStep(s, step);
    FlagStep(s, step);
    JoinStep(s, step);
    FifoStep(s, step);
    InFlightStep(s, step);
    WakeupStep(s, step);
  }

  lemma {:induction false} RunKeepsInv<T>(s: Pool<T>, steps: seq<Step<T>>, t: Pool<T>)
    requires Inv(s) && Runs(s, steps, t)
    ensures Inv(t)
    decreases steps
  {
    if steps != [] {
      InvStep(s, steps[0]);
      RunKeepsInv(Apply(s, steps[0]), steps[1..], t);
    }
  }

  // ----- the results over whole runs

  /** FIFO and conservation: what was pushed is what was popped followed by the list; each popped task is
      held by one worker or finished, never both, never twice; and the emptiness check never fires. */
  lemma PoolConserves<T>(s0: Pool<T>, steps: seq<Step<T>>, s: Pool<T>)
    requires Init(s0) && Runs(s0, steps, s)
    ensures s.submitted == s.dispatched + s.tasks
    ensures forall k: nat :: k < |s.dispatched| ==> (k in s.finished <==> Running(k) !in s.workers)
    ensures forall i :: 0 <= i < |s.finished| ==> s.finished[i] < |s.dispatched|
    ensures forall i, j :: 0 <= i < j < |s.finished| ==> s.finished[i] != s.finished[j]
    ensures forall w, v :: 0 <= w < v < |s.workers| && s.workers[w].Running? ==> s.workers[w] != s.workers[v]
    ensures Crashed !in s.workers
  {
    InitInv(s0);
    RunKeepsInv(s0, steps, s);
  }

  /** As long as the flag is down no worker has left, and the notifications still owed plus the workers
      not asleep are at least as many as the tasks waiting (or all the workers). */
  lemma NoLostWakeup<T>(s0: Pool<T>, steps: seq<Step<T>>, s: Pool<T>)
    requires Init(s0) && Runs(s0, steps, s) && !s.terminate
    ensures Exited !in s.workers
    ensures PendingNotifies(s) + Awake(s) >= |s.tasks| || PendingNotifies(s) + Awake(s) >= |s.workers|
  {
    InitInv(s0);
    RunKeepsInv(s0, steps, s);
  }

  /** When Shutdown returns every worker has left and every task pushed before it saw the list empty has
      run exactly once, whatever was pushed later; the tasks that never ran are exactly the list. */
  lemma ShutdownRunsSealedTasks<T>(s0: Pool<T>, steps: seq<Step<T>>, s: Pool<T>)
    requires Init(s0) && Runs(s0, steps, s) && s.shutdown.Returned?
    ensures forall w :: 0 <= w < |s.workers| ==> s.workers[w].Exited?
    ensures s.sealed <= |s.dispatched| && s.submitted == s.dispatched + s.tasks
    ensures forall k: nat :: k < |s.submitted| ==> (k in s.finished <==> k < |s.dispatched|)
    ensures forall i, j :: 0 <= i < j < |s.finished| ==> s.finished[i] != s.finished[j]
  {
    InitInv(s0);
    RunKeepsInv(s0, steps, s);
  }
}
