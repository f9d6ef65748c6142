/** When does `ThreadPool::Shutdown` come back?  The flag is written without the task mutex, so a worker that
    has tested its wait predicate but not yet blocked misses `notify_all`.  This module shows that this is the
    only way to hang, and that it is a real one. */
module PoolShutdown {
  import opened ThreadPool

  /** Steps that no outside help takes part in: no new call of `execute` and no spurious wakeup. */
  ghost predicate Unaided<T>(steps: seq<Step<T>>) {
    forall i :: 0 <= i < |steps| ==> !steps[i].Call? && !steps[i].Spurious?
  }

  ghost predicate NoClients<T>(s: Pool<T>) {
    forall c :: 0 <= c < |s.clients| ==> s.clients[c].Outside?
  }

  // ----- runs, step by step

  lemma {:induction false} RunsSnoc<T>(s: Pool<T>, steps: seq<Step<T>>, t: Pool<T>, step: Step<T>)
    requires Runs(s, steps, t) && Enabled(t, step)
    ensures Runs(s, steps + [step], Apply(t, step))
    decreases steps
  {
    if steps == [] {
      assert (steps + [step])[1..] == [];
      assert Runs(Apply(t, step), [], Apply(t, step));
    } else {
      RunsSnoc(Apply(s, steps[0]), steps[1..], t, step);
      assert (steps + [step])[1..] == steps[1..] + [step];
    }
  }

  /** Some run from an initial state ends in `s`. */
  ghost predicate Reachable<T(!new)>(s: Pool<T>) {
    exists s0: Pool<T>, steps: seq<Step<T>> :: Init(s0) && Runs(s0, steps, s)
  }

  lemma ReachStart<T(!new)>(s: Pool<T>)
    requires Init(s)
    ensures Reachable(s)
  {
    assert Runs(s, [], s);
  }

  lemma ReachStep<T(!new)>(s: Pool<T>, step: Step<T>) returns (t: Pool<T>)
    requires Reachable(s) && Enabled(s, step)
    ensures Reachable(t) && t == Apply(s, step)
  {
    var s0, steps: seq<Step<T>> :| Init(s0) && Runs(s0, steps, s);
    RunsSnoc(s0, steps, s, step);
    t := Apply(s, step);
  }

  lemma ReachableInv<T(!new)>(s: Pool<T>)
    requires Reachable(s)
    ensures Inv(s)
  {
    var s0, steps: seq<Step<T>> :| Init(s0) && Runs(s0, steps, s);
    InitInv(s0);
    RunKeepsInv(s0, steps, s);
  }

  // ----- workers leave: a measure

  /** The flag is up, `notify_all` is done, and no worker is asleep or on its way to sleep. */
  ghost predicate WokenUp<T>(s: Pool<T>) {
    && s.terminate && (s.shutdown.Joining? || s.shutdown.Returned?)
    && forall w :: 0 <= w < |s.workers| ==> !s.workers[w].Blocking? && !s.workers[w].Blocked?
  }

  function Rank(pc: WorkerPc): nat {
    match pc
    case WantLock => 6
    case Woken => 6
    case Testing => 5
    case Deciding => 4
    case Popping => 3
    case Running(_) => 2
    case AtLoop => 1
    case _ => 0
  }

  function Total(ws: seq<WorkerPc>, rank: WorkerPc -> nat): nat {
    if ws == [] then 0 else rank(ws[0]) + Total(ws[1..], rank)
  }

  function Measure<T>(s: Pool<T>): nat {
    Total(s.workers, Rank)
    + match s.shutdown
      case Joining(i) => if i <= |s.workers| then |s.workers| - i + 1 else 0
      case _ => 0
  }

  lemma {:induction false} TotalUpdate(ws: seq<WorkerPc>, i: nat, pc: WorkerPc, rank: WorkerPc -> nat)
    requires i < |ws|
    ensures Total(ws[i := pc], rank) + rank(ws[i]) == Total(ws, rank) + rank(pc)
  {
    if i == 0 {
      assert ws[0 := pc][1..] == ws[1..];
    } else {
      TotalUpdate(ws[1..], i - 1, pc, rank);
      assert ws[i := pc][1..] == ws[1..][i - 1 := pc];
    }
  }

  lemma {:induction false} TotalBound(ws: seq<WorkerPc>)
    ensures Total(ws, Rank) <= 6 * |ws|
  {
    if ws != [] { TotalBound(ws[1..]); }
  }

  predicate Internal<T>(step: Step<T>) { step.WorkerStep? || step.ShutdownStep? }

  lemma WokenUpWorker<T>(s: Pool<T>, w: nat)
    requires FlagInv(s) && WokenUp(s) && Enabled(s, WorkerStep(w))
    ensures WokenUp(WorkerMove(s, w)) && Measure(WorkerMove(s, w)) < Measure(s)
  {
    assert WorkerKnows(s.workers[w], s.tasks == [], s.terminate);
    TotalUpdate(s.workers, w, WorkerMove(s, w).workers[w], Rank);
  }

  lemma WokenUpStep<T>(s: Pool<T>, step: Step<T>)
    requires FlagInv(s) && JoinInv(s) && WokenUp(s) && Enabled(s, step)
    ensures WokenUp(Apply(s, step))
    ensures Measure(Apply(s, step)) + (if Internal(step) then 1 else 0) <= Measure(s)
  {
    match step
    case WorkerStep(w) => WokenUpWorker(s, w);
    case Spurious(w) =>
    case Call(c, task) =>
    case ClientStep(c, v) =>
    case CallShutdown =>
    case ShutdownStep =>
  }

  ghost function InternalSteps<T>(steps: seq<Step<T>>): nat {
    if steps == [] then 0 else (if Internal(steps[0]) then 1 else 0) + InternalSteps(steps[1..])
  }

  /** From there on, in every interleaving with callers of `execute`, the workers and Shutdown take at most
      seven steps per worker and one more: nobody goes back to sleep. */
  lemma {:induction false} BoundedExit<T>(s: Pool<T>, steps: seq<Step<T>>, t: Pool<T>)
    requires Inv(s) && WokenUp(s) && Runs(s, steps, t)
    ensures Inv(t) && WokenUp(t)
    ensures Measure(t) + InternalSteps(steps) <= Measure(s) <= 7 * |s.workers| + 1
    decreases steps
  {
    TotalBound(s.workers);
    if steps != [] {
      InvStep(s, steps[0]);
      WokenUpStep(s, steps[0]);
      BoundedExit(Apply(s, steps[0]), steps[1..], t);
    }
  }

  /** And until Shutdown has returned, a worker or Shutdown can move, or the client that owns the mutex can. */
  lemma ExitProgress<T>(s: Pool<T>) returns (step: Step<T>)
    requires Inv(s) && WokenUp(s) && !s.shutdown.Returned?
    ensures Enabled(s, step) && !step.Call? && !step.Spurious?
    ensures Internal(step) || (s.mtx.ByClient? && step == ClientStep(s.mtx.c, 0))
  {
    var i := s.shutdown.next;
    if i == |s.workers| || s.workers[i].Exited? {
      step := ShutdownStep;
    } else if !s.workers[i].WantLock? && !s.workers[i].Woken? {
      assert WorkerKnows(s.workers[i], s.tasks == [], s.terminate);
      step := WorkerStep(i);
    } else {
      match s.mtx
      case Free => step := WorkerStep(i);
      case ByWorker(v) => step := WorkerStep(v);
      case ByClient(c) => step := ClientStep(c, 0);
      case ByShutdown => assert false;
    }
  }

  ghost predicate Leaving<T>(s: Pool<T>) { Inv(s) && WokenUp(s) }

  function IsPushing<T>(): ClientPc<T> -> bool { (pc: ClientPc<T>) => pc.Pushing? }

  ghost function LeavingMeasure<T>(s: Pool<T>): nat { Measure(s) + Count(s.clients, IsPushing<T>()) }

  lemma PushEnds<T>(s: Pool<T>, c: nat)
    requires Inv(s) && WokenUp(s) && Enabled(s, ClientStep(c, 0)) && s.clients[c].Pushing?
    ensures LeavingMeasure(Apply(s, ClientStep(c, 0))) < LeavingMeasure(s)
  {
    CountUpdate(s.clients, c, Notifying, IsPushing<T>());
  }

  lemma LeavingStep<T>(s: Pool<T>) returns (step: Step<T>)
    requires Leaving(s) && !s.shutdown.Returned?
    ensures Enabled(s, step) && !step.Call? && !step.Spurious?
    ensures Leaving(Apply(s, step)) && LeavingMeasure(Apply(s, step)) < LeavingMeasure(s)
  {
    step := ExitProgress(s);
    InvStep(s, step);
    WokenUpStep(s, step);
    if !Internal(step) { PushEnds(s, s.mtx.c); }
  }

  lemma RunsCons<T>(s: Pool<T>, step: Step<T>, rest: seq<Step<T>>, t: Pool<T>)
    requires Enabled(s, step) && Runs(Apply(s, step), rest, t)
    requires !step.Call? && !step.Spurious? && Unaided(rest)
    ensures Runs(s, [step] + rest, t) && Unaided([step] + rest)
  {
    assert ([step] + rest)[1..] == rest;
  }

  /** Some unaided run from `s` returns. */
  ghost predicate CanReturn<T(!new)>(s: Pool<T>) {
    exists steps: seq<Step<T>>, t: Pool<T> :: Unaided(steps) && Runs(s, steps, t) && t.shutdown.Returned?
  }

  lemma CanReturnStep<T(!new)>(s: Pool<T>, step: Step<T>)
    requires Enabled(s, step) && !step.Call? && !step.Spurious? && CanReturn(Apply(s, step))
    ensures CanReturn(s)
  {
    var rest: seq<Step<T>>, t: Pool<T> :|
      Unaided(rest) && Runs(Apply(s, step), rest, t) && t.shutdown.Returned?;
    RunsCons(s, step, rest, t);
  }

  lemma {:induction false} RunToReturn<T(!new)>(s: Pool<T>)
    requires Leaving(s)
    ensures CanReturn(s)
    decreases LeavingMeasure(s)
  {
    if s.shutdown.Returned? {
      assert Unaided<T>([]) && Runs(s, [], s);
    } else {
      var step := LeavingStep(s);
      RunToReturn(Apply(s, step));
      CanReturnStep(s, step);
    }
  }

  // ----- workers stay: the lost wakeup

  /** Shutdown waits for worker `w`, which nobody is going to wake. */
  ghost predicate Stranded<T>(s: Pool<T>, w: nat) {
    && w < |s.workers| && (s.workers[w].Blocking? || s.workers[w].Blocked?)
    && s.shutdown.Joining? && s.shutdown.next <= w && NoClients(s)
  }

  lemma StaysStranded<T>(s: Pool<T>, step: Step<T>, w: nat)
    requires Stranded(s, w) && Enabled(s, step) && !step.Call? && !step.Spurious?
    ensures Stranded(Apply(s, step), w)
  {
  }

  lemma {:induction false} StrandedForever<T>(s: Pool<T>, steps: seq<Step<T>>, t: Pool<T>, w: nat)
    requires Stranded(s, w) && Unaided(steps) && Runs(s, steps, t)
    ensures Stranded(t, w)
    decreases steps
  {
    if steps != [] {
      StaysStranded(s, steps[0], w);
      StrandedForever(Apply(s, steps[0]), steps[1..], t, w);
    }
  }

  /** One worker sleeps or is about to; the others are neither. */
  ghost predicate OneLeft<T>(s: Pool<T>, w: nat) {
    && s.terminate && s.shutdown.Joining?
    && w < |s.workers| && (s.workers[w].Blocking? || s.workers[w].Blocked?)
    && forall v :: 0 <= v < |s.workers| && v != w ==> !s.workers[v].Blocking? && !s.workers[v].Blocked?
  }

  lemma WakesTheOne<T(!new)>(s: Pool<T>, w: nat, c: nat)
    requires Inv(s) && OneLeft(s, w) && s.workers[w].Blocked? && c < |s.clients| && s.clients[c].Notifying?
    ensures CanReturn(s)
  {
    var step := ClientStep(c, w);
    InvStep(s, step);
    RunToReturn(Apply(s, step));
    CanReturnStep(s, step);
  }

  lemma PushesAndWakes<T(!new)>(s: Pool<T>, w: nat, c: nat)
    requires Inv(s) && OneLeft(s, w) && s.workers[w].Blocked? && c < |s.clients| && s.clients[c].Pushing?
    ensures CanReturn(s)
  {
    InvStep(s, ClientStep(c, 0));
    WakesTheOne(Apply(s, ClientStep(c, 0)), w, c);
    CanReturnStep(s, ClientStep(c, 0));
  }

  lemma TakesLockAndWakes<T(!new)>(s: Pool<T>, w: nat, c: nat)
    requires Inv(s) && OneLeft(s, w) && s.workers[w].Blocked? && s.mtx.Free?
    requires c < |s.clients| && s.clients[c].WantPush?
    ensures CanReturn(s)
  {
    InvStep(s, ClientStep(c, 0));
    PushesAndWakes(Apply(s, ClientStep(c, 0)), w, c);
    CanReturnStep(s, ClientStep(c, 0));
  }

  /** The worker blocks, then the caller's notification wakes it. */
  lemma CallerHelps<T(!new)>(s: Pool<T>, w: nat, c: nat)
    requires Inv(s) && OneLeft(s, w) && s.workers[w].Blocking? && c < |s.clients| && !s.clients[c].Outside?
    ensures CanReturn(s)
  {
    var step := WorkerStep(w);
    InvStep(s, step);
    assert s.mtx == ByWorker(w);
    if s.clients[c].Notifying? {
      WakesTheOne(Apply(s, step), w, c);
    } else {
      TakesLockAndWakes(Apply(s, step), w, c);
    }
    CanReturnStep(s, step);
  }

  /** The exact condition, read off the state in which Shutdown is about to call `notify_all`: it never returns
      without a new caller or a spurious wakeup if and only if some worker has tested its predicate and not yet
      blocked and no caller is inside `execute`. */
  lemma HangsIffWorkerBetweenTestAndBlock<T(!new)>(s: Pool<T>)
    requires Inv(s) && s.shutdown.WakingAll?
    ensures !CanReturn(Apply(s, ShutdownStep)) <==> Blocking in s.workers && NoClients(s)
    ensures Blocking !in s.workers ==> WokenUp(Apply(s, ShutdownStep))
  {
    var t := Apply(s, ShutdownStep);
    InvStep(s, ShutdownStep);
    if Blocking !in s.workers {
      RunToReturn(t);
    } else {
      var w :| 0 <= w < |s.workers| && s.workers[w] == Blocking;
      if NoClients(s) {
        StrandedNeverReturns(t, w);
      } else {
        var c :| 0 <= c < |s.clients| && !s.clients[c].Outside?;
        CallerHelps(t, w, c);
      }
    }
  }

  lemma StrandedNeverReturns<T(!new)>(s: Pool<T>, w: nat)
    requires Stranded(s, w)
    ensures !CanReturn(s)
  {
    forall steps: seq<Step<T>>, u: Pool<T> | Unaided(steps) && Runs(s, steps, u)
      ensures !u.shutdown.Returned?
    {
      StrandedForever(s, steps, u, w);
    }
  }

  /** With the flag up no worker starts to block. */
  lemma NobodyStartsToBlock<T>(s: Pool<T>, step: Step<T>)
    requires s.terminate && Blocking !in s.workers && Enabled(s, step)
    ensures Apply(s, step).terminate && Blocking !in Apply(s, step).workers
  {
    assert forall w :: 0 <= w < |s.workers| ==> s.workers[w] in s.workers;
  }

  lemma FlagWhileMutexFree<T>(s: Pool<T>)
    requires MutexInv(s) && s.shutdown.SettingFlag? && !s.mtx.ByWorker?
    ensures ShutdownMove(s).terminate && Blocking !in ShutdownMove(s).workers
  {
    assert forall w :: 0 <= w < |s.workers| ==> !OwnsMutex(s.workers[w]);
  }

  /** Ordering the flag write by the task mutex would be enough: if no worker owns the mutex when the flag is
      written, then in every run no worker is between test and block at any later moment. */
  lemma {:induction false} OrderedFlagNeverStrands<T>(s: Pool<T>, steps: seq<Step<T>>, t: Pool<T>)
    requires MutexInv(s) && Runs(s, steps, t)
    requires s.terminate || (s.shutdown.SettingFlag? && steps != [] && steps[0] == ShutdownStep)
    requires s.terminate ==> Blocking !in s.workers
    requires !s.terminate ==> !s.mtx.ByWorker?
    ensures t.terminate && Blocking !in t.workers
    decreases steps
  {
    if steps != [] {
      MutexStep(s, steps[0]);
      if s.terminate { NobodyStartsToBlock(s, steps[0]); } else { FlagWhileMutexFree(s); }
      OrderedFlagNeverStrands(Apply(s, steps[0]), steps[1..], t);
    }
  }

  /** One worker about to start; Shutdown has seen the empty list. */
  lemma CheckPassed<T(!new)>(clients: seq<ClientPc<T>>) returns (s: Pool<T>)
    requires forall c :: 0 <= c < |clients| ==> clients[c] == Outside
    ensures Reachable(s) && s == Pool([AtLoop], clients, WantThreads, Free, [], false, [], [], [], 0)
  {
    s := Pool([AtLoop], clients, NotCalled, Free, [], false, [], [], [], 0);
    ReachStart(s);
    s := ReachStep(s, CallShutdown);
    s := ReachStep(s, ShutdownStep);
    s := ReachStep(s, ShutdownStep);
  }

  /** One worker, no tasks, Shutdown past its check. */
  ghost function Lone<T>(clients: seq<ClientPc<T>>, worker: WorkerPc, mtx: Owner): Pool<T> {
    Pool([worker], clients, SettingFlag, mtx, [], false, [], [], [], 0)
  }

  /** The lone worker's way to its wait. */
  lemma LoneWorker<T>(clients: seq<ClientPc<T>>)
    ensures var s := Lone(clients, AtLoop, Free);
      Enabled(s, WorkerStep(0)) && Apply(s, WorkerStep(0)) == Lone(clients, WantLock, Free)
    ensures var s := Lone(clients, WantLock, Free);
      Enabled(s, WorkerStep(0)) && Apply(s, WorkerStep(0)) == Lone(clients, Testing, ByWorker(0))
    ensures var s := Lone(clients, Testing, ByWorker(0));
      Enabled(s, WorkerStep(0)) && Apply(s, WorkerStep(0)) == Lone(clients, Blocking, ByWorker(0))
  {
    forall was: WorkerPc, pc: WorkerPc ensures [was][0 := pc] == [pc] { }
  }

  /** One worker that has passed its test while Shutdown has passed its own. */
  lemma WindowOpens<T(!new)>() returns (s: Pool<T>)
    ensures Reachable(s) && s == Lone([], Blocking, ByWorker(0))
  {
    LoneWorker<T>([]);
    s := CheckPassed([]);
    s := ReachStep(s, ShutdownStep);
    s := ReachStep(s, WorkerStep(0));
    s := ReachStep(s, WorkerStep(0));
    s := ReachStep(s, WorkerStep(0));
  }

  /** As written the window is reachable: one worker, no tasks, and Shutdown is about to notify a worker that
      is about to block. */
  lemma WindowReachable<T(!new)>() returns (s: Pool<T>)
    ensures Reachable(s) && s.shutdown.WakingAll? && NoClients(s) && s.workers == [Blocking]
    ensures !CanReturn(Apply(s, ShutdownStep))
  {
    s := WindowOpens();
    s := ReachStep(s, ShutdownStep);
    assert s.workers[0] == Blocking;
    ReachableInv(s);
    HangsIffWorkerBetweenTestAndBlock(s);
  }

  /** Shutdown saw the list empty, then a task was pushed. */
  lemma LatePush<T(!new)>(task: T) returns (s: Pool<T>)
    ensures Reachable(s) && s == Pool([AtLoop], [Notifying], WantThreads, Free, [task], false, [task], [], [], 0)
  {
    s := CheckPassed([Outside]);
    s := ReachStep(s, Call(0, task));
    assert s.clients == [WantPush(task)];
    s := ReachStep(s, ClientStep(0, 0));
    assert s.clients == [Pushing(task)];
    s := ReachStep(s, ClientStep(0, 0));
    assert s.clients == [Notifying];
  }

  /** And a task pushed after Shutdown saw the list empty can be dropped, although Shutdown returns. */
  lemma LatePushCanBeLost<T(!new)>(task: T) returns (s: Pool<T>)
    ensures Reachable(s) && s.shutdown.Returned? && s.submitted == [task] && s.finished == []
  {
    s := LatePush(task);
    s := ReachStep(s, ShutdownStep);
    s := ReachStep(s, ShutdownStep);
    s := ReachStep(s, ShutdownStep);
    assert s.workers == [AtLoop];
    s := ReachStep(s, WorkerStep(0));
    assert s.workers == [Exited];
    s := ReachStep(s, ShutdownStep);
    s := ReachStep(s, ShutdownStep);
  }
}
