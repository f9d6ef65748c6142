/** Whether `TimerQueue::Shutdown` comes back. */
module TimerHang {
  import opened Options
  import opened TaskSet
  import opened TimerQueue
  import opened TimerInvariants
  import TS = TimerShutdown
  import P = ThreadPool
  import PS = PoolShutdown
  import PF = PoolFlag

  ghost predicate NoSpuriousWorker(steps: seq<Step>) {
    forall i :: 0 <= i < |steps| ==> !steps[i].PoolSpurious?
  }

  /** Some run from `s` on, in which no worker wakes spuriously, leads to the return of Shutdown. */
  ghost predicate CanReturn(s: Timer) {
    exists steps: seq<Step>, t: Timer :: NoSpuriousWorker(steps) && Runs(s, steps, t) && SdReturned in t.callers
  }

  lemma RunsCons(s: Timer, step: Step, rest: seq<Step>, t: Timer)
    requires Enabled(s, step) && !step.PoolSpurious? && NoSpuriousWorker(rest) && Runs(Apply(s, step), rest, t)
    ensures NoSpuriousWorker([step] + rest) && Runs(s, [step] + rest, t)
  {
    assert ([step] + rest)[1..] == rest;
  }

  lemma CanReturnStep(s: Timer, step: Step)
    requires Enabled(s, step) && !step.PoolSpurious? && CanReturn(Apply(s, step))
    ensures CanReturn(s)
  {
    var rest: seq<Step>, t: Timer :|
      NoSpuriousWorker(rest) && Runs(Apply(s, step), rest, t) && SdReturned in t.callers;
    RunsCons(s, step, rest, t);
  }

  lemma HasReturned(s: Timer)
    requires SdReturned in s.callers
    ensures CanReturn(s)
  {
    assert NoSpuriousWorker([]) && Runs(s, [], s);
  }

  /** Inside the pool's Shutdown its caller owns the timer mutex. */
  ghost predicate Closing(s: Timer) { CoreInv(s) && s.owner.Caller? && s.callers[s.owner.c].SdPool? }

  // ----- a worker that has missed the notification

  ghost predicate StrandedTimer(s: Timer, w: nat) { CoreInv(s) && PS.Stranded(s.pool, w) }

  lemma StrandedPool(p: P.Pool<Task>, step: P.Step<Task>, w: nat)
    requires PS.Stranded(p, w) && P.Enabled(p, step) && !step.Call? && !step.Spurious?
    ensures PS.Stranded(P.Apply(p, step), w)
  {
    var q := P.Apply(p, step);
    assert P.Runs(q, [], q);
    assert [step][1..] == [];
    PS.StrandedForever(p, [step], q, w);
  }

  lemma StrandedStep(s: Timer, step: Step, w: nat)
    requires StrandedTimer(s, w) && !step.PoolSpurious? && Enabled(s, step)
    ensures StrandedTimer(Apply(s, step), w)
  {
    CoreStep(s, step);
    var still, p := PoolRefines(s, step);
    if !still { StrandedPool(s.pool, p, w); }
  }

  /** Once a worker is stranded it stays so in the whole system: after the flag nobody pushes, so the pool's
      hypothesis that no client helps holds for good. */
  lemma {:induction false} StrandedInTimer(s: Timer, steps: seq<Step>, t: Timer, w: nat)
    requires StrandedTimer(s, w) && NoSpuriousWorker(steps) && Runs(s, steps, t)
    ensures StrandedTimer(t, w)
    decreases steps
  {
    if steps != [] {
      StrandedStep(s, steps[0], w);
      StrandedInTimer(Apply(s, steps[0]), steps[1..], t, w);
    }
  }

  lemma StrandedNeverReturns(s: Timer, w: nat)
    requires StrandedTimer(s, w)
    ensures !CanReturn(s)
  {
    forall steps: seq<Step>, u: Timer | NoSpuriousWorker(steps) && Runs(s, steps, u)
      ensures SdReturned !in u.callers
    {
      StrandedInTimer(s, steps, u, w);
      assert CloserInv(u) && u.pool.shutdown.Joining?;
    }
  }

  // ----- a function that waits for the timer mutex

  /** The function of worker w is adding a task, and waits for the mutex that the caller of Shutdown owns. */
  ghost predicate Stuck(s: Timer, w: nat) {
    && Closing(s) && w < |s.calling| && s.calling[w].Some? && s.callers[s.calling[w].value].AddWant?
  }

  lemma StuckNotReturned(s: Timer, w: nat)
    requires Stuck(s, w)
    ensures !s.pool.shutdown.Returned?
  {
    assert s.pool.workers[w].Running?;
  }

  lemma StuckCaller(s: Timer, c: nat, w: nat)
    requires Stuck(s, w) && Enabled(s, CallerStep(c))
    ensures Stuck(CallerMove(s, c), w)
  {
    CoreStep(s, CallerStep(c));
    StuckNotReturned(s, w);
    assert CallerOwns(s.callers[c]) ==> c == s.owner.c;
  }

  lemma StuckDaemon(s: Timer, v: nat, w: nat)
    requires Stuck(s, w) && Enabled(s, DaemonStep(v))
    ensures Stuck(DaemonMove(s, v), w)
  {
    CoreStep(s, DaemonStep(v));
    DaemonKeepsCalls(s, v);
    assert !DaemonOwns(s.daemon);
  }

  lemma StuckStep(s: Timer, step: Step, w: nat)
    requires Stuck(s, w) && Enabled(s, step)
    ensures Stuck(Apply(s, step), w)
  {
    match step
    case CallerStep(c) => StuckCaller(s, c, w);
    case DaemonStep(v) => StuckDaemon(s, v, w);
    case PoolWorker(v) => CoreStep(s, step);
    case TaskAdds(v, c, due) => StuckAdds(s, v, c, due, w);
    case _ => StuckOther(s, step, w);
  }

  lemma StuckAdds(s: Timer, v: nat, c: nat, due: int, w: nat)
    requires Stuck(s, w) && Enabled(s, TaskAdds(v, c, due))
    ensures Stuck(Apply(s, TaskAdds(v, c, due)), w)
  {
    CoreStep(s, TaskAdds(v, c, due));
  }

  lemma StuckOther(s: Timer, step: Step, w: nat)
    requires Stuck(s, w) && Enabled(s, step)
    requires !step.CallerStep? && !step.DaemonStep? && !step.PoolWorker? && !step.TaskAdds?
    ensures Stuck(Apply(s, step), w)
  {
    CoreStep(s, step);
  }

  lemma {:induction false} StuckForever(s: Timer, steps: seq<Step>, t: Timer, w: nat)
    requires Stuck(s, w) && Runs(s, steps, t)
    ensures Stuck(t, w)
    decreases steps
  {
    if steps != [] {
      StuckStep(s, steps[0], w);
      StuckForever(Apply(s, steps[0]), steps[1..], t, w);
    }
  }

  lemma StuckNeverReturns(s: Timer, w: nat)
    requires Stuck(s, w)
    ensures !CanReturn(s)
  {
    forall steps: seq<Step>, u: Timer | NoSpuriousWorker(steps) && Runs(s, steps, u)
      ensures SdReturned !in u.callers
    {
      StuckForever(s, steps, u, w);
      StuckNotReturned(u, w);
      assert CloserInv(u);
    }
  }

  /** Some function waits for the timer mutex. */
  ghost predicate FunctionWaits(s: Timer) {
    exists w :: 0 <= w < |s.calling| && s.calling[w].Some? && s.calling[w].value < |s.callers|
      && s.callers[s.calling[w].value].AddWant?
  }

  /** While Shutdown is inside the pool, any function that starts to add a task makes it hang. */
  lemma AddingFunctionHangs(s: Timer, w: nat, c: nat, due: int)
    requires Closing(s) && Enabled(s, TaskAdds(w, c, due))
    ensures !CanReturn(Apply(s, TaskAdds(w, c, due)))
  {
    CoreStep(s, TaskAdds(w, c, due));
    StuckNeverReturns(Apply(s, TaskAdds(w, c, due)), w);
  }

  // ----- otherwise it returns

  /** The pool's Shutdown is past `notify_all` with nobody asleep, and no function waits for the mutex. */
  ghost predicate ClosingWell(s: Timer) { Closing(s) && PS.WokenUp(s.pool) && !FunctionWaits(s) }

  const IsInside: Option<nat> -> bool := (o: Option<nat>) => o.Some?

  ghost function Calls(s: Timer): nat { P.Count(s.calling, IsInside) }

  /** A function inside a call that does not wait for the mutex has only the notification left. */
  lemma CallEnds(s: Timer, w: nat)
    requires Closing(s) && InsideCall(s, w) && !FunctionWaits(s)
    ensures Enabled(s, CallerStep(s.calling[w].value))
    ensures var t := Apply(s, CallerStep(s.calling[w].value));
      && Closing(t) && t.pool == s.pool && t.calling == s.calling[w := None]
      && (forall d :: 0 <= d < |s.callers| ==> (t.callers[d].AddWant? <==> s.callers[d].AddWant?))
  {
    var c := s.calling[w].value;
    assert CallerOwns(s.callers[c]) ==> s.owner == Caller(c);
    CoreStep(s, CallerStep(c));
  }

  lemma CallEndsCloser(s: Timer, w: nat)
    requires ClosingWell(s) && InsideCall(s, w)
    ensures var c := s.calling[w].value;
      Enabled(s, CallerStep(c)) && ClosingWell(Apply(s, CallerStep(c)))
      && Apply(s, CallerStep(c)).pool == s.pool && Calls(Apply(s, CallerStep(c))) < Calls(s)
  {
    CallEnds(s, w);
    P.CountUpdate(s.calling, w, None, IsInside);
  }

  lemma PoolStepCloses(s: Timer, step: Step, p: P.Step<Task>)
    requires ClosingWell(s) && Enabled(s, step) && P.Enabled(s.pool, p) && PS.Internal(p)
    requires Apply(s, step).pool == P.Apply(s.pool, p) && Apply(s, step).calling == s.calling
    requires Apply(s, step).owner == s.owner && Apply(s, step).callers == s.callers
    ensures ClosingWell(Apply(s, step)) && PS.Measure(Apply(s, step).pool) < PS.Measure(s.pool)
  {
    CoreStep(s, step);
    PS.WokenUpStep(s.pool, p);
  }

  lemma ShutdownCloser(s: Timer)
    requires ClosingWell(s) && !s.pool.shutdown.Returned? && P.Enabled(s.pool, P.ShutdownStep)
    ensures var a := CallerStep(s.owner.c);
      Enabled(s, a) && ClosingWell(Apply(s, a)) && PS.Measure(Apply(s, a).pool) < PS.Measure(s.pool)
  {
    var a := CallerStep(s.owner.c);
    assert Apply(s, a) == s.(pool := P.Apply(s.pool, P.ShutdownStep));
    PoolStepCloses(s, a, P.ShutdownStep);
  }

  /** How long the worker sleeps for. */
  ghost function Delay(s: Timer, w: nat): nat
    requires w < |s.pool.workers|
  {
    if TooEarly(s, w) then s.pool.dispatched[s.pool.workers[w].k].due - s.now else 0
  }

  ghost function OnTime(s: Timer, w: nat): Timer
    requires w < |s.pool.workers|
  {
    Apply(s, Tick(Delay(s, w)))
  }

  lemma TickKeeps(s: Timer, w: nat)
    requires CoreInv(s) && w < |s.pool.workers|
    ensures CoreInv(OnTime(s, w)) && !TooEarly(OnTime(s, w), w) && OnTime(s, w) == s.(now := OnTime(s, w).now)
  {
    CoreStep(s, Tick(Delay(s, w)));
  }

  lemma WorkerCloser(s: Timer, w: nat)
    requires ClosingWell(s) && P.Enabled(s.pool, P.WorkerStep(w)) && !InsideCall(s, w)
    ensures var u := OnTime(s, w);
      Enabled(u, PoolWorker(w)) && ClosingWell(Apply(u, PoolWorker(w)))
      && PS.Measure(Apply(u, PoolWorker(w)).pool) < PS.Measure(s.pool)
  {
    TickKeeps(s, w);
    PoolStepCloses(OnTime(s, w), PoolWorker(w), P.WorkerStep(w));
  }

  lemma {:induction false} RunToReturn(s: Timer)
    requires ClosingWell(s)
    ensures CanReturn(s)
    decreases PS.Measure(s.pool), Calls(s)
  {
    if s.pool.shutdown.Returned? {
      var a := CallerStep(s.owner.c);
      assert Apply(s, a).callers[s.owner.c] == SdReturned;
      HasReturned(Apply(s, a));
      CanReturnStep(s, a);
      return;
    }
    var p := PS.ExitProgress(s.pool);
    assert s.terminate && PS.Internal(p);
    if p.ShutdownStep? {
      ShutdownCloser(s);
      RunToReturn(Apply(s, CallerStep(s.owner.c)));
      CanReturnStep(s, CallerStep(s.owner.c));
    } else if InsideCall(s, p.w) {
      CallEndsCloser(s, p.w);
      RunToReturn(Apply(s, CallerStep(s.calling[p.w].value)));
      CanReturnStep(s, CallerStep(s.calling[p.w].value));
    } else {
      WorkerCloser(s, p.w);
      RunToReturn(Apply(OnTime(s, p.w), PoolWorker(p.w)));
      CanReturnStep(OnTime(s, p.w), PoolWorker(p.w));
      CanReturnStep(s, Tick(Delay(s, p.w)));
    }
  }

  // ----- the exact condition at the notification

  /** The state of the whole system when the pool is about to write its flag or to notify. */
  lemma AboutToWake(s: Timer)
    requires CoreInv(s) && (s.pool.shutdown.WakingAll? || s.pool.shutdown.SettingFlag?)
    ensures s.terminate && Closing(s)
    ensures Enabled(s, CallerStep(s.owner.c)) && PS.NoClients(s.pool)
    ensures Apply(s, CallerStep(s.owner.c)) == s.(pool := P.Apply(s.pool, P.ShutdownStep))
  {
  }

  /** TimerQueue::Shutdown hangs, with no hypothesis about callers, if and only if, when the pool is about to
      notify, some worker stands between its test and its block, or some function waits for the timer mutex to
      add a task. */
  lemma TimerHangsIffWorkerBetweenTestAndBlock(s: Timer)
    requires CoreInv(s) && s.pool.shutdown.WakingAll?
    ensures s.owner.Caller? && Enabled(s, CallerStep(s.owner.c))
    ensures !CanReturn(Apply(s, CallerStep(s.owner.c))) <==> P.Blocking in s.pool.workers || FunctionWaits(s)
  {
    AboutToWake(s);
    var a := CallerStep(s.owner.c);
    var t := Apply(s, a);
    CoreStep(s, a);
    if P.Blocking in s.pool.workers {
      var w :| 0 <= w < |s.pool.workers| && s.pool.workers[w] == P.Blocking;
      assert PS.Stranded(t.pool, w);
      StrandedNeverReturns(t, w);
    } else if FunctionWaits(s) {
      var w :| 0 <= w < |s.calling| && s.calling[w].Some? && s.calling[w].value < |s.callers|
        && s.callers[s.calling[w].value].AddWant?;
      StuckNeverReturns(t, w);
    } else {
      PS.HangsIffWorkerBetweenTestAndBlock(s.pool);
      RunToReturn(t);
    }
  }

  // ----- the exact condition at the flag write

  ghost predicate MayHang(s: Timer) {
    exists steps: seq<Step>, t: Timer :: NoSpuriousWorker(steps) && Runs(s, steps, t) && !CanReturn(t)
  }

  lemma MayHangStep(s: Timer, step: Step)
    requires Enabled(s, step) && !step.PoolSpurious? && MayHang(Apply(s, step))
    ensures MayHang(s)
  {
    var rest: seq<Step>, t: Timer :| NoSpuriousWorker(rest) && Runs(Apply(s, step), rest, t) && !CanReturn(t);
    RunsCons(s, step, rest, t);
  }

  lemma HangsNow(s: Timer)
    requires !CanReturn(s)
    ensures MayHang(s)
  {
    assert NoSpuriousWorker([]) && Runs(s, [], s);
  }

  /** The pool is about to write its flag, and some worker is awake. */
  ghost predicate FlagNear(s: Timer) {
    CoreInv(s) && s.pool.shutdown.SettingFlag? && !PF.AllAsleep(s.pool)
  }

  lemma FlagNearPool(s: Timer)
    requires FlagNear(s)
    ensures PF.Wakeful(s.pool) && Closing(s)
  {
    AboutToWake(s);
  }

  lemma FlagBeforeBlock(s: Timer, w: nat)
    requires FlagNear(s) && w < |s.pool.workers| && s.pool.workers[w].Blocking?
    ensures MayHang(s)
  {
    AboutToWake(s);
    var a := CallerStep(s.owner.c);
    var t := Apply(s, a);
    CoreStep(s, a);
    AboutToWake(t);
    var u := Apply(t, a);
    CoreStep(t, a);
    StrandedNeverReturns(u, w);
    HangsNow(u);
    MayHangStep(t, a);
    MayHangStep(s, a);
  }

  lemma WorkerNearer(s: Timer, w: nat)
    requires FlagNear(s) && P.Enabled(s.pool, P.WorkerStep(w)) && !s.pool.workers[w].Blocking? && !InsideCall(s, w)
    ensures var u := OnTime(s, w);
      Enabled(u, PoolWorker(w)) && FlagNear(Apply(u, PoolWorker(w)))
      && PF.WaitMeasure(Apply(u, PoolWorker(w)).pool) < PF.WaitMeasure(s.pool)
  {
    FlagNearPool(s);
    TickKeeps(s, w);
    CoreStep(OnTime(s, w), PoolWorker(w));
    PF.NearerToWait(s.pool, w);
  }

  lemma {:induction false} AwakeMayHang(s: Timer)
    requires FlagNear(s)
    ensures MayHang(s)
    decreases PF.WaitMeasure(s.pool), Calls(s)
  {
    FlagNearPool(s);
    var w := PF.AwakeCanMove(s.pool);
    if s.pool.workers[w].Blocking? {
      FlagBeforeBlock(s, w);
    } else if FunctionWaits(s) {
      var v :| 0 <= v < |s.calling| && s.calling[v].Some? && s.calling[v].value < |s.callers|
        && s.callers[s.calling[v].value].AddWant?;
      StuckNeverReturns(s, v);
      HangsNow(s);
    } else if InsideCall(s, w) {
      CallEnds(s, w);
      P.CountUpdate(s.calling, w, None, IsInside);
      AwakeMayHang(Apply(s, CallerStep(s.calling[w].value)));
      MayHangStep(s, CallerStep(s.calling[w].value));
    } else {
      WorkerNearer(s, w);
      AwakeMayHang(Apply(OnTime(s, w), PoolWorker(w)));
      MayHangStep(OnTime(s, w), PoolWorker(w));
      MayHangStep(s, Tick(Delay(s, w)));
    }
  }

  /** Nobody runs a function or will take a task any more. */
  ghost predicate NoneAtWork(s: P.Pool<Task>) {
    && PF.Safe(s)
    && forall w :: 0 <= w < |s.workers| ==> !s.workers[w].Running? && !s.workers[w].Popping?
  }

  lemma NoneAtWorkStep(s: P.Pool<Task>, p: P.Step<Task>)
    requires NoneAtWork(s) && P.Enabled(s, p) && !p.Call? && !p.Spurious?
    ensures NoneAtWork(P.Apply(s, p))
  {
    PF.SafeStep(s, p);
  }

  ghost predicate SafeTimer(s: Timer) {
    && CoreInv(s) && s.terminate && NoneAtWork(s.pool)
    && ((s.owner.Caller? && s.callers[s.owner.c].SdPool?) || SdReturned in s.callers)
  }

  /** The caller of Shutdown stays inside the pool's Shutdown until it returns. */
  lemma CloserStays(s: Timer, step: Step)
    requires CoreInv(s) && Enabled(s, step)
    requires (s.owner.Caller? && s.callers[s.owner.c].SdPool?) || SdReturned in s.callers
    ensures var t := Apply(s, step);
      (t.owner.Caller? && t.owner.c < |t.callers| && t.callers[t.owner.c].SdPool?) || SdReturned in t.callers
  {
    var t := Apply(s, step);
    if SdReturned in s.callers {
      var c :| 0 <= c < |s.callers| && s.callers[c] == SdReturned;
      assert t.callers[c] == SdReturned;
    } else if step.CallerStep? && step.c == s.owner.c && s.pool.shutdown.Returned? {
      assert t.callers[step.c] == SdReturned;
    }
  }

  lemma TerminateStays(s: Timer, step: Step)
    requires s.terminate && Enabled(s, step)
    ensures Apply(s, step).terminate
  {
  }

  lemma SafeTimerStep(s: Timer, step: Step)
    requires SafeTimer(s) && Enabled(s, step) && !step.PoolSpurious?
    ensures SafeTimer(Apply(s, step))
  {
    CoreStep(s, step);
    CloserStays(s, step);
    TerminateStays(s, step);
    var still, p := PoolRefines(s, step);
    if !still { NoneAtWorkStep(s.pool, p); }
  }

  lemma {:induction false} SafeTimerRun(s: Timer, steps: seq<Step>, t: Timer)
    requires SafeTimer(s) && NoSpuriousWorker(steps) && Runs(s, steps, t)
    ensures SafeTimer(t)
    decreases steps
  {
    if steps != [] {
      SafeTimerStep(s, steps[0]);
      SafeTimerRun(Apply(s, steps[0]), steps[1..], t);
    }
  }

  lemma {:induction false} SafeTimerReturns(s: Timer)
    requires SafeTimer(s)
    ensures CanReturn(s)
    decreases if PS.WokenUp(s.pool) then 0 else if s.pool.shutdown.WakingAll? then 1 else 2
  {
    if SdReturned in s.callers {
      HasReturned(s);
    } else if PS.WokenUp(s.pool) {
      RunToReturn(s);
    } else {
      AboutToWake(s);
      var a := CallerStep(s.owner.c);
      SafeTimerStep(s, a);
      SafeTimerReturns(Apply(s, a));
      CanReturnStep(s, a);
    }
  }

  /** When the pool is about to write its flag, TimerQueue::Shutdown can hang exactly if some worker is awake. */
  lemma TimerMayHangIffSomeoneAwake(s: Timer)
    requires CoreInv(s) && s.pool.shutdown.SettingFlag?
    ensures MayHang(s) <==> !PF.AllAsleep(s.pool)
  {
    if PF.AllAsleep(s.pool) {
      AboutToWake(s);
      forall steps: seq<Step>, t: Timer | NoSpuriousWorker(steps) && Runs(s, steps, t) ensures CanReturn(t) {
        SafeTimerRun(s, steps, t);
        SafeTimerReturns(t);
      }
    } else {
      AwakeMayHang(s);
    }
  }

  // ----- the hang is reachable

  lemma {:induction false} RunsAppend(s: Timer, a: seq<Step>, t: Timer, b: seq<Step>, u: Timer)
    requires Runs(s, a, t) && Runs(t, b, u)
    ensures Runs(s, a + b, u)
    decreases a
  {
    if a == [] {
      assert a + b == b;
    } else {
      RunsAppend(Apply(s, a[0]), a[1..], t, b, u);
      assert (a + b)[1..] == a[1..] + b;
    }
  }

  ghost predicate Reachable(s: Timer) {
    exists s0: Timer, steps: seq<Step> :: Init(s0) && Runs(s0, steps, s)
  }

  lemma ReachStep(s: Timer, step: Step) returns (t: Timer)
    requires Reachable(s) && Enabled(s, step)
    ensures Reachable(t) && t == Apply(s, step)
  {
    var s0, steps: seq<Step> :| Init(s0) && Runs(s0, steps, s);
    t := Apply(s, step);
    assert [step][1..] == [] && Runs(t, [], t);
    assert Runs(s, [step], t);
    RunsAppend(s0, steps, s, [step], t);
  }

  /** One caller, one worker, nothing ever added. */
  ghost function Small(caller: CallerPc, owner: Owner, terminate: bool, worker: P.WorkerPc,
                       shutdown: P.ShutdownPc, mtx: P.Owner): Timer
  {
    Timer(0, [caller], DLoop, owner, [], terminate,
          P.Pool([worker], [P.Outside], shutdown, mtx, [], false, [], [], [], 0),
          0, [None], [], [], [], [], 0, [])
  }

  lemma ReachTest() returns (s: Timer)
    ensures Reachable(s) && s == Small(SdTest, Caller(0), false, P.AtLoop, P.NotCalled, P.Free)
  {
    s := Small(Idle, Nobody, false, P.AtLoop, P.NotCalled, P.Free);
    assert Runs(s, [], s);
    s := ReachStep(s, CallShutdown(0));
    assert s.callers == [SdWant];
    s := ReachStep(s, CallerStep(0));
    assert s.callers == [SdTest];
  }

  lemma ReachFlag() returns (s: Timer)
    ensures Reachable(s) && s == Small(SdWake, Caller(0), true, P.AtLoop, P.NotCalled, P.Free)
  {
    s := ReachTest();
    s := ReachStep(s, CallerStep(0));
    assert s.callers == [SdCheck];
    s := ReachStep(s, CallerStep(0));
    assert s.callers == [SdWake];
  }

  lemma ReachPool() returns (s: Timer)
    ensures Reachable(s) && s == Small(SdPool, Caller(0), true, P.AtLoop, P.Polling, P.Free)
  {
    s := ReachFlag();
    s := ReachStep(s, CallerStep(0));
    assert s.callers == [SdPool];
  }

  lemma ReachThreads() returns (s: Timer)
    ensures Reachable(s) && s == Small(SdPool, Caller(0), true, P.AtLoop, P.WantThreads, P.Free)
  {
    s := ReachPool();
    s := ReachStep(s, CallerStep(0));
    s := ReachStep(s, CallerStep(0));
  }

  lemma ReachCheck() returns (s: Timer)
    ensures Reachable(s) && s == Small(SdPool, Caller(0), true, P.AtLoop, P.SettingFlag, P.Free)
  {
    s := ReachThreads();
    s := ReachStep(s, CallerStep(0));
  }

  lemma ReachWindow() returns (s: Timer)
    ensures Reachable(s) && s == Small(SdPool, Caller(0), true, P.Blocking, P.SettingFlag, P.ByWorker(0))
  {
    PS.LoneWorker<Task>([P.Outside]);
    s := ReachCheck();
    s := ReachStep(s, PoolWorker(0));
    s := ReachStep(s, PoolWorker(0));
    s := ReachStep(s, PoolWorker(0));
  }

  lemma ReachableTimerInv(s: Timer)
    requires Reachable(s)
    ensures TimerInv(s)
  {
    var s0, steps: seq<Step> :| Init(s0) && Runs(s0, steps, s);
    TS.Reached(s0, steps, s);
  }

  lemma ReachWaking() returns (s: Timer)
    ensures Reachable(s) && s.callers == [SdPool] && s.accepted == [] && s.owner == Caller(0)
    ensures s.pool.shutdown.WakingAll? && P.Blocking in s.pool.workers
  {
    var r := ReachWindow();
    s := ReachStep(r, CallerStep(0));
    assert s.pool.workers[0] == P.Blocking;
  }

  /** As written the timer can be shut down once, with nothing pending, and never come back. */
  lemma ShutdownCanHang() returns (s: Timer)
    ensures Reachable(s) && s.callers == [SdPool] && s.accepted == [] && !CanReturn(s)
  {
    var r := ReachWaking();
    ReachableTimerInv(r);
    TimerHangsIffWorkerBetweenTestAndBlock(r);
    AboutToWake(r);
    s := ReachStep(r, CallerStep(0));
  }
}
