/** What is decided at the moment in which `ThreadPool::Shutdown` writes the flag: which tasks will have run
    when it returns, and whether it can still hang. */
module PoolFlag {
  import opened ThreadPool
  import opened PoolShutdown

  // ----- which tasks run

  ghost function Poppers<T>(s: Pool<T>): nat { if Popping in s.workers then 1 else 0 }

  lemma NoPopper<T>(s: Pool<T>)
    requires forall w :: 0 <= w < |s.workers| ==> !s.workers[w].Popping?
    ensures Poppers(s) == 0
  {
  }

  /** With the flag up only the worker that has already read it as false still takes a task. */
  lemma PopperTakesOne<T>(s: Pool<T>, w: nat)
    requires MutexInv(s) && FlagInv(s) && s.terminate && Enabled(s, WorkerStep(w))
    ensures |WorkerMove(s, w).dispatched| + Poppers(WorkerMove(s, w)) == |s.dispatched| + Poppers(s)
  {
    var t := WorkerMove(s, w);
    if s.workers[w].Popping? {
      assert WorkerKnows(s.workers[w], s.tasks == [], s.terminate);
      assert s.workers[w] in s.workers;
      assert s.mtx == ByWorker(w);
      assert forall v :: 0 <= v < |s.workers| && v != w ==> !OwnsMutex(s.workers[v]);
      NoPopper(t);
    } else {
      assert Popping in s.workers <==> Popping in t.workers by { SamePoppers(s, t, w); }
    }
  }

  lemma SamePoppers<T>(s: Pool<T>, t: Pool<T>, w: nat)
    requires w < |s.workers| == |t.workers| && !s.workers[w].Popping? && !t.workers[w].Popping?
    requires forall v :: 0 <= v < |s.workers| && v != w ==> t.workers[v] == s.workers[v]
    ensures Popping in s.workers <==> Popping in t.workers
  {
    if Popping in s.workers {
      var v :| 0 <= v < |s.workers| && s.workers[v] == Popping;
      assert t.workers[v] == Popping;
    }
    if Popping in t.workers {
      var v :| 0 <= v < |t.workers| && t.workers[v] == Popping;
      assert s.workers[v] == Popping;
    }
  }

  lemma OtherStepsTakeNone<T>(s: Pool<T>, step: Step<T>)
    requires s.terminate && Enabled(s, step) && !step.WorkerStep?
    ensures var t := Apply(s, step); t.terminate && t.dispatched == s.dispatched && Poppers(t) == Poppers(s)
  {
    var t := Apply(s, step);
    assert |t.workers| == |s.workers|;
    assert forall v :: 0 <= v < |s.workers| ==> (s.workers[v].Popping? <==> t.workers[v].Popping?);
    if Popping in s.workers {
      var v :| 0 <= v < |s.workers| && s.workers[v] == Popping;
      assert t.workers[v] == Popping;
    } else {
      assert forall v :: 0 <= v < |s.workers| ==> s.workers[v] in s.workers;
      NoPopper(t);
    }
  }

  lemma {:induction false} TakenInTheEnd<T>(s: Pool<T>, steps: seq<Step<T>>, t: Pool<T>)
    requires Inv(s) && s.terminate && Runs(s, steps, t)
    ensures Inv(t) && |t.dispatched| + Poppers(t) == |s.dispatched| + Poppers(s)
    decreases steps
  {
    if steps != [] {
      InvStep(s, steps[0]);
      if steps[0].WorkerStep? {
        PopperTakesOne(s, steps[0].w);
        FlagStays(s, steps[0]);
      } else {
        OtherStepsTakeNone(s, steps[0]);
      }
      TakenInTheEnd(Apply(s, steps[0]), steps[1..], t);
    }
  }

  lemma FlagStays<T>(s: Pool<T>, step: Step<T>)
    requires s.terminate && Enabled(s, step)
    ensures Apply(s, step).terminate
  {
  }

  lemma AllTakenHaveRun<T>(s: Pool<T>)
    requires Inv(s) && s.shutdown.Returned?
    ensures Poppers(s) == 0
    ensures forall k: nat :: k < |s.submitted| ==> (k in s.finished <==> k < |s.dispatched|)
  {
    NoPopper(s);
    forall k: nat | k < |s.dispatched| ensures k in s.finished { assert Running(k) !in s.workers; }
  }

  /** When Shutdown returns, the tasks that have run are those already taken when the flag was written, and one
      more if a worker was just about to take it; every other task ever pushed is lost. */
  lemma FlagDecidesFate<T>(s: Pool<T>, steps: seq<Step<T>>, t: Pool<T>)
    requires Inv(s) && s.shutdown.SettingFlag? && Runs(Apply(s, ShutdownStep), steps, t) && t.shutdown.Returned?
    ensures forall k: nat :: k < |t.submitted| ==>
      (k in t.finished <==> k < |s.dispatched| + (if Popping in s.workers then 1 else 0))
  {
    InvStep(s, ShutdownStep);
    TakenInTheEnd(Apply(s, ShutdownStep), steps, t);
    AllTakenHaveRun(t);
  }

  // ----- whether Shutdown can hang

  ghost predicate AllAsleep<T>(s: Pool<T>) { forall w :: 0 <= w < |s.workers| ==> s.workers[w].Blocked? }

  /** Some unaided run leads to a state from which no unaided run returns. */
  ghost predicate MayHang<T(!new)>(s: Pool<T>) {
    exists steps: seq<Step<T>>, t: Pool<T> :: Unaided(steps) && Runs(s, steps, t) && !CanReturn(t)
  }

  lemma MayHangStep<T(!new)>(s: Pool<T>, step: Step<T>)
    requires Enabled(s, step) && !step.Call? && !step.Spurious? && MayHang(Apply(s, step))
    ensures MayHang(s)
  {
    var rest: seq<Step<T>>, t: Pool<T> :| Unaided(rest) && Runs(Apply(s, step), rest, t) && !CanReturn(t);
    RunsCons(s, step, rest, t);
  }

  /** Every worker has been woken, or is asleep and nobody will wake it before `notify_all` does. */
  ghost predicate Safe<T>(s: Pool<T>) {
    && Inv(s)
    && (WokenUp(s)
        || (AllAsleep(s) && (NoClients(s) || s.workers == []) && (s.shutdown.SettingFlag? || s.shutdown.WakingAll?)))
  }

  lemma SafeStep<T>(s: Pool<T>, step: Step<T>)
    requires Safe(s) && Enabled(s, step) && !step.Call? && !step.Spurious?
    ensures Safe(Apply(s, step))
  {
    InvStep(s, step);
    if WokenUp(s) { WokenUpStep(s, step); }
  }

  lemma {:induction false} SafeRun<T>(s: Pool<T>, steps: seq<Step<T>>, t: Pool<T>)
    requires Safe(s) && Unaided(steps) && Runs(s, steps, t)
    ensures Safe(t)
    decreases steps
  {
    if steps != [] {
      SafeStep(s, steps[0]);
      SafeRun(Apply(s, steps[0]), steps[1..], t);
    }
  }

  lemma {:induction false} SafeCanReturn<T(!new)>(s: Pool<T>)
    requires Safe(s)
    ensures CanReturn(s)
    decreases if WokenUp(s) then 0 else if s.shutdown.WakingAll? then 1 else 2
  {
    if WokenUp(s) {
      RunToReturn(s);
    } else {
      SafeStep(s, ShutdownStep);
      SafeCanReturn(Apply(s, ShutdownStep));
      CanReturnStep(s, ShutdownStep);
    }
  }

  /** How far a worker is from its wait, if it finds no task on the way. */
  function ToWait(pc: WorkerPc): nat {
    match pc
    case Running(_) => 6
    case AtLoop => 5
    case WantLock => 4
    case Woken => 4
    case Testing => 3
    case Deciding => 2
    case Popping => 1
    case _ => 0
  }

  ghost function WaitMeasure<T>(s: Pool<T>): nat { 7 * |s.tasks| + Total(s.workers, ToWait) }

  /** Shutdown is about to write the flag, and some worker is awake. */
  ghost predicate Wakeful<T>(s: Pool<T>) {
    Inv(s) && NoClients(s) && s.shutdown.SettingFlag? && !AllAsleep(s)
  }

  lemma AwakeCanMove<T>(s: Pool<T>) returns (w: nat)
    requires Wakeful(s)
    ensures Enabled(s, WorkerStep(w))
  {
    w :| 0 <= w < |s.workers| && !s.workers[w].Blocked?;
    assert WorkerKnows(s.workers[w], s.tasks == [], s.terminate);
    if !s.mtx.Free? && (s.workers[w].WantLock? || s.workers[w].Woken?) {
      w := s.mtx.w;
    }
  }

  lemma NearerToWait<T>(s: Pool<T>, w: nat)
    requires Wakeful(s) && Enabled(s, WorkerStep(w)) && !s.workers[w].Blocking?
    ensures Wakeful(WorkerMove(s, w)) && WaitMeasure(WorkerMove(s, w)) < WaitMeasure(s)
  {
    InvStep(s, WorkerStep(w));
    assert WorkerKnows(s.workers[w], s.tasks == [], s.terminate);
    TotalUpdate(s.workers, w, WorkerMove(s, w).workers[w], ToWait);
    assert !WorkerMove(s, w).workers[w].Blocked?;
  }

  lemma {:induction false} WakefulMayHang<T(!new)>(s: Pool<T>)
    requires Wakeful(s)
    ensures MayHang(s)
    decreases WaitMeasure(s)
  {
    var w := AwakeCanMove(s);
    if s.workers[w].Blocking? {
      FlagBeforeBlock(s, w);
    } else {
      NearerToWait(s, w);
      WakefulMayHang(WorkerMove(s, w));
      MayHangStep(s, WorkerStep(w));
    }
  }

  /** The flag is written and the notification sent while the worker is between its test and its block. */
  lemma FlagBeforeBlock<T(!new)>(s: Pool<T>, w: nat)
    requires Wakeful(s) && w < |s.workers| && s.workers[w].Blocking?
    ensures MayHang(s)
  {
    var t := Apply(s, ShutdownStep);
    var u := Apply(t, ShutdownStep);
    StrandedNeverReturns(u, w);
    assert Unaided<T>([]) && Runs(u, [], u);
    MayHangStep(t, ShutdownStep);
    MayHangStep(s, ShutdownStep);
  }

  // ----- with callers inside `execute`

  function ToLeave<T>(pc: ClientPc<T>): nat {
    match pc
    case WantPush(_) => 3
    case Pushing(_) => 2
    case Notifying => 1
    case Outside => 0
  }

  function Inside<T>(cs: seq<ClientPc<T>>): nat { if cs == [] then 0 else ToLeave(cs[0]) + Inside(cs[1..]) }

  lemma {:induction false} InsideUpdate<T>(cs: seq<ClientPc<T>>, c: nat, pc: ClientPc<T>)
    requires c < |cs|
    ensures Inside(cs[c := pc]) + ToLeave(cs[c]) == Inside(cs) + ToLeave(pc)
  {
    if c == 0 {
      assert cs[0 := pc][1..] == cs[1..];
    } else {
      InsideUpdate(cs[1..], c - 1, pc);
      assert cs[c := pc][1..] == cs[1..][c - 1 := pc];
    }
  }

  /** How many steps the worker that owns the task mutex keeps it. */
  function ToRelease<T>(s: Pool<T>): nat {
    if s.mtx.ByWorker? && s.mtx.w < |s.workers| then
      match s.workers[s.mtx.w]
      case Testing => 3
      case Deciding => 2
      case _ => 1
    else 0
  }

  /** Shutdown is about to write the flag; some worker is awake or will be notified. */
  ghost predicate Stirring<T>(s: Pool<T>) {
    Inv(s) && s.shutdown.SettingFlag? && s.workers != [] && (!AllAsleep(s) || !NoClients(s))
  }

  lemma OwnerReleases<T>(s: Pool<T>)
    requires Stirring(s) && !NoClients(s) && s.mtx.ByWorker?
    ensures Enabled(s, WorkerStep(s.mtx.w))
    ensures var t := WorkerMove(s, s.mtx.w);
      Stirring(t) && Inside(t.clients) == Inside(s.clients) && ToRelease(t) < ToRelease(s)
  {
    assert OwnsMutex(s.workers[s.mtx.w]);
    InvStep(s, WorkerStep(s.mtx.w));
  }

  lemma CallerPushes<T>(s: Pool<T>, c: nat)
    requires Stirring(s) && Enabled(s, ClientStep(c, 0)) && !s.clients[c].Notifying?
    ensures Stirring(ClientMove(s, c, 0)) && Inside(ClientMove(s, c, 0).clients) < Inside(s.clients)
  {
    var t := ClientMove(s, c, 0);
    InvStep(s, ClientStep(c, 0));
    InsideUpdate(s.clients, c, t.clients[c]);
    assert !t.clients[c].Outside?;
  }

  lemma CallerNotifies<T>(s: Pool<T>, c: nat) returns (v: nat)
    requires Stirring(s) && c < |s.clients| && s.clients[c].Notifying?
    ensures Enabled(s, ClientStep(c, v))
    ensures Stirring(ClientMove(s, c, v)) && Inside(ClientMove(s, c, v).clients) < Inside(s.clients)
  {
    v := 0;
    if !NobodyBlocked(s.workers) { v :| 0 <= v < |s.workers| && s.workers[v].Blocked?; }
    InvStep(s, ClientStep(c, v));
    InsideUpdate(s.clients, c, Outside);
    assert !ClientMove(s, c, v).workers[v].Blocked?;
  }

  lemma {:induction false} StirringMayHang<T(!new)>(s: Pool<T>)
    requires Stirring(s)
    ensures MayHang(s)
    decreases Inside(s.clients), ToRelease(s)
  {
    if NoClients(s) {
      WakefulMayHang(s);
    } else {
      var c :| 0 <= c < |s.clients| && !s.clients[c].Outside?;
      var step: Step<T>;
      if s.clients[c].Notifying? {
        var v := CallerNotifies(s, c);
        step := ClientStep(c, v);
      } else if s.mtx.ByWorker? {
        OwnerReleases(s);
        step := WorkerStep(s.mtx.w);
      } else {
        var d := if s.mtx.ByClient? then s.mtx.c else c;
        CallerPushes(s, d);
        step := ClientStep(d, 0);
      }
      StirringMayHang(Apply(s, step));
      MayHangStep(s, step);
    }
  }

  /** From the moment in which the flag is about to be written, Shutdown can hang without a new caller or a
      spurious wakeup if and only if some worker is not asleep, or will be notified by a caller inside
      `execute`. */
  lemma MayHangIffSomeoneStirs<T(!new)>(s: Pool<T>)
    requires Inv(s) && s.shutdown.SettingFlag?
    ensures MayHang(s) <==> s.workers != [] && (!AllAsleep(s) || !NoClients(s))
  {
    if s.workers != [] && (!AllAsleep(s) || !NoClients(s)) {
      StirringMayHang(s);
    } else {
      forall steps: seq<Step<T>>, t: Pool<T> | Unaided(steps) && Runs(s, steps, t)
        ensures CanReturn(t)
      {
        SafeRun(s, steps, t);
        SafeCanReturn(t);
      }
    }
  }
}
