/** Whether a call of `ThreadPool::Shutdown` can hang, judged in the state in which it is made. */
module PoolCall {
  import opened ThreadPool
  import opened PoolShutdown
  import opened PoolFlag

  // ----- when it cannot

  /** Nobody is going to be woken before `notify_all`: the workers sleep, but for one that may still be on its
      way to its wait with the task mutex in its hands, and there is nothing to do. */
  ghost predicate Resting<T>(s: Pool<T>) {
    && NoClients(s) && s.tasks == []
    && forall w :: 0 <= w < |s.workers| ==> s.workers[w].Blocked? || s.workers[w].Testing? || s.workers[w].Blocking?
  }

  /** From the call to the flag write. */
  ghost predicate Calm<T>(s: Pool<T>) {
    && Inv(s) && Resting(s)
    && (s.shutdown.Polling? || (AllAsleep(s) && (s.shutdown.Peeking? || s.shutdown.WantThreads?)))
  }

  lemma CalmStep<T>(s: Pool<T>, step: Step<T>)
    requires Calm(s) && Enabled(s, step) && !step.Call? && !step.Spurious?
    ensures Calm(Apply(s, step)) || Safe(Apply(s, step))
  {
    InvStep(s, step);
    assert s.shutdown.Polling? && s.mtx.Free? ==> forall w :: 0 <= w < |s.workers| ==> !OwnsMutex(s.workers[w]);
  }

  lemma {:induction false} CalmRun<T>(s: Pool<T>, steps: seq<Step<T>>, t: Pool<T>)
    requires (Calm(s) || Safe(s)) && Unaided(steps) && Runs(s, steps, t)
    ensures Calm(t) || Safe(t)
    decreases steps
  {
    if steps != [] {
      if Calm(s) { CalmStep(s, steps[0]); } else { SafeStep(s, steps[0]); }
      CalmRun(Apply(s, steps[0]), steps[1..], t);
    }
  }

  function CallRank(pc: ShutdownPc): nat {
    match pc
    case Polling => 3
    case Peeking => 2
    case WantThreads => 1
    case _ => 0
  }

  /** The next step on the way to the flag: Shutdown's, once the worker in the critical section is asleep. */
  lemma CalmMoves<T>(s: Pool<T>) returns (step: Step<T>)
    requires Calm(s)
    ensures Enabled(s, step) && !step.Call? && !step.Spurious?
    ensures var t := Apply(s, step);
      Safe(t) || (Calm(t) && CallRank(t.shutdown) + ToRelease(t) < CallRank(s.shutdown) + ToRelease(s))
  {
    if s.shutdown.Polling? && s.mtx.ByWorker? {
      step := WorkerStep(s.mtx.w);
      assert OwnsMutex(s.workers[s.mtx.w]);
    } else {
      step := ShutdownStep;
    }
    CalmStep(s, step);
  }

  lemma {:induction false} CalmCanReturn<T(!new)>(s: Pool<T>)
    requires Calm(s) || Safe(s)
    ensures CanReturn(s)
    decreases if Safe(s) then 0 else 1 + CallRank(s.shutdown) + ToRelease(s)
  {
    if Safe(s) {
      SafeCanReturn(s);
    } else {
      var step := CalmMoves(s);
      CalmCanReturn(Apply(s, step));
      CanReturnStep(s, step);
    }
  }

  // ----- when it can

  /** Awake, and not on its way to its wait. */
  predicate Up(pc: WorkerPc) { pc.AtLoop? || pc.WantLock? || pc.Woken? || pc.Running? }

  ghost predicate SomeoneUp<T>(s: Pool<T>) { exists w :: 0 <= w < |s.workers| && Up(s.workers[w]) }

  /** There are workers, and one is up, or something is left to do, or a caller is inside `execute`. */
  ghost predicate Restless<T>(s: Pool<T>) {
    s.workers != [] && (!NoClients(s) || s.tasks != [] || SomeoneUp(s))
  }

  ghost predicate RestlessCall<T>(s: Pool<T>) { Inv(s) && s.shutdown.Polling? && Restless(s) }

  lemma StaysUp<T>(s: Pool<T>, t: Pool<T>, w: nat)
    requires SomeoneUp(s) && |t.workers| == |s.workers| && w < |s.workers| && !Up(s.workers[w])
    requires forall v :: 0 <= v < |s.workers| && v != w ==> t.workers[v] == s.workers[v]
    ensures SomeoneUp(t)
  {
    var v :| 0 <= v < |s.workers| && Up(s.workers[v]);
    assert Up(t.workers[v]);
  }

  /** The worker in the critical section goes on. */
  lemma OwnerGoesOn<T>(s: Pool<T>)
    requires RestlessCall(s) && s.mtx.ByWorker?
    ensures Enabled(s, WorkerStep(s.mtx.w))
    ensures var t := WorkerMove(s, s.mtx.w);
      && RestlessCall(t) && t.clients == s.clients
      && WaitMeasure(t) <= WaitMeasure(s)
      && (WaitMeasure(t) == WaitMeasure(s) ==> ToRelease(t) < ToRelease(s))
  {
    var w := s.mtx.w;
    var t := WorkerMove(s, w);
    assert OwnsMutex(s.workers[w]) && WorkerKnows(s.workers[w], s.tasks == [], s.terminate);
    InvStep(s, WorkerStep(w));
    TotalUpdate(s.workers, w, t.workers[w], ToWait);
    if s.workers[w].Popping? {
      assert Up(t.workers[w]);
    } else if SomeoneUp(s) {
      StaysUp(s, t, w);
    }
  }

  /** A caller goes on towards its notification. */
  lemma CallerGoesOn<T>(s: Pool<T>, c: nat)
    requires RestlessCall(s) && Enabled(s, ClientStep(c, 0)) && !s.clients[c].Notifying?
    ensures RestlessCall(ClientMove(s, c, 0)) && Inside(ClientMove(s, c, 0).clients) < Inside(s.clients)
  {
    var t := ClientMove(s, c, 0);
    InvStep(s, ClientStep(c, 0));
    InsideUpdate(s.clients, c, t.clients[c]);
    assert !t.clients[c].Outside?;
  }

  /** A caller's notification wakes someone, or everyone was awake. */
  lemma CallerWakes<T>(s: Pool<T>, c: nat) returns (v: nat)
    requires RestlessCall(s) && !s.mtx.ByWorker? && c < |s.clients| && s.clients[c].Notifying?
    ensures Enabled(s, ClientStep(c, v))
    ensures RestlessCall(ClientMove(s, c, v)) && Inside(ClientMove(s, c, v).clients) < Inside(s.clients)
  {
    v := 0;
    if !NobodyBlocked(s.workers) { v :| 0 <= v < |s.workers| && s.workers[v].Blocked?; }
    InvStep(s, ClientStep(c, v));
    InsideUpdate(s.clients, c, Outside);
    assert WorkerKnows(s.workers[v], s.tasks == [], s.terminate) && !OwnsMutex(s.workers[v]);
    assert Up(ClientMove(s, c, v).workers[v]);
  }

  /** With the mutex free and tasks waiting some worker is up: otherwise a wakeup would have been lost. */
  lemma TasksMeanUp<T>(s: Pool<T>) returns (w: nat)
    requires RestlessCall(s) && NoClients(s) && s.mtx.Free?
    ensures w < |s.workers| && Up(s.workers[w]) && Enabled(s, WorkerStep(w))
  {
    if !SomeoneUp(s) {
      forall v | 0 <= v < |s.workers| ensures s.workers[v].Blocked? {
        assert WorkerKnows(s.workers[v], s.tasks == [], s.terminate) && !OwnsMutex(s.workers[v]);
        assert !Up(s.workers[v]);
      }
      AllCounted(s.workers);
      CountNone(s.clients, IsNotifying<T>());
      assert false;
    }
    w :| 0 <= w < |s.workers| && Up(s.workers[w]);
  }

  lemma {:induction false} AllCounted(ws: seq<WorkerPc>)
    requires forall w :: 0 <= w < |ws| ==> ws[w].Blocked?
    ensures Count(ws, IsBlocked) == |ws|
  {
    if ws != [] { AllCounted(ws[1..]); }
  }

  /** A worker that is up goes on while tasks wait. */
  lemma UpGoesOn<T>(s: Pool<T>, w: nat)
    requires RestlessCall(s) && s.mtx.Free? && s.tasks != [] && Enabled(s, WorkerStep(w)) && Up(s.workers[w])
    ensures RestlessCall(WorkerMove(s, w)) && WorkerMove(s, w).clients == s.clients
    ensures WaitMeasure(WorkerMove(s, w)) < WaitMeasure(s)
  {
    InvStep(s, WorkerStep(w));
    TotalUpdate(s.workers, w, WorkerMove(s, w).workers[w], ToWait);
  }

  /** With nothing to do Shutdown goes on to the flag, and the worker stays up. */
  lemma FlagWithSomeoneUp<T(!new)>(s: Pool<T>, w: nat)
    requires RestlessCall(s) && NoClients(s) && s.mtx.Free? && s.tasks == [] && w < |s.workers| && Up(s.workers[w])
    ensures MayHang(s)
  {
    var t := Apply(s, ShutdownStep);
    InvStep(s, ShutdownStep);
    var u := Apply(t, ShutdownStep);
    InvStep(t, ShutdownStep);
    var v := Apply(u, ShutdownStep);
    InvStep(u, ShutdownStep);
    assert v.workers == s.workers && !v.workers[w].Blocked?;
    WakefulMayHang(v);
    MayHangStep(u, ShutdownStep);
    MayHangStep(t, ShutdownStep);
    MayHangStep(s, ShutdownStep);
  }

  lemma {:induction false} RestlessMayHang<T(!new)>(s: Pool<T>)
    requires RestlessCall(s)
    ensures MayHang(s)
    decreases Inside(s.clients), WaitMeasure(s), ToRelease(s)
  {
    var step: Step<T>;
    if s.mtx.ByWorker? {
      OwnerGoesOn(s);
      step := WorkerStep(s.mtx.w);
    } else if !NoClients(s) {
      var c :| 0 <= c < |s.clients| && !s.clients[c].Outside?;
      if s.clients[c].Notifying? {
        var v := CallerWakes(s, c);
        step := ClientStep(c, v);
      } else {
        var d := if s.mtx.ByClient? then s.mtx.c else c;
        CallerGoesOn(s, d);
        step := ClientStep(d, 0);
      }
    } else {
      var w := TasksMeanUp(s);
      if s.tasks == [] {
        FlagWithSomeoneUp(s, w);
        return;
      }
      UpGoesOn(s, w);
      step := WorkerStep(w);
    }
    RestlessMayHang(Apply(s, step));
    MayHangStep(s, step);
  }

  // ----- without workers

  /** A task is waiting and there is nobody to take it: Shutdown polls for ever. */
  ghost predicate PollsForEver<T>(s: Pool<T>) {
    s.workers == [] && s.tasks != [] && (s.shutdown.Polling? || s.shutdown.Peeking?)
  }

  lemma {:induction false} PollingStays<T>(s: Pool<T>, steps: seq<Step<T>>, t: Pool<T>)
    requires PollsForEver(s) && Runs(s, steps, t)
    ensures PollsForEver(t)
    decreases steps
  {
    if steps != [] { PollingStays(Apply(s, steps[0]), steps[1..], t); }
  }

  /** A task is waiting, or on its way to the list. */
  ghost predicate Coming<T>(s: Pool<T>) {
    s.tasks != [] || exists c :: 0 <= c < |s.clients| && (s.clients[c].WantPush? || s.clients[c].Pushing?)
  }

  lemma PollingMayHang<T(!new)>(s: Pool<T>)
    requires PollsForEver(s)
    ensures MayHang(s)
  {
    forall steps: seq<Step<T>>, t: Pool<T> | Unaided(steps) && Runs(s, steps, t) ensures !t.shutdown.Returned? {
      PollingStays(s, steps, t);
    }
    assert Unaided<T>([]) && Runs(s, [], s);
  }

  lemma {:induction false} ComingMayHang<T(!new)>(s: Pool<T>)
    requires Inv(s) && s.shutdown.Polling? && s.workers == [] && Coming(s)
    ensures MayHang(s)
    decreases Inside(s.clients)
  {
    if s.tasks != [] {
      PollingMayHang(s);
    } else {
      var c :| 0 <= c < |s.clients| && (s.clients[c].WantPush? || s.clients[c].Pushing?);
      var d := if s.mtx.ByClient? then s.mtx.c else c;
      var t := ClientMove(s, d, 0);
      InvStep(s, ClientStep(d, 0));
      InsideUpdate(s.clients, d, t.clients[d]);
      assert t.tasks != [] || t.clients[d].Pushing?;
      ComingMayHang(t);
      MayHangStep(s, ClientStep(d, 0));
    }
  }

  /** No workers and no task coming: Shutdown only has its own steps to take. */
  ghost predicate Empty<T>(s: Pool<T>) {
    && Inv(s) && s.workers == [] && !Coming(s) && !s.shutdown.NotCalled?
  }

  lemma EmptyStep<T>(s: Pool<T>, step: Step<T>)
    requires Empty(s) && Enabled(s, step) && !step.Call? && !step.Spurious?
    ensures Empty(Apply(s, step))
  {
    InvStep(s, step);
  }

  lemma {:induction false} EmptyRun<T>(s: Pool<T>, steps: seq<Step<T>>, t: Pool<T>)
    requires Empty(s) && Unaided(steps) && Runs(s, steps, t)
    ensures Empty(t)
    decreases steps
  {
    if steps != [] {
      EmptyStep(s, steps[0]);
      EmptyRun(Apply(s, steps[0]), steps[1..], t);
    }
  }

  function ReturnRank(pc: ShutdownPc): nat {
    match pc
    case Polling => 7
    case Peeking => 6
    case WantThreads => 5
    case SettingFlag => 4
    case WakingAll => 3
    case Joining(i) => if i == 0 then 2 else 1
    case _ => 0
  }

  lemma {:induction false} EmptyCanReturn<T(!new)>(s: Pool<T>)
    requires Empty(s)
    ensures CanReturn(s)
    decreases ReturnRank(s.shutdown)
  {
    if s.shutdown.Returned? {
      assert Unaided<T>([]) && Runs(s, [], s);
    } else {
      EmptyStep(s, ShutdownStep);
      EmptyCanReturn(Apply(s, ShutdownStep));
      CanReturnStep(s, ShutdownStep);
    }
  }

  // ----- the exact condition

  /** A call of Shutdown can hang without a new caller or a spurious wakeup if and only if, when it is made,
      something is left to do or a caller is inside `execute` or a worker is up; without workers, if a task is
      in the list or on its way there. */
  lemma MayHangIffRestless<T(!new)>(s: Pool<T>)
    requires Inv(s) && s.shutdown.Polling?
    ensures MayHang(s) <==> if s.workers == [] then Coming(s) else Restless(s)
  {
    if s.workers == [] {
      if Coming(s) {
        ComingMayHang(s);
      } else {
        forall steps: seq<Step<T>>, t: Pool<T> | Unaided(steps) && Runs(s, steps, t) ensures CanReturn(t) {
          EmptyRun(s, steps, t);
          EmptyCanReturn(t);
        }
      }
    } else if Restless(s) {
      RestlessMayHang(s);
    } else {
      RestingIfNotRestless(s);
      forall steps: seq<Step<T>>, t: Pool<T> | Unaided(steps) && Runs(s, steps, t) ensures CanReturn(t) {
        CalmRun(s, steps, t);
        CalmCanReturn(t);
      }
    }
  }

  lemma RestingIfNotRestless<T>(s: Pool<T>)
    requires Inv(s) && s.shutdown.Polling? && s.workers != [] && !Restless(s)
    ensures Calm(s)
  {
    forall w | 0 <= w < |s.workers|
      ensures s.workers[w].Blocked? || s.workers[w].Testing? || s.workers[w].Blocking?
    {
      assert WorkerKnows(s.workers[w], s.tasks == [], s.terminate) && !Up(s.workers[w]);
    }
  }

  /** The same for the state before the call. */
  lemma CallMayHangIff<T(!new)>(s: Pool<T>)
    requires Inv(s) && s.shutdown.NotCalled?
    ensures MayHang(Apply(s, CallShutdown)) <==> if s.workers == [] then Coming(s) else Restless(s)
  {
    InvStep(s, CallShutdown);
    MayHangIffRestless(Apply(s, CallShutdown));
  }
}
