/** Runs of the timer that exist: a task that is added runs at its time point, and spurious wakeups lead back
    to sleep. */
module TimerReach {
  import opened Options
  import opened TaskSet
  import opened TimerQueue
  import H = TimerHang
  import P = ThreadPool

  // ----- from the call to the run

  /** One caller and one worker; the worker has not been woken, and nothing has run. */
  ghost function Early(caller: CallerPc, daemon: DaemonPc, owner: Owner, tasks: seq<Task>, client: P.ClientPc<Task>,
                       mtx: P.Owner, list: seq<Task>, accepted: seq<Task>): Timer
  {
    Timer(0, [caller], daemon, owner, tasks, false,
          P.Pool([P.AtLoop], [client], P.NotCalled, mtx, list, false, list, [], [], 0),
          if accepted == [] && !caller.AddWant? && !caller.AddHold? then 0 else 1, [None],
          accepted, [], [], [], 0, [])
  }

  lemma ReachHolding(due: int) returns (s: Timer)
    ensures H.Reachable(s)
    ensures s == Early(AddHold(Task(0, due)), DLoop, Caller(0), [], P.Outside, P.Free, [], [])
  {
    var t := Task(0, due);
    s := Early(Idle, DLoop, Nobody, [], P.Outside, P.Free, [], []);
    assert Runs(s, [], s);
    s := H.ReachStep(s, CallAdd(0, due));
    assert s.callers == [AddWant(t)];
    s := H.ReachStep(s, CallerStep(0));
    assert s.callers == [AddHold(t)];
  }

  lemma ReachAdded(due: int) returns (s: Timer)
    ensures H.Reachable(s)
    ensures s == Early(Idle, DLoop, Nobody, [Task(0, due)], P.Outside, P.Free, [], [Task(0, due)])
  {
    s := ReachHolding(due);
    s := H.ReachStep(s, CallerStep(0));
    assert s.callers == [AddNotify];
    s := H.ReachStep(s, CallerStep(0));
    assert s.callers == [Idle];
    assert s.calling == [None];
  }

  lemma ReachDrain(due: int) returns (s: Timer)
    ensures H.Reachable(s)
    ensures s == Early(Idle, DDrain(0, 0), Daemon, [Task(0, due)], P.Outside, P.Free, [], [Task(0, due)])
  {
    s := ReachAdded(due);
    s := H.ReachStep(s, DaemonStep(0));
    s := H.ReachStep(s, DaemonStep(0));
    s := H.ReachStep(s, DaemonStep(0));
    s := H.ReachStep(s, DaemonStep(0));
    s := H.ReachStep(s, DaemonStep(0));
  }

  lemma ReachSubmit(due: int) returns (s: Timer)
    requires due > 0
    ensures H.Reachable(s)
    ensures var t := Task(0, due); s == Early(Idle, DSubmit(0, 0), Daemon, [t], P.WantPush(t), P.Free, [], [t])
  {
    s := ReachDrain(due);
    s := H.ReachStep(s, DaemonStep(0));
  }

  lemma ReachPushed(due: int) returns (s: Timer)
    requires due > 0
    ensures H.Reachable(s)
    ensures var t := Task(0, due); s == Early(Idle, DTell(0, 1), Daemon, [t], P.Notifying, P.Free, [t], [t])
  {
    var t := Task(0, due);
    s := ReachSubmit(due);
    s := H.ReachStep(s, DaemonStep(0));
    assert s.pool.clients == [P.Pushing(t)];
    s := H.ReachStep(s, DaemonStep(0));
    assert s.pool.clients == [P.Notifying];
  }

  lemma ReachDrained(due: int) returns (s: Timer)
    requires due > 0
    ensures H.Reachable(s)
    ensures var t := Task(0, due); s == Early(Idle, DLoop, Nobody, [], P.Outside, P.Free, [t], [t])
  {
    s := ReachPushed(due);
    assert P.NobodyBlocked(s.pool.workers);
    s := H.ReachStep(s, DaemonStep(0));
    assert s.pool.clients == [P.Outside];
    s := H.ReachStep(s, DaemonStep(0));
    s := H.ReachStep(s, DaemonStep(0));
    assert s.callers == [Idle];
  }

  /** The worker on its way to the task. */
  ghost function AtWork(s: Timer, worker: P.WorkerPc, mtx: P.Owner): Timer {
    s.(pool := s.pool.(workers := [worker], mtx := mtx))
  }

  lemma ReachTesting(due: int) returns (s: Timer)
    requires due > 0
    ensures H.Reachable(s)
    ensures var t := Task(0, due);
      s == AtWork(Early(Idle, DLoop, Nobody, [], P.Outside, P.Free, [t], [t]), P.Testing, P.ByWorker(0))
  {
    s := ReachDrained(due);
    s := H.ReachStep(s, PoolWorker(0));
    assert s.pool.workers == [P.WantLock];
    s := H.ReachStep(s, PoolWorker(0));
    assert s.pool.workers == [P.Testing];
  }

  lemma ReachPopping(due: int) returns (s: Timer)
    requires due > 0
    ensures H.Reachable(s)
    ensures var t := Task(0, due);
      s == AtWork(Early(Idle, DLoop, Nobody, [], P.Outside, P.Free, [t], [t]), P.Popping, P.ByWorker(0))
  {
    s := ReachTesting(due);
    s := H.ReachStep(s, PoolWorker(0));
    assert s.pool.workers == [P.Deciding];
    s := H.ReachStep(s, PoolWorker(0));
    assert s.pool.workers == [P.Popping];
  }

  lemma ReachRunning(due: int) returns (s: Timer)
    requires due > 0
    ensures H.Reachable(s) && s.accepted == [Task(0, due)] && s.tasks == [] && s.now == 0 && s.ran == []
    ensures s.pool.workers == [P.Running(0)] && s.pool.dispatched == [Task(0, due)] && s.pool.finished == []
    ensures s.calling == [None]
  {
    s := ReachPopping(due);
    s := H.ReachStep(s, PoolWorker(0));
    assert s.pool.workers == [P.Running(0)];
  }

  /** A task that is added can run, and then at its time point: by a run of the whole system from the call. */
  lemma AddedTaskRuns(due: int) returns (s: Timer)
    requires due > 0
    ensures H.Reachable(s) && s.accepted == [Task(0, due)] && s.tasks == []
    ensures s.pool.dispatched == [Task(0, due)] && s.pool.finished == [0] && s.ran == [due]
  {
    s := ReachRunning(due);
    s := H.ReachStep(s, Tick(due));
    s := H.ReachStep(s, PoolWorker(0));
  }

  // ----- spurious wakeups

  /** Each thread that sleeps can wake without a reason, and then sleeps again and leaves everything as it was. */
  lemma DaemonSleepsOn(s: Timer)
    requires s.daemon.DBlocked? && s.tasks == [] && !s.terminate && s.owner.Nobody?
    ensures Runs(s, [DaemonSpurious, DaemonStep(0), DaemonStep(0), DaemonStep(0)], s)
  {
    var a := Apply(s, DaemonSpurious);
    var b := Apply(a, DaemonStep(0));
    var c := Apply(b, DaemonStep(0));
    assert Apply(c, DaemonStep(0)) == s;
    FourSteps(s, DaemonSpurious, a, DaemonStep(0), b, DaemonStep(0), c, DaemonStep(0), s);
  }

  lemma ShutdownSleepsOn(s: Timer, c: nat)
    requires c < |s.callers| && s.callers[c].SdBlocked? && s.tasks != [] && s.owner.Nobody?
    ensures Runs(s, [CallerSpurious(c), CallerStep(c), CallerStep(c), CallerStep(c)], s)
  {
    var x := Apply(s, CallerSpurious(c));
    assert x.callers == s.callers[c := SdWoken];
    var y := Apply(x, CallerStep(c));
    assert y.callers == s.callers[c := SdTest];
    var z := Apply(y, CallerStep(c));
    assert z.callers == s.callers[c := SdBlock];
    assert s.callers[c := SdBlock][c := SdBlocked] == s.callers;
    FourSteps(s, CallerSpurious(c), x, CallerStep(c), y, CallerStep(c), z, CallerStep(c), s);
  }

  lemma FourSteps(s: Timer, i: Step, a: Timer, j: Step, b: Timer, k: Step, c: Timer, l: Step, d: Timer)
    requires Enabled(s, i) && Apply(s, i) == a && Enabled(a, j) && Apply(a, j) == b
    requires Enabled(b, k) && Apply(b, k) == c && Enabled(c, l) && Apply(c, l) == d
    ensures Runs(s, [i, j, k, l], d)
  {
    assert [i, j, k, l][1..] == [j, k, l] && [j, k, l][1..] == [k, l] && [k, l][1..] == [l] && [l][1..] == [];
    assert Runs(d, [], d);
    assert Runs(c, [l], d);
    assert Runs(b, [k, l], d);
    assert Runs(a, [j, k, l], d);
  }

  lemma WorkerSleepsOn(s: Timer, w: nat)
    requires w < |s.pool.workers| && s.pool.workers[w].Blocked? && s.pool.tasks == []
    requires !s.pool.terminate && s.pool.mtx.Free?
    requires !InsideCall(s, w)
    ensures Runs(s, [PoolSpurious(w), PoolWorker(w), PoolWorker(w), PoolWorker(w)], s)
  {
    var ws := s.pool.workers;
    var x := Apply(s, PoolSpurious(w));
    assert x.pool.workers == ws[w := P.Woken];
    var y := Apply(x, PoolWorker(w));
    assert y.pool.workers == ws[w := P.Testing];
    var z := Apply(y, PoolWorker(w));
    assert z.pool.workers == ws[w := P.Blocking];
    assert ws[w := P.Blocking][w := P.Blocked] == ws;
    FourSteps(s, PoolSpurious(w), x, PoolWorker(w), y, PoolWorker(w), z, PoolWorker(w), s);
  }
}
