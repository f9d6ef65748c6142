/** The results about the timer queue over whole runs. */
module TimerShutdown {
  import opened TaskSet
  import opened TimerQueue
  import opened TimerInvariants
  import P = ThreadPool

  // ----- counting occurrences

  lemma {:induction false} DistinctOnce(ts: seq<Task>, t: Task)
    requires forall i, j :: 0 <= i < j < |ts| ==> ts[i].id != ts[j].id
    ensures multiset(ts)[t] <= 1
  {
    if ts != [] {
      assert ts == [ts[0]] + ts[1..];
      DistinctOnce(ts[1..], t);
      if t == ts[0] { assert t !in ts[1..]; }
    }
  }

  /** `t` stands in `ts` at `k` and nowhere else. */
  ghost predicate OnlyAt(ts: seq<Task>, t: Task, k: nat) {
    k < |ts| && ts[k] == t && forall j :: 0 <= j < |ts| && j != k ==> ts[j] != t
  }

  lemma {:induction false} OnceMeansOnlyAt(ts: seq<Task>, t: Task) returns (k: nat)
    requires multiset(ts)[t] == 1
    ensures OnlyAt(ts, t, k)
  {
    assert t in ts;
    k :| 0 <= k < |ts| && ts[k] == t;
    forall j | 0 <= j < |ts| && j != k ensures ts[j] != t {
      assert ts == ts[..k] + [ts[k]] + ts[k + 1..];
      assert multiset(ts) == multiset(ts[..k]) + multiset{t} + multiset(ts[k + 1..]);
      assert t !in multiset(ts[..k]) && t !in multiset(ts[k + 1..]);
      assert ts[j] == if j < k then ts[..k][j] else ts[k + 1..][j - k - 1];
    }
  }

  // ----- safety

  lemma Reached(s0: Timer, steps: seq<Step>, s: Timer)
    requires Init(s0) && Runs(s0, steps, s)
    ensures TimerInv(s)
  {
    InitTimerInv(s0);
    RunKeepsTimerInv(s0, steps, s);
  }

  /** In every reachable state each accepted task is in exactly one place: still in the set, discarded as
      already due at some clock reading, or handed to the pool. */
  lemma TimerConserves(s0: Timer, steps: seq<Step>, s: Timer)
    requires Init(s0) && Runs(s0, steps, s)
    ensures Increasing(s.tasks) && Pos(s.daemon) <= |s.tasks|
    ensures multiset(s.accepted) ==
      multiset(s.tasks[Pos(s.daemon)..]) + multiset(s.expired) + multiset(s.pool.submitted)
    ensures forall t :: multiset(s.accepted)[t] <= 1
    ensures |s.expiredAt| == |s.expired| && forall i :: 0 <= i < |s.expired| ==> s.expired[i].due <= s.expiredAt[i]
    ensures !s.daemon.DCrashed? && P.Crashed !in s.pool.workers
  {
    Reached(s0, steps, s);
    forall t { DistinctOnce(s.accepted, t); }
    assert forall w :: 0 <= w < |s.pool.workers| ==>
        P.WorkerKnows(s.pool.workers[w], s.pool.tasks == [], s.pool.terminate);
  }

  /** When a drain is over, what it pushed is exactly the tasks later than its one clock reading, in time
      order, and that reading is not in the future. */
  lemma DrainHandsOverLater(s0: Timer, steps: seq<Step>, s: Timer)
    requires Init(s0) && Runs(s0, steps, s) && s.daemon.DDrain? && s.daemon.i == |s.tasks|
    ensures s.base <= |s.pool.submitted| && s.pool.submitted[s.base..] == Later(s.tasks, s.daemon.at)
    ensures Increasing(s.pool.submitted[s.base..]) && s.daemon.at <= s.now
    ensures forall t :: t in s.tasks ==> (t in s.pool.submitted[s.base..] <==> t.due > s.daemon.at)
  {
    Reached(s0, steps, s);
    DrainOver(s);
  }

  lemma DrainOver(s: Timer)
    requires DrainInv(s) && Increasing(s.tasks) && s.daemon.DDrain? && s.daemon.i == |s.tasks|
    ensures s.base <= |s.pool.submitted| && s.pool.submitted[s.base..] == Later(s.tasks, s.daemon.at)
    ensures Increasing(s.pool.submitted[s.base..]) && s.daemon.at <= s.now
    ensures forall t :: t in s.tasks ==> (t in s.pool.submitted[s.base..] <==> t.due > s.daemon.at)
  {
    assert s.tasks[..|s.tasks|] == s.tasks;
    DrainByTimePoint(s.tasks, s.daemon.at);
    DrainSplits(s.tasks, s.daemon.at);
    forall t | t in s.tasks
      ensures t in Later(s.tasks, s.daemon.at) <==> t.due > s.daemon.at
    {
      assert t in multiset(s.tasks);
      assert t in multiset(Later(s.tasks, s.daemon.at)) || t in multiset(Due(s.tasks, s.daemon.at));
    }
  }

  lemma RanAfterDue(s: Timer)
    requires RanInv(s) && P.FifoInv(s.pool)
    ensures |s.ran| == |s.pool.finished|
    ensures forall i :: 0 <= i < |s.ran| ==>
      && s.pool.finished[i] < |s.pool.submitted|
      && s.pool.submitted[s.pool.finished[i]].due <= s.ran[i] <= s.now
  {
  }

  /** No function runs before its time point. */
  lemma NeverEarly(s0: Timer, steps: seq<Step>, s: Timer)
    requires Init(s0) && Runs(s0, steps, s)
    ensures |s.ran| == |s.pool.finished|
    ensures forall i :: 0 <= i < |s.ran| ==>
      && s.pool.finished[i] < |s.pool.submitted|
      && s.pool.submitted[s.pool.finished[i]].due <= s.ran[i] <= s.now
  {
    Reached(s0, steps, s);
    RanAfterDue(s);
  }

  /** Nobody sleeps on the timer's condition variable for want of a notification. */
  lemma TimerNoLostWakeup(s0: Timer, steps: seq<Step>, s: Timer)
    requires Init(s0) && Runs(s0, steps, s)
    ensures s.daemon.DBlocked? && (s.tasks != [] || s.terminate) ==>
      exists c :: 0 <= c < |s.callers| && (s.callers[c].AddNotify? || s.callers[c].SdWake?)
    ensures SdBlocked in s.callers && s.tasks == [] ==> s.daemon.DWake?
  {
    Reached(s0, steps, s);
  }

  /** The task stands at one position of the pool's history, and that position finished. */
  ghost predicate RanOnce(s: Timer, t: Task) {
    exists k: nat :: OnlyAt(s.pool.submitted, t, k) && k in s.pool.finished
  }

  /** The task was thrown away by a drain that read the clock at or after its time point. */
  ghost predicate WasDue(s: Timer, t: Task) {
    exists i :: 0 <= i < |s.expired| && i < |s.expiredAt| && s.expired[i] == t && t.due <= s.expiredAt[i]
  }

  /** What has become of the accepted tasks. If TimerQueue::Shutdown has returned to some caller, then every task accepted
      before it wrote the flag has either run exactly once or was due at its drain, never both; finished
      positions do not repeat; every worker has left; and the tasks accepted since are exactly those in the
      set, none of which reached the pool. */
  lemma ShutdownFates(s0: Timer, steps: seq<Step>, s: Timer)
    requires Init(s0) && Runs(s0, steps, s) && SdReturned in s.callers
    ensures s.closed <= s.accepted
    ensures forall t :: t in s.closed ==> (RanOnce(s, t) <==> !WasDue(s, t))
    ensures forall i, j :: 0 <= i < j < |s.pool.finished| ==> s.pool.finished[i] != s.pool.finished[j]
    ensures forall w :: 0 <= w < |s.pool.workers| ==> s.pool.workers[w].Exited?
    ensures multiset(s.accepted[|s.closed|..]) == multiset(s.tasks)
    ensures forall t :: t in s.tasks ==> t !in s.pool.submitted && t !in s.expired
  {
    Reached(s0, steps, s);
    AllClosedRan(s);
    FinishedOnce(s);
    ClosedFates(s);
    LateTasksStay(s);
  }

  lemma FinishedOnce(s: Timer)
    requires P.InFlightInv(s.pool)
    ensures forall i, j :: 0 <= i < j < |s.pool.finished| ==> s.pool.finished[i] != s.pool.finished[j]
  {
  }

  lemma ClosedFates(s: Timer)
    requires FreshInv(s) && ClosedInv(s) && DrainInv(s) && s.terminate
    requires forall k: nat :: k < |s.pool.submitted| ==> k in s.pool.finished
    ensures s.closed <= s.accepted
    ensures forall t :: t in s.closed ==> (RanOnce(s, t) <==> !WasDue(s, t))
  {
    forall t | t in s.closed ensures RanOnce(s, t) <==> !WasDue(s, t) { OneFate(s, t); }
  }

  lemma LateTasksStay(s: Timer)
    requires FreshInv(s) && ConserveInv(s) && ClosedInv(s) && s.terminate && !Draining(s.daemon)
    ensures multiset(s.accepted[|s.closed|..]) == multiset(s.tasks)
    ensures forall t :: t in s.tasks ==> t !in s.pool.submitted && t !in s.expired
  {
    var late := s.accepted[|s.closed|..];
    assert s.accepted == s.closed + late;
    assert s.tasks[Pos(s.daemon)..] == s.tasks;
    assert multiset(s.accepted) == multiset(s.closed) + multiset(late);
    assert multiset(late) == multiset(s.accepted) - multiset(s.closed) == multiset(s.tasks);
    forall t | t in s.tasks ensures t !in s.pool.submitted && t !in s.expired {
      DistinctOnce(s.accepted, t);
      assert t in multiset(s.tasks);
      assert t !in multiset(s.pool.submitted) && t !in multiset(s.expired);
    }
  }

  /** The pool's guarantee about tasks pushed before its emptiness check covers every push, because nothing
      is pushed once the timer's flag is up. */
  lemma AllClosedRan(s: Timer)
    requires TimerInv(s) && SdReturned in s.callers
    ensures s.terminate && s.pool.shutdown.Returned? && !Draining(s.daemon)
    ensures forall k: nat :: k < |s.pool.submitted| ==> k in s.pool.finished
    ensures forall w :: 0 <= w < |s.pool.workers| ==> s.pool.workers[w].Exited?
  {
    assert s.pool.sealed == |s.pool.submitted|;
    forall k: nat | k < |s.pool.submitted| ensures k in s.pool.finished {
      assert P.Running(k) !in s.pool.workers;
    }
  }

  lemma OneFate(s: Timer, t: Task)
    requires FreshInv(s) && ClosedInv(s) && DrainInv(s) && s.terminate && t in s.closed
    requires forall k: nat :: k < |s.pool.submitted| ==> k in s.pool.finished
    ensures RanOnce(s, t) <==> !WasDue(s, t)
  {
    assert t in multiset(s.closed);
    DistinctOnce(s.closed, t);
    if t in s.pool.submitted {
      assert t in multiset(s.pool.submitted);
      var k := OnceMeansOnlyAt(s.pool.submitted, t);
      assert RanOnce(s, t);
      assert t !in multiset(s.expired);
    } else {
      assert t in multiset(s.expired);
      var i :| 0 <= i < |s.expired| && s.expired[i] == t;
      assert WasDue(s, t);
    }
  }
}
