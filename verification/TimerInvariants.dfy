/** What every step of the timer queue keeps. */
module TimerInvariants {
  import opened Options
  import opened TaskSet
  import opened TimerQueue
  import P = ThreadPool

  // ----- who owns the timer mutex

  predicate CallerOwns(pc: CallerPc) {
    pc.AddHold? || pc.SdTest? || pc.SdBlock? || pc.SdCheck? || pc.SdWake? || pc.SdPool?
  }

  /** A caller inside AddTaskAtTimePoint. */
  predicate Adds(pc: CallerPc) { pc.AddWant? || pc.AddHold? || pc.AddNotify? }

  /** A caller of Shutdown up to the end of its wait. */
  predicate Waits(pc: CallerPc) { pc.SdWant? || pc.SdTest? || pc.SdBlock? || pc.SdWoken? }

  /** A caller of Shutdown that has seen the empty set. */
  predicate Closes(pc: CallerPc) { pc.SdCheck? || pc.SdWake? || pc.SdPool? }

  /** Between the clock reading and the notification that ends a drain. */
  predicate Draining(pc: DaemonPc) {
    pc.DClock? || pc.DDrain? || pc.DSubmit? || pc.DTell? || pc.DWake?
  }

  predicate DaemonOwns(pc: DaemonPc) { pc.DTest? || pc.DBlock? || pc.DDecide? || Draining(pc) }

  ghost predicate LockInv(s: Timer) {
    && (forall c :: 0 <= c < |s.callers| ==> (CallerOwns(s.callers[c]) <==> s.owner == Caller(c)))
    && (DaemonOwns(s.daemon) <==> s.owner.Daemon?)
    && (s.owner.Caller? ==> s.owner.c < |s.callers|)
  }

  lemma LockStep(s: Timer, step: Step)
    requires LockInv(s) && Enabled(s, step)
    ensures LockInv(Apply(s, step))
  {
    match step
    case CallerStep(c) => LockCaller(s, c);
    case DaemonStep(v) => LockDaemon(s, v);
    case _ =>
  }

  lemma LockCaller(s: Timer, c: nat)
    requires LockInv(s) && Enabled(s, CallerStep(c))
    ensures LockInv(CallerMove(s, c))
  {
    if Adds(s.callers[c]) { LockAdds(s, c); }
    else if Closes(s.callers[c]) { LockCloses(s, c); }
    else { LockWaits(s, c); }
  }

  lemma LockAdds(s: Timer, c: nat)
    requires LockInv(s) && Enabled(s, CallerStep(c)) && Adds(s.callers[c])
    ensures LockInv(CallerMove(s, c))
  {
  }

  lemma LockWaits(s: Timer, c: nat)
    requires LockInv(s) && Enabled(s, CallerStep(c)) && Waits(s.callers[c])
    ensures LockInv(CallerMove(s, c))
  {
  }

  lemma LockCloses(s: Timer, c: nat)
    requires LockInv(s) && Enabled(s, CallerStep(c)) && Closes(s.callers[c])
    ensures LockInv(CallerMove(s, c))
  {
  }

  lemma LockDaemon(s: Timer, v: nat)
    requires LockInv(s) && Enabled(s, DaemonStep(v))
    ensures LockInv(DaemonMove(s, v))
  {
  }

  // ----- the daemon and its calls of execute

  ghost predicate DaemonKnows(s: Timer) {
    && |s.pool.clients| == 1
    && (match s.daemon
        case DSubmit(at, i) =>
          i < |s.tasks| && s.tasks[i].due > at
          && (s.pool.clients[0] == P.WantPush(s.tasks[i]) || s.pool.clients[0] == P.Pushing(s.tasks[i]))
        case DTell(at, i) => i <= |s.tasks| && s.pool.clients[0].Notifying?
        case DDrain(at, i) => i <= |s.tasks| && s.pool.clients[0].Outside?
        case DDecide => (s.tasks != [] || s.terminate) && s.pool.clients[0].Outside?
        case DClock => s.tasks != [] && s.pool.clients[0].Outside?
        case DBlock => s.tasks == [] && !s.terminate && s.pool.clients[0].Outside?
        case DWake => s.tasks == [] && s.pool.clients[0].Outside?
        case DExited => s.terminate && s.pool.clients[0].Outside?
        case DCrashed => false
        case _ => s.pool.clients[0].Outside?)
    && (Draining(s.daemon) ==> !s.terminate)
  }

  lemma DaemonKnowsStep(s: Timer, step: Step)
    requires LockInv(s) && DaemonKnows(s) && Enabled(s, step)
    ensures DaemonKnows(Apply(s, step))
  {
    match step
    case CallerStep(c) => DaemonKnowsCaller(s, c);
    case DaemonStep(v) => DaemonKnowsDaemon(s, v);
    case _ =>
  }

  lemma DaemonKnowsDaemon(s: Timer, v: nat)
    requires LockInv(s) && DaemonKnows(s) && Enabled(s, DaemonStep(v))
    ensures DaemonKnows(DaemonMove(s, v))
  {
  }

  lemma DaemonKnowsCaller(s: Timer, c: nat)
    requires LockInv(s) && DaemonKnows(s) && Enabled(s, CallerStep(c))
    ensures DaemonKnows(CallerMove(s, c))
  {
    if Adds(s.callers[c]) { DaemonKnowsAdds(s, c); }
    else if Closes(s.callers[c]) { DaemonKnowsCloses(s, c); }
    else { DaemonKnowsWaits(s, c); }
  }

  lemma DaemonKnowsAdds(s: Timer, c: nat)
    requires LockInv(s) && DaemonKnows(s) && Enabled(s, CallerStep(c)) && Adds(s.callers[c])
    ensures DaemonKnows(CallerMove(s, c))
  {
    assert s.callers[c].AddHold? ==> s.owner == Caller(c);
  }

  lemma DaemonKnowsWaits(s: Timer, c: nat)
    requires LockInv(s) && DaemonKnows(s) && Enabled(s, CallerStep(c)) && Waits(s.callers[c])
    ensures DaemonKnows(CallerMove(s, c))
  {
  }

  lemma DaemonKnowsCloses(s: Timer, c: nat)
    requires LockInv(s) && DaemonKnows(s) && Enabled(s, CallerStep(c)) && Closes(s.callers[c])
    ensures DaemonKnows(CallerMove(s, c))
  {
    assert s.owner == Caller(c);
  }

  // ----- who is shutting down

  ghost predicate CloserInv(s: Timer) {
    && (forall c :: 0 <= c < |s.callers| ==>
          && (s.callers[c].SdWake? || s.callers[c].SdPool? || s.callers[c].SdReturned? ==> s.terminate)
          && (s.callers[c].SdCheck? || s.callers[c].SdWake? || s.callers[c].SdPool? ==> s.tasks == [])
          && (s.callers[c].SdWake? ==> s.pool.shutdown.NotCalled?)
          && (s.callers[c].SdPool? ==> !s.pool.shutdown.NotCalled?)
          && (s.callers[c].SdReturned? ==> s.pool.shutdown.Returned?))
    && (!s.terminate ==> s.pool.shutdown.NotCalled?)
    && (!s.pool.shutdown.NotCalled? && !s.pool.shutdown.Returned? ==>
          s.owner.Caller? && s.owner.c < |s.callers| && s.callers[s.owner.c].SdPool?)
    && (s.terminate && s.pool.shutdown.NotCalled? ==>
          s.owner.Caller? && s.owner.c < |s.callers| && s.callers[s.owner.c].SdWake?)
  }

  lemma CloserStep(s: Timer, step: Step)
    requires LockInv(s) && DaemonKnows(s) && CloserInv(s) && Enabled(s, step)
    ensures CloserInv(Apply(s, step))
  {
    match step
    case CallerStep(c) => CloserCaller(s, c);
    case DaemonStep(v) => CloserDaemon(s, v);
    case _ =>
  }

  lemma CloserCaller(s: Timer, c: nat)
    requires LockInv(s) && CloserInv(s) && Enabled(s, CallerStep(c))
    ensures CloserInv(CallerMove(s, c))
  {
    if Adds(s.callers[c]) { CloserAdds(s, c); }
    else if Closes(s.callers[c]) { CloserCloses(s, c); }
    else { CloserWaits(s, c); }
  }

  lemma CloserAdds(s: Timer, c: nat)
    requires LockInv(s) && CloserInv(s) && Enabled(s, CallerStep(c))
    requires Adds(s.callers[c])
    ensures CloserInv(CallerMove(s, c))
  {
    assert CallerOwns(s.callers[c]) ==> s.owner == Caller(c);
  }

  lemma CloserWaits(s: Timer, c: nat)
    requires LockInv(s) && CloserInv(s) && Enabled(s, CallerStep(c))
    requires Waits(s.callers[c])
    ensures CloserInv(CallerMove(s, c))
  {
    assert CallerOwns(s.callers[c]) ==> s.owner == Caller(c);
  }

  lemma CloserCloses(s: Timer, c: nat)
    requires LockInv(s) && CloserInv(s) && Enabled(s, CallerStep(c))
    requires Closes(s.callers[c])
    ensures CloserInv(CallerMove(s, c))
  {
    assert s.owner == Caller(c);
  }

  lemma CloserDaemon(s: Timer, v: nat)
    requires LockInv(s) && DaemonKnows(s) && CloserInv(s) && Enabled(s, DaemonStep(v))
    ensures CloserInv(DaemonMove(s, v))
  {
  }

  // ----- functions that add tasks themselves

  /** A function inside a call is being run, and has a caller's place of its own that stands inside the call. */
  ghost predicate CallingInv(s: Timer) {
    && |s.calling| == |s.pool.workers|
    && (forall w :: 0 <= w < |s.calling| && s.calling[w].Some? ==>
          && s.pool.workers[w].Running?
          && s.calling[w].value < |s.callers| && Adds(s.callers[s.calling[w].value]))
    && (forall w, v :: 0 <= w < v < |s.calling| && s.calling[w].Some? ==> s.calling[w] != s.calling[v])
  }

  lemma CallingStep(s: Timer, step: Step)
    requires CallingInv(s) && DaemonKnows(s) && Enabled(s, step)
    ensures CallingInv(Apply(s, step))
  {
    match step
    case CallerStep(c) => CallingCaller(s, c);
    case DaemonStep(v) => CallingDaemon(s, v);
    case PoolWorker(w) => CallingWorker(s, w);
    case _ =>
  }

  lemma CallingCaller(s: Timer, c: nat)
    requires CallingInv(s) && Enabled(s, CallerStep(c))
    ensures CallingInv(CallerMove(s, c))
  {
    if Adds(s.callers[c]) { CallingAdds(s, c); }
    else if Closes(s.callers[c]) { CallingCloses(s, c); }
    else { CallingWaits(s, c); }
  }

  lemma CallingAdds(s: Timer, c: nat)
    requires CallingInv(s) && Enabled(s, CallerStep(c)) && Adds(s.callers[c])
    ensures CallingInv(CallerMove(s, c))
  {
  }

  /** Running functions and callers that add tasks are where they were. */
  ghost predicate CallsStay(s: Timer, t: Timer) {
    && t.calling == s.calling && |t.callers| == |s.callers| && |t.pool.workers| == |s.pool.workers|
    && (forall c :: 0 <= c < |s.callers| && Adds(s.callers[c]) ==> Adds(t.callers[c]))
    && (forall w :: 0 <= w < |s.pool.workers| && s.pool.workers[w].Running? ==> t.pool.workers[w].Running?)
  }

  lemma CallingFrame(s: Timer, t: Timer)
    requires CallingInv(s) && CallsStay(s, t)
    ensures CallingInv(t)
  {
  }

  lemma CallingWaits(s: Timer, c: nat)
    requires CallingInv(s) && Enabled(s, CallerStep(c)) && Waits(s.callers[c])
    ensures CallingInv(CallerMove(s, c))
  {
    CallingFrame(s, CallerMove(s, c));
  }

  lemma ClosingKeepsCalls(s: Timer, c: nat)
    requires Enabled(s, CallerStep(c)) && Closes(s.callers[c])
    ensures CallsStay(s, CallerMove(s, c))
  {
  }

  lemma CallingCloses(s: Timer, c: nat)
    requires CallingInv(s) && Enabled(s, CallerStep(c)) && Closes(s.callers[c])
    ensures CallingInv(CallerMove(s, c))
  {
    ClosingKeepsCalls(s, c);
    CallingFrame(s, CallerMove(s, c));
  }

  lemma DaemonKeepsCalls(s: Timer, v: nat)
    requires Enabled(s, DaemonStep(v))
    ensures CallsStay(s, DaemonMove(s, v))
  {
  }

  lemma CallingDaemon(s: Timer, v: nat)
    requires CallingInv(s) && Enabled(s, DaemonStep(v))
    ensures CallingInv(DaemonMove(s, v))
  {
    DaemonKeepsCalls(s, v);
    CallingFrame(s, DaemonMove(s, v));
  }

  lemma CallingWorker(s: Timer, w: nat)
    requires CallingInv(s) && Enabled(s, PoolWorker(w))
    ensures CallingInv(WorkerMove(s, w))
  {
  }

  // ----- the pool inside the timer takes pool steps

  /** Each step of the whole system leaves the pool alone or is one of the pool's own steps. */
  lemma PoolRefines(s: Timer, step: Step) returns (still: bool, p: P.Step<Task>)
    requires DaemonKnows(s) && CloserInv(s) && Enabled(s, step)
    ensures still ==> Apply(s, step).pool == s.pool
    ensures !still ==> P.Enabled(s.pool, p) && Apply(s, step).pool == P.Apply(s.pool, p)
    ensures !still ==> (p.Call? ==> Draining(s.daemon)) && (p.Spurious? <==> step.PoolSpurious?)
  {
    still, p := true, P.CallShutdown;
    match step
    case CallerStep(c) =>
      if s.callers[c].SdWake? {
        still := false;
      } else if s.callers[c].SdPool? && !s.pool.shutdown.Returned? {
        still, p := false, P.ShutdownStep;
      }
    case DaemonStep(v) =>
      if s.daemon.DSubmit? || s.daemon.DTell? {
        still, p := false, P.ClientStep(0, v);
      } else if s.daemon.DDrain? && s.daemon.i < |s.tasks| && s.tasks[s.daemon.i].due > s.daemon.at {
        still, p := false, P.Call(0, s.tasks[s.daemon.i]);
        assert s.pool.clients[0 := P.WantPush(s.tasks[s.daemon.i])] == [P.WantPush(s.tasks[s.daemon.i])];
      }
    case PoolWorker(w) => still, p := false, P.WorkerStep(w);
    case PoolSpurious(w) => still, p := false, P.Spurious(w);
    case _ =>
  }

  /** The part of the invariant that the pool needs. */
  ghost predicate CoreInv(s: Timer) {
    LockInv(s) && DaemonKnows(s) && CloserInv(s) && CallingInv(s) && P.Inv(s.pool)
  }

  lemma CoreStep(s: Timer, step: Step)
    requires CoreInv(s) && Enabled(s, step)
    ensures CoreInv(Apply(s, step))
  {
    LockStep(s, step);
    DaemonKnowsStep(s, step);
    CloserStep(s, step);
    CallingStep(s, step);
    PoolInvStep(s, step);
  }

  lemma PoolInvStep(s: Timer, step: Step)
    requires P.Inv(s.pool) && DaemonKnows(s) && CloserInv(s) && Enabled(s, step)
    ensures P.Inv(Apply(s, step).pool)
  {
    var still, p := PoolRefines(s, step);
    if !still { P.InvStep(s.pool, p); }
  }

  // ----- identities

  predicate Adding(pc: CallerPc) { pc.AddWant? || pc.AddHold? }

  ghost predicate FreshInv(s: Timer) {
    && (forall i :: 0 <= i < |s.accepted| ==> s.accepted[i].id < s.nextId)
    && (forall i, j :: 0 <= i < j < |s.accepted| ==> s.accepted[i].id != s.accepted[j].id)
    && (forall c :: 0 <= c < |s.callers| && Adding(s.callers[c]) ==> s.callers[c].task.id < s.nextId)
    && (forall c, i :: 0 <= c < |s.callers| && Adding(s.callers[c]) && 0 <= i < |s.accepted| ==>
          s.accepted[i].id != s.callers[c].task.id)
    && (forall c, d :: 0 <= c < d < |s.callers| && Adding(s.callers[c]) && Adding(s.callers[d]) ==>
          s.callers[c].task.id != s.callers[d].task.id)
  }

  lemma FreshStep(s: Timer, step: Step)
    requires FreshInv(s) && Enabled(s, step)
    ensures FreshInv(Apply(s, step))
  {
    match step
    case CallerStep(c) => if s.callers[c].AddHold? { FreshInsert(s, c); } else { FreshCaller(s, c); }
    case CallAdd(c, due) => FreshCall(s, Apply(s, step), c, due);
    case TaskAdds(w, c, due) => FreshCall(s, Apply(s, step), c, due);
    case DaemonStep(v) => FreshDaemon(s, v);
    case _ => FreshFrame(s, Apply(s, step));
  }

  lemma FreshCaller(s: Timer, c: nat)
    requires FreshInv(s) && Enabled(s, CallerStep(c)) && !s.callers[c].AddHold?
    ensures FreshInv(CallerMove(s, c))
  {
    FreshFrame(s, CallerMove(s, c));
  }

  lemma FreshDaemon(s: Timer, v: nat)
    requires FreshInv(s) && Enabled(s, DaemonStep(v))
    ensures FreshInv(DaemonMove(s, v))
  {
    FreshFrame(s, DaemonMove(s, v));
  }

  /** A step that starts no call and inserts nothing keeps the identities apart. */
  lemma FreshFrame(s: Timer, t: Timer)
    requires FreshInv(s) && t.accepted == s.accepted && t.nextId == s.nextId && |t.callers| == |s.callers|
    requires forall c :: 0 <= c < |s.callers| && Adding(t.callers[c]) ==>
      Adding(s.callers[c]) && t.callers[c].task == s.callers[c].task
    ensures FreshInv(t)
  {
  }

  lemma FreshCall(s: Timer, t: Timer, c: nat, due: int)
    requires FreshInv(s) && c < |s.callers| && t.accepted == s.accepted && t.nextId == s.nextId + 1
    requires t.callers == s.callers[c := AddWant(Task(s.nextId, due))]
    ensures FreshInv(t)
  {
  }

  lemma FreshInsert(s: Timer, c: nat)
    requires FreshInv(s) && Enabled(s, CallerStep(c)) && s.callers[c].AddHold?
    ensures FreshInv(CallerMove(s, c))
  {
    var t := CallerMove(s, c);
    assert t.accepted == s.accepted || t.accepted == s.accepted + [s.callers[c].task];
    assert forall d :: 0 <= d < |s.callers| && d != c ==> t.callers[d] == s.callers[d];
  }

  // ----- conservation

  /** How many tasks of the set the current drain has dealt with. */
  function Pos(pc: DaemonPc): nat {
    match pc
    case DDrain(_, i) => i
    case DSubmit(_, i) => i
    case DTell(_, i) => i
    case _ => 0
  }

  ghost predicate ConserveInv(s: Timer) {
    && Increasing(s.tasks)
    && Pos(s.daemon) <= |s.tasks|
    && multiset(s.accepted) ==
         multiset(s.tasks[Pos(s.daemon)..]) + multiset(s.expired) + multiset(s.pool.submitted)
  }

  lemma ConserveStep(s: Timer, step: Step)
    requires LockInv(s) && DaemonKnows(s) && ConserveInv(s) && Enabled(s, step)
    ensures ConserveInv(Apply(s, step))
  {
    match step
    case CallerStep(c) =>
      if s.callers[c].AddHold? { ConserveInsert(s, c); } else { ConserveCaller(s, c); }
    case DaemonStep(v) => ConserveDaemon(s, v);
    case _ => ConserveOther(s, step);
  }

  lemma ConserveCaller(s: Timer, c: nat)
    requires ConserveInv(s) && Enabled(s, CallerStep(c)) && !s.callers[c].AddHold?
    ensures ConserveInv(CallerMove(s, c))
  {
    ConserveFrame(s, CallerMove(s, c));
  }

  lemma ConserveOther(s: Timer, step: Step)
    requires ConserveInv(s) && Enabled(s, step) && !step.CallerStep? && !step.DaemonStep?
    ensures ConserveInv(Apply(s, step))
  {
    ConserveFrame(s, Apply(s, step));
  }

  lemma ConserveFrame(s: Timer, t: Timer)
    requires ConserveInv(s) && t.tasks == s.tasks && t.accepted == s.accepted && t.expired == s.expired
    requires t.pool.submitted == s.pool.submitted && Pos(t.daemon) == Pos(s.daemon)
    ensures ConserveInv(t)
  {
  }

  /** The daemon deals with one task: it is discarded or pushed. */
  lemma ConserveNext(s: Timer, t: Timer)
    requires ConserveInv(s) && t.tasks == s.tasks && t.accepted == s.accepted
    requires Pos(s.daemon) < |s.tasks| && Pos(t.daemon) == Pos(s.daemon) + 1
    requires
      || (t.expired == s.expired + [s.tasks[Pos(s.daemon)]] && t.pool.submitted == s.pool.submitted)
      || (t.pool.submitted == s.pool.submitted + [s.tasks[Pos(s.daemon)]] && t.expired == s.expired)
    ensures ConserveInv(t)
  {
    var i := Pos(s.daemon);
    assert s.tasks[i..] == [s.tasks[i]] + s.tasks[i + 1..];
  }

  lemma ConserveInsert(s: Timer, c: nat)
    requires LockInv(s) && ConserveInv(s) && Enabled(s, CallerStep(c)) && s.callers[c].AddHold?
    ensures ConserveInv(CallerMove(s, c))
  {
    assert s.owner == Caller(c);
    var t := s.callers[c].task;
    InsertOrder(s.tasks, t);
    InsertAdds(s.tasks, t);
    assert s.tasks[0..] == s.tasks && Insert(s.tasks, t)[0..] == Insert(s.tasks, t);
    assert Pos(s.daemon) == 0;
    if Insert(s.tasks, t) != s.tasks {
      assert multiset(s.accepted + [t]) == multiset(s.accepted) + multiset{t};
    }
  }

  lemma ConserveDaemon(s: Timer, v: nat)
    requires DaemonKnows(s) && ConserveInv(s) && Enabled(s, DaemonStep(v))
    ensures ConserveInv(DaemonMove(s, v))
  {
    if s.daemon.DDrain? { ConserveLooks(s, v); }
    else if s.daemon.DSubmit? { ConservePushes(s, v); }
    else { ConserveFrame(s, DaemonMove(s, v)); }
  }

  lemma ConserveLooks(s: Timer, v: nat)
    requires DaemonKnows(s) && ConserveInv(s) && Enabled(s, DaemonStep(v)) && s.daemon.DDrain?
    ensures ConserveInv(DaemonMove(s, v))
  {
    var t := DaemonMove(s, v);
    if s.daemon.i == |s.tasks| {
      assert s.tasks[s.daemon.i..] == [];
    } else if t.daemon.DDrain? {
      ConserveNext(s, t);
    } else {
      ConserveFrame(s, t);
    }
  }

  lemma ConservePushes(s: Timer, v: nat)
    requires DaemonKnows(s) && ConserveInv(s) && Enabled(s, DaemonStep(v)) && s.daemon.DSubmit?
    ensures ConserveInv(DaemonMove(s, v))
  {
    if s.pool.clients[0].Pushing? { ConserveNext(s, DaemonMove(s, v)); } else { ConserveFrame(s, DaemonMove(s, v)); }
  }

  // ----- drains and clock readings

  ghost predicate DrainInv(s: Timer) {
    && (s.daemon.DDrain? || s.daemon.DSubmit? || s.daemon.DTell? ==>
          && s.daemon.at <= s.now && s.daemon.i <= |s.tasks|
          && s.base <= |s.pool.submitted|
          && s.pool.submitted[s.base..] == Later(s.tasks[..s.daemon.i], s.daemon.at))
    && |s.expiredAt| == |s.expired|
    && (forall i :: 0 <= i < |s.expired| ==> s.expired[i].due <= s.expiredAt[i] <= s.now)
  }

  lemma DrainStep(s: Timer, step: Step)
    requires LockInv(s) && DaemonKnows(s) && DrainInv(s) && Enabled(s, step)
    ensures DrainInv(Apply(s, step))
  {
    match step
    case CallerStep(c) => DrainCaller(s, c);
    case DaemonStep(v) => DrainDaemon(s, v);
    case PoolWorker(w) => assert Apply(s, step).pool.submitted == s.pool.submitted;
    case _ =>
  }

  lemma DrainCaller(s: Timer, c: nat)
    requires LockInv(s) && DrainInv(s) && Enabled(s, CallerStep(c))
    ensures DrainInv(CallerMove(s, c))
  {
    assert s.callers[c].AddHold? ==> s.owner == Caller(c);
  }

  lemma DrainDaemon(s: Timer, v: nat)
    requires DaemonKnows(s) && DrainInv(s) && Enabled(s, DaemonStep(v))
    ensures DrainInv(DaemonMove(s, v))
  {
    if s.daemon.DDrain? && s.daemon.i < |s.tasks| {
      DrainLooks(s, v);
    } else if s.daemon.DSubmit? {
      DrainPushes(s, v);
    }
  }

  lemma DrainLooks(s: Timer, v: nat)
    requires DrainInv(s) && Enabled(s, DaemonStep(v)) && s.daemon.DDrain? && s.daemon.i < |s.tasks|
    ensures DrainInv(DaemonMove(s, v))
  {
    LaterNext(s.tasks, s.daemon.i, s.daemon.at);
  }

  lemma DrainPushes(s: Timer, v: nat)
    requires DaemonKnows(s) && DrainInv(s) && Enabled(s, DaemonStep(v)) && s.daemon.DSubmit?
    ensures DrainInv(DaemonMove(s, v))
  {
    LaterNext(s.tasks, s.daemon.i, s.daemon.at);
    var sub := s.pool.submitted;
    assert (sub + [s.tasks[s.daemon.i]])[s.base..] == sub[s.base..] + [s.tasks[s.daemon.i]];
  }

  // ----- after the flag is written

  ghost predicate ClosedInv(s: Timer) {
    && (s.terminate ==>
          && s.closed <= s.accepted
          && multiset(s.closed) == multiset(s.expired) + multiset(s.pool.submitted))
    && (P.PastCheck(s.pool.shutdown) ==> s.pool.sealed == |s.pool.submitted|)
  }

  lemma ClosedStep(s: Timer, step: Step)
    requires LockInv(s) && DaemonKnows(s) && CloserInv(s) && ConserveInv(s) && ClosedInv(s) && Enabled(s, step)
    ensures ClosedInv(Apply(s, step))
  {
    match step
    case CallerStep(c) => ClosedCaller(s, c);
    case DaemonStep(v) => ClosedDaemon(s, v);
    case PoolWorker(w) => assert Apply(s, step).pool.submitted == s.pool.submitted;
    case _ =>
  }

  lemma ClosedCaller(s: Timer, c: nat)
    requires LockInv(s) && CloserInv(s) && ConserveInv(s) && ClosedInv(s) && Enabled(s, CallerStep(c))
    ensures ClosedInv(CallerMove(s, c))
  {
    if Adds(s.callers[c]) { ClosedAdds(s, c); }
    else if Closes(s.callers[c]) { ClosedCloses(s, c); }
    else { ClosedWaits(s, c); }
  }

  lemma ClosedAdds(s: Timer, c: nat)
    requires LockInv(s) && CloserInv(s) && ConserveInv(s) && ClosedInv(s) && Enabled(s, CallerStep(c)) && Adds(s.callers[c])
    ensures ClosedInv(CallerMove(s, c))
  {
    var t := CallerMove(s, c);
    assert t.pool.submitted == s.pool.submitted && t.expired == s.expired && s.accepted <= t.accepted;
  }

  lemma ClosedWaits(s: Timer, c: nat)
    requires LockInv(s) && CloserInv(s) && ConserveInv(s) && ClosedInv(s) && Enabled(s, CallerStep(c)) && Waits(s.callers[c])
    ensures ClosedInv(CallerMove(s, c))
  {
  }

  lemma ClosedCloses(s: Timer, c: nat)
    requires LockInv(s) && CloserInv(s) && ConserveInv(s) && ClosedInv(s) && Enabled(s, CallerStep(c)) && Closes(s.callers[c])
    ensures ClosedInv(CallerMove(s, c))
  {
    assert s.owner == Caller(c);
    if s.callers[c].SdCheck? && !s.terminate {
      assert s.tasks == [];
      assert s.tasks[Pos(s.daemon)..] == [];
    }
  }

  lemma ClosedDaemon(s: Timer, v: nat)
    requires LockInv(s) && DaemonKnows(s) && CloserInv(s) && ClosedInv(s) && Enabled(s, DaemonStep(v))
    ensures ClosedInv(DaemonMove(s, v))
  {
  }

  // ----- when functions run

  ghost predicate RanInTime(dispatched: seq<Task>, finished: seq<nat>, ran: seq<int>, now: int) {
    && |ran| == |finished|
    && (forall i :: 0 <= i < |ran| ==>
          finished[i] < |dispatched| && dispatched[finished[i]].due <= ran[i] <= now)
  }

  ghost predicate RanInv(s: Timer) { RanInTime(s.pool.dispatched, s.pool.finished, s.ran, s.now) }

  lemma RanLater(dispatched: seq<Task>, more: seq<Task>, finished: seq<nat>, ran: seq<int>, now: int, later: int)
    requires RanInTime(dispatched, finished, ran, now) && dispatched <= more && now <= later
    ensures RanInTime(more, finished, ran, later)
  {
  }

  lemma RanOneMore(dispatched: seq<Task>, finished: seq<nat>, ran: seq<int>, now: int, k: nat)
    requires RanInTime(dispatched, finished, ran, now) && k < |dispatched| && dispatched[k].due <= now
    ensures RanInTime(dispatched, finished + [k], ran + [now], now)
  {
  }

  lemma RanStep(s: Timer, step: Step)
    requires RanInv(s) && P.InFlightInv(s.pool) && Enabled(s, step)
    ensures RanInv(Apply(s, step))
  {
    var t := Apply(s, step);
    if step.PoolWorker? && s.pool.workers[step.w].Running? {
      RanOneMore(s.pool.dispatched, s.pool.finished, s.ran, s.now, s.pool.workers[step.w].k);
    } else {
      RanFrame(s, step);
      RanLater(s.pool.dispatched, t.pool.dispatched, s.pool.finished, s.ran, s.now, t.now);
    }
  }

  ghost predicate RanSame(s: Timer, t: Timer) {
    && t.pool.finished == s.pool.finished && t.ran == s.ran && s.now <= t.now
    && s.pool.dispatched <= t.pool.dispatched
  }

  /** Nothing else touches what has run. */
  lemma RanFrame(s: Timer, step: Step)
    requires Enabled(s, step) && !(step.PoolWorker? && s.pool.workers[step.w].Running?)
    ensures RanSame(s, Apply(s, step))
  {
    match step
    case CallerStep(c) => RanCaller(s, c);
    case DaemonStep(v) => RanDaemon(s, v);
    case PoolWorker(w) => RanWorker(s, w);
    case _ =>
  }

  lemma RanCaller(s: Timer, c: nat)
    requires Enabled(s, CallerStep(c))
    ensures RanSame(s, CallerMove(s, c))
  {
  }

  lemma RanDaemon(s: Timer, v: nat)
    requires Enabled(s, DaemonStep(v))
    ensures RanSame(s, DaemonMove(s, v))
  {
  }

  lemma RanWorker(s: Timer, w: nat)
    requires Enabled(s, PoolWorker(w)) && !s.pool.workers[w].Running?
    ensures RanSame(s, WorkerMove(s, w))
  {
  }

  // ----- no lost wakeup on the timer's own condition variable

  /** A sleeping daemon has nothing to do unless someone is about to notify; a sleeping Shutdown still has
      tasks to wait for unless the daemon is about to notify. */
  ghost predicate TimerWakeupInv(s: Timer) {
    && (s.daemon.DBlocked? && (s.tasks != [] || s.terminate) ==>
          exists c :: 0 <= c < |s.callers| && (s.callers[c].AddNotify? || s.callers[c].SdWake?))
    && (forall c :: 0 <= c < |s.callers| ==>
          && (s.callers[c].SdBlock? ==> s.tasks != [])
          && (s.callers[c].SdBlocked? ==> s.tasks != [] || s.daemon.DWake?))
  }

  lemma TimerWakeupStep(s: Timer, step: Step)
    requires LockInv(s) && DaemonKnows(s) && TimerWakeupInv(s) && Enabled(s, step)
    ensures TimerWakeupInv(Apply(s, step))
  {
    match step
    case CallerStep(c) => TimerWakeupCaller(s, c);
    case DaemonStep(v) => TimerWakeupDaemon(s, v);
    case CallAdd(c, due) => TimerWakeupFrame(s, Apply(s, step), c);
    case TaskAdds(w, c, due) => TimerWakeupFrame(s, Apply(s, step), c);
    case CallShutdown(c) => TimerWakeupFrame(s, Apply(s, step), c);
    case CallerSpurious(c) => TimerWakeupFrame(s, Apply(s, step), c);
    case _ =>
  }

  lemma TimerWakeupFrame(s: Timer, t: Timer, c: nat)
    requires TimerWakeupInv(s) && c < |s.callers| && |t.callers| == |s.callers|
    requires t.daemon == s.daemon && t.tasks == s.tasks && t.terminate == s.terminate
    requires forall d :: 0 <= d < |s.callers| && d != c ==> t.callers[d] == s.callers[d]
    requires !s.callers[c].AddNotify? && !s.callers[c].SdWake?
    requires t.callers[c].SdBlock? || t.callers[c].SdBlocked? ==> t.tasks != []
    ensures TimerWakeupInv(t)
  {
    if s.daemon.DBlocked? && !(s.tasks == [] && !s.terminate) {
      var d :| 0 <= d < |s.callers| && (s.callers[d].AddNotify? || s.callers[d].SdWake?);
      assert t.callers[d].AddNotify? || t.callers[d].SdWake?;
    }
  }

  lemma TimerWakeupCaller(s: Timer, c: nat)
    requires LockInv(s) && TimerWakeupInv(s) && Enabled(s, CallerStep(c))
    ensures TimerWakeupInv(CallerMove(s, c))
  {
    var t := CallerMove(s, c);
    if s.callers[c].AddHold? {
      InsertNonempty(s.tasks, s.callers[c].task);
      assert t.callers[c].AddNotify?;
    } else if s.callers[c].SdCheck? && !s.terminate {
      assert t.callers[c].SdWake?;
    } else if !s.callers[c].AddNotify? && !s.callers[c].SdWake? {
      TimerWakeupFrame(s, t, c);
    }
  }

  lemma InsertNonempty(ts: seq<Task>, t: Task)
    ensures Insert(ts, t) != []
  {
  }

  lemma TimerWakeupDaemon(s: Timer, v: nat)
    requires LockInv(s) && DaemonKnows(s) && TimerWakeupInv(s) && Enabled(s, DaemonStep(v))
    ensures TimerWakeupInv(DaemonMove(s, v))
  {
    assert forall c :: 0 <= c < |s.callers| && s.callers[c].SdBlock? ==> s.owner == Caller(c);
  }

  // ----- all together

  ghost predicate TimerInv(s: Timer) {
    && CoreInv(s) && FreshInv(s)
    && ConserveInv(s) && DrainInv(s) && ClosedInv(s) && RanInv(s) && TimerWakeupInv(s)
  }

  lemma InitCore(s: Timer)
    requires Init(s)
    ensures CoreInv(s)
  {
    P.InitInv(s.pool);
  }

  lemma InitConserve(s: Timer)
    requires Init(s)
    ensures ConserveInv(s) && DrainInv(s) && ClosedInv(s)
  {
    assert s.tasks[0..] == [];
  }

  lemma InitTimerInv(s: Timer)
    requires Init(s)
    ensures TimerInv(s)
  {
    InitCore(s);
    InitConserve(s);
  }

  lemma TimerInvStep(s: Timer, step: Step)
    requires TimerInv(s) && Enabled(s, step)
    ensures TimerInv(Apply(s, step))
  {
    CoreStep(s, step);
    FreshStep(s, step);
    ConserveStep(s, step);
    DrainStep(s, step);
    ClosedStep(s, step);
    RanStep(s, step);
    TimerWakeupStep(s, step);
  }

  lemma {:induction false} RunKeepsTimerInv(s: Timer, steps: seq<Step>, t: Timer)
    requires TimerInv(s) && Runs(s, steps, t)
    ensures TimerInv(t)
    decreases steps
  {
    if steps != [] {
      TimerInvStep(s, steps[0]);
      RunKeepsTimerInv(Apply(s, steps[0]), steps[1..], t);
    }
  }
}
