/** The timer queue on top of the pool, as one transition system: callers that add tasks or shut down, the
    daemon that drains the set into the pool, the pool's workers, and a clock. */
module TimerQueue {
  import opened Options
  import opened TaskSet
  import P = ThreadPool

  datatype CallerPc =
    | Idle
    | AddWant(task: Task)   // AddTaskAtTimePoint: about to take the timer mutex
    | AddHold(task: Task)   // owns it, about to insert and release
    | AddNotify
    | SdWant                // Shutdown: about to take the timer mutex
    | SdTest                // owns it, about to evaluate the wait predicate
    | SdBlock               // owns it, the predicate was false
    | SdBlocked
    | SdWoken
    | SdCheck               // owns it, the set is empty, about to check and write the flag
    | SdWake                // owns it, about to notify and enter the pool's Shutdown
    | SdPool                // owns it, inside the pool's Shutdown
    | SdReturned
    | SdThrew               // "has already shutdown"

  datatype DaemonPc =
    | DLoop                        // about to test the flag in the loop of LocalRun
    | DWant | DTest | DBlock | DBlocked | DWoken
    | DDecide                      // owns the mutex, the predicate was true
    | DClock                       // about to read the clock
    | DDrain(at: int, i: nat)      // about to look at task i with the reading `at`
    | DSubmit(at: int, i: nat)     // inside execute for task i, not pushed yet
    | DTell(at: int, i: nat)       // inside execute, task i - 1 pushed, about to notify
    | DWake                        // cleared the set, about to notify and release
    | DExited
    | DCrashed                     // the "m_task is empty" check fired

  datatype Owner = Nobody | Caller(c: nat) | Daemon

  /** `calling[w]` is the caller's place that the function run by worker w uses, if it is adding a task itself.
      `accepted`, `expired` (with the clock reading that discarded each), `closed` (the accepted tasks when
      the flag was written), `base` (how many tasks the pool had when the clock was read last) and `ran`
      (when each finished task ran its function) are histories. */
  datatype Timer = Timer(
    now: int, callers: seq<CallerPc>, daemon: DaemonPc, owner: Owner,
    tasks: seq<Task>, terminate: bool, pool: P.Pool<Task>, nextId: nat, calling: seq<Option<nat>>,
    accepted: seq<Task>, expired: seq<Task>, expiredAt: seq<int>, closed: seq<Task>,
    base: nat, ran: seq<int>)

  datatype Step =
    | Tick(d: nat)
    | CallAdd(c: nat, due: int)
    | CallShutdown(c: nat)
    | TaskAdds(w: nat, c: nat, due: int)   // the function that worker w runs calls AddTaskAtTimePoint
    | CallerStep(c: nat)
    | CallerSpurious(c: nat)
    | DaemonStep(wakes: nat)
    | DaemonSpurious
    | PoolWorker(w: nat)
    | PoolSpurious(w: nat)

  ghost predicate Init(s: Timer) {
    && (forall c :: 0 <= c < |s.callers| ==> s.callers[c] == Idle)
    && s.daemon == DLoop && s.owner == Nobody && s.tasks == [] && !s.terminate
    && P.Init(s.pool) && |s.pool.clients| == 1
    && |s.calling| == |s.pool.workers| && (forall w :: 0 <= w < |s.calling| ==> s.calling[w].None?)
    && s.accepted == [] && s.expired == [] && s.expiredAt == [] && s.closed == [] && s.ran == []
  }

  predicate CallerEnabled(s: Timer, pc: CallerPc) {
    match pc
    case Idle => false
    case SdBlocked => false
    case SdReturned => false
    case SdThrew => false
    case AddWant(_) => s.owner.Nobody?
    case SdWant => s.owner.Nobody?
    case SdWoken => s.owner.Nobody?
    case SdPool => s.pool.shutdown.Returned? || P.Enabled(s.pool, P.ShutdownStep)
    case _ => true
  }

  predicate DaemonEnabled(s: Timer, v: nat) {
    match s.daemon
    case DBlocked => false
    case DExited => false
    case DCrashed => false
    case DWant => s.owner.Nobody?
    case DWoken => s.owner.Nobody?
    case DSubmit(_, _) => P.Enabled(s.pool, P.ClientStep(0, v))
    case DTell(_, _) => P.Enabled(s.pool, P.ClientStep(0, v))
    case _ => true
  }

  predicate Enabled(s: Timer, step: Step) {
    match step
    case Tick(_) => true
    case CallAdd(c, _) => c < |s.callers| && s.callers[c].Idle?
    case CallShutdown(c) => c < |s.callers| && s.callers[c].Idle?
    case TaskAdds(w, c, _) => c < |s.callers| && s.callers[c].Idle? && CanCall(s, w)
    case CallerStep(c) => c < |s.callers| && CallerEnabled(s, s.callers[c])
    case CallerSpurious(c) => c < |s.callers| && s.callers[c].SdBlocked?
    case DaemonStep(v) => DaemonEnabled(s, v)
    case DaemonSpurious => s.daemon.DBlocked?
    case PoolWorker(w) => P.Enabled(s.pool, P.WorkerStep(w)) && !TooEarly(s, w) && !InsideCall(s, w)
    case PoolSpurious(w) => P.Enabled(s.pool, P.Spurious(w))
  }

  /** The lambda handed to the pool sleeps until the task's time point before it runs the function. */
  predicate TooEarly(s: Timer, w: nat)
    requires w < |s.pool.workers|
  {
    s.pool.workers[w].Running? && s.pool.workers[w].k < |s.pool.dispatched|
    && s.now < s.pool.dispatched[s.pool.workers[w].k].due
  }

  /** A function that is adding a task returns only after that. */
  predicate InsideCall(s: Timer, w: nat) { w < |s.calling| && s.calling[w].Some? }

  /** The function of worker w is running and not inside a call. */
  predicate CanCall(s: Timer, w: nat) {
    w < |s.pool.workers| && s.pool.workers[w].Running? && !TooEarly(s, w) && w < |s.calling| && s.calling[w].None?
  }

  /** The function whose call has returned. */
  function Released(calling: seq<Option<nat>>, c: nat): seq<Option<nat>> {
    seq(|calling|, w requires 0 <= w < |calling| => if calling[w] == Some(c) then None else calling[w])
  }

  function WakeCallers(cs: seq<CallerPc>): seq<CallerPc> {
    seq(|cs|, c requires 0 <= c < |cs| => if cs[c].SdBlocked? then SdWoken else cs[c])
  }

  /** `notify_all` on the timer's condition variable. */
  function NotifyAll(s: Timer): Timer {
    s.(callers := WakeCallers(s.callers), daemon := if s.daemon.DBlocked? then DWoken else s.daemon)
  }

  function At(s: Timer, c: nat, pc: CallerPc): Timer
    requires c < |s.callers|
  {
    s.(callers := s.callers[c := pc])
  }

  function CallerMove(s: Timer, c: nat): Timer
    requires Enabled(s, CallerStep(c))
  {
    match s.callers[c]
    case AddWant(t) => At(s, c, AddHold(t)).(owner := Caller(c))
    case AddHold(t) =>
      At(s, c, AddNotify).(owner := Nobody, tasks := Insert(s.tasks, t),
        accepted := if Insert(s.tasks, t) == s.tasks then s.accepted else s.accepted + [t])
    case AddNotify => NotifyAll(At(s, c, Idle)).(calling := Released(s.calling, c))
    case SdWant => At(s, c, SdTest).(owner := Caller(c))
    case SdWoken => At(s, c, SdTest).(owner := Caller(c))
    case SdTest => At(s, c, if s.tasks == [] then SdCheck else SdBlock)
    case SdBlock => At(s, c, SdBlocked).(owner := Nobody)
    case SdCheck =>
      if s.terminate then At(s, c, SdThrew).(owner := Nobody)
      else At(s, c, SdWake).(terminate := true, closed := s.accepted)
    case SdWake => NotifyAll(At(s, c, SdPool)).(pool := s.pool.(shutdown := P.Polling))
    case SdPool =>
      if s.pool.shutdown.Returned? then At(s, c, SdReturned).(owner := Nobody)
      else s.(pool := P.Apply(s.pool, P.ShutdownStep))
  }

  function DaemonMove(s: Timer, v: nat): Timer
    requires Enabled(s, DaemonStep(v))
  {
    match s.daemon
    case DLoop => s.(daemon := if s.terminate then DExited else DWant)
    case DWant => s.(daemon := DTest, owner := Daemon)
    case DWoken => s.(daemon := DTest, owner := Daemon)
    case DTest => s.(daemon := if s.tasks != [] || s.terminate then DDecide else DBlock)
    case DBlock => s.(daemon := DBlocked, owner := Nobody)
    case DDecide =>
      if s.terminate then s.(daemon := DExited, owner := Nobody)
      else if s.tasks == [] then s.(daemon := DCrashed, owner := Nobody)
      else s.(daemon := DClock)
    case DClock => s.(daemon := DDrain(s.now, 0), base := |s.pool.submitted|)
    case DDrain(at, i) =>
      if i >= |s.tasks| then s.(daemon := DWake, tasks := [])
      else if s.tasks[i].due - at > 0 then
        s.(daemon := DSubmit(at, i), pool := s.pool.(clients := [P.WantPush(s.tasks[i])]))
      else s.(daemon := DDrain(at, i + 1), expired := s.expired + [s.tasks[i]], expiredAt := s.expiredAt + [at])
    case DSubmit(at, i) =>
      s.(pool := P.Apply(s.pool, P.ClientStep(0, v)),
         daemon := if s.pool.clients[0].Pushing? then DTell(at, i + 1) else s.daemon)
    case DTell(at, i) => s.(pool := P.Apply(s.pool, P.ClientStep(0, v)), daemon := DDrain(at, i))
    case DWake => NotifyAll(s).(daemon := DLoop, owner := Nobody)
  }

  function WorkerMove(s: Timer, w: nat): Timer
    requires Enabled(s, PoolWorker(w))
  {
    s.(pool := P.Apply(s.pool, P.WorkerStep(w)),
       ran := if s.pool.workers[w].Running? then s.ran + [s.now] else s.ran)
  }

  function Apply(s: Timer, step: Step): Timer
    requires Enabled(s, step)
  {
    match step
    case Tick(d) => s.(now := s.now + d)
    case CallAdd(c, due) => At(s, c, AddWant(Task(s.nextId, due))).(nextId := s.nextId + 1)
    case CallShutdown(c) => At(s, c, SdWant)
    case TaskAdds(w, c, due) =>
      At(s, c, AddWant(Task(s.nextId, due))).(nextId := s.nextId + 1, calling := s.calling[w := Some(c)])
    case CallerStep(c) => CallerMove(s, c)
    case CallerSpurious(c) => At(s, c, SdWoken)
    case DaemonStep(v) => DaemonMove(s, v)
    case DaemonSpurious => s.(daemon := DWoken)
    case PoolWorker(w) => WorkerMove(s, w)
    case PoolSpurious(w) => s.(pool := P.Apply(s.pool, P.Spurious(w)))
  }

  ghost predicate Runs(s: Timer, steps: seq<Step>, t: Timer)
    decreases steps
  {
    if steps == [] then t == s
    else Enabled(s, steps[0]) && Runs(Apply(s, steps[0]), steps[1..], t)
  }
}
