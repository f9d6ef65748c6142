/** What becomes of each task that a call asks for, told from the steps of a run. */
module TimerCalls {
  import opened Options
  import opened Sequences
  import opened TaskSet
  import opened TimerQueue
  import opened TimerInvariants
  import opened TimerShutdown
  import P = ThreadPool

  // ----- what a run asks for, and what its inserts find

  /** The tasks that the calls of a run ask for, the first of which gets the identity `id`. */
  ghost function Asked(steps: seq<Step>, id: nat): seq<Task> {
    if steps == [] then []
    else match steps[0]
      case CallAdd(_, due) => [Task(id, due)] + Asked(steps[1..], id + 1)
      case TaskAdds(_, _, due) => [Task(id, due)] + Asked(steps[1..], id + 1)
      case _ => Asked(steps[1..], id)
  }

  /** The caller of the task has not inserted it yet. */
  predicate StillHeld(s: Timer, t: Task) { AddWant(t) in s.callers || AddHold(t) in s.callers }

  /** A caller's insert: what the set held before it, and whether the flag was up. */
  datatype Insertion = Insertion(task: Task, before: seq<Task>, late: bool)

  ghost function InsertedBy(s: Timer, step: Step): seq<Insertion> {
    if step.CallerStep? && step.c < |s.callers| && s.callers[step.c].AddHold?
    then [Insertion(s.callers[step.c].task, s.tasks, s.terminate)] else []
  }

  /** The inserts of a run, in order. */
  ghost function Insertions(s: Timer, steps: seq<Step>): seq<Insertion>
    decreases steps
  {
    if steps == [] || !Enabled(s, steps[0]) then []
    else InsertedBy(s, steps[0]) + Insertions(Apply(s, steps[0]), steps[1..])
  }

  /** Another task of the set has the time point. */
  ghost predicate Taken(x: Insertion) { exists u :: u in x.before && u.due == x.task.due }

  /** The inserts that find their time point free. */
  ghost function Kept(xs: seq<Insertion>): seq<Task> {
    if xs == [] then [] else (if Taken(xs[0]) then [] else [xs[0].task]) + Kept(xs[1..])
  }

  /** Those of them before the flag. */
  ghost function KeptInTime(xs: seq<Insertion>): seq<Task> {
    if xs == [] then [] else (if Taken(xs[0]) || xs[0].late then [] else [xs[0].task]) + KeptInTime(xs[1..])
  }

  // ----- one insert

  /** A caller about to insert: the task goes into the set and counts as accepted exactly if no task of the set
      has its time point; otherwise neither changes. */
  lemma AddStep(s: Timer, c: nat)
    requires Increasing(s.tasks) && Enabled(s, CallerStep(c)) && s.callers[c].AddHold?
    ensures var t, x := Apply(s, CallerStep(c)), s.callers[c].task;
      && t.callers[c].AddNotify? && Increasing(t.tasks)
      && (if exists u :: u in s.tasks && u.due == x.due then t.tasks == s.tasks && t.accepted == s.accepted
          else multiset(t.tasks) == multiset(s.tasks) + multiset{x} && t.accepted == s.accepted + [x])
  {
    var x := s.callers[c].task;
    InsertOrder(s.tasks, x);
    InsertAdds(s.tasks, x);
    if HasDue(s.tasks, x.due) {
      var i :| 0 <= i < |s.tasks| && s.tasks[i].due == x.due;
      assert s.tasks[i] in s.tasks;
    } else {
      assert multiset(s.tasks) + multiset{x} != multiset(s.tasks) by {
        assert (multiset(s.tasks) + multiset{x})[x] == multiset(s.tasks)[x] + 1;
      }
    }
  }

  // ----- asked for = not inserted yet + inserted

  function Holds(t: Task): CallerPc -> bool { (pc: CallerPc) => pc == AddWant(t) || pc == AddHold(t) }

  function Is(t: Task): Task -> bool { (x: Task) => x == t }

  ghost function Inserts(t: Task): Insertion -> bool { (x: Insertion) => x.task == t }

  ghost function HeldCount(s: Timer, t: Task): nat { P.Count(s.callers, Holds(t)) }

  lemma HeldIfCounted(s: Timer, t: Task)
    ensures StillHeld(s, t) <==> HeldCount(s, t) > 0
  {
    if StillHeld(s, t) {
      var c :| 0 <= c < |s.callers| && (s.callers[c] == AddWant(t) || s.callers[c] == AddHold(t));
      P.CountSome(s.callers, c, Holds(t));
    } else {
      assert forall c :: 0 <= c < |s.callers| ==> s.callers[c] in s.callers;
      P.CountNone(s.callers, Holds(t));
    }
  }

  ghost function AskedBy(step: Step, id: nat): seq<Task> {
    match step
    case CallAdd(_, due) => [Task(id, due)]
    case TaskAdds(_, _, due) => [Task(id, due)]
    case _ => []
  }

  /** What one step does to the account. */
  ghost predicate Balanced(s: Timer, step: Step, next: Timer, t: Task) {
    && Accounted(HeldCount(s, t), AskedBy(step, s.nextId), HeldCount(next, t), InsertedBy(s, step), t)
    && next.nextId == s.nextId + |AskedBy(step, s.nextId)|
  }

  /** One step: what is asked for joins the tasks held by callers, and what is inserted leaves them. */
  lemma HeldStep(s: Timer, step: Step, t: Task)
    requires Enabled(s, step)
    ensures Balanced(s, step, Apply(s, step), t)
  {
    match step
    case CallAdd(c, due) => HeldCall(s, step, Apply(s, step), c, due, t);
    case TaskAdds(w, c, due) => HeldCall(s, step, Apply(s, step), c, due, t);
    case CallShutdown(c) => HeldElse(s, step, Apply(s, step), c, SdWant, t);
    case CallerSpurious(c) => HeldElse(s, step, Apply(s, step), c, SdWoken, t);
    case CallerStep(c) => HeldCaller(s, c, t);
    case DaemonStep(v) => HeldDaemon(s, v, t);
    case _ => assert Apply(s, step).callers == s.callers;
  }

  lemma HeldElse(s: Timer, step: Step, u: Timer, c: nat, pc: CallerPc, t: Task)
    requires c < |s.callers| && u.callers == s.callers[c := pc] && u.nextId == s.nextId
    requires !Holds(t)(s.callers[c]) && !Holds(t)(pc) && InsertedBy(s, step) == [] && AskedBy(step, s.nextId) == []
    ensures Balanced(s, step, u, t)
  {
    P.CountUpdate(s.callers, c, pc, Holds(t));
  }

  lemma HeldCall(s: Timer, step: Step, u: Timer, c: nat, due: int, t: Task)
    requires c < |s.callers| && s.callers[c].Idle? && u.nextId == s.nextId + 1
    requires u.callers == s.callers[c := AddWant(Task(s.nextId, due))]
    requires InsertedBy(s, step) == [] && AskedBy(step, s.nextId) == [Task(s.nextId, due)]
    ensures Balanced(s, step, u, t)
  {
    P.CountUpdate(s.callers, c, AddWant(Task(s.nextId, due)), Holds(t));
    P.CountOne(Task(s.nextId, due), Is(t));
  }

  lemma HeldDaemon(s: Timer, v: nat, t: Task)
    requires Enabled(s, DaemonStep(v))
    ensures Balanced(s, DaemonStep(v), DaemonMove(s, v), t)
  {
    P.CountSame(s.callers, WakeCallers(s.callers), Holds(t));
  }

  lemma HeldCaller(s: Timer, c: nat, t: Task)
    requires Enabled(s, CallerStep(c))
    ensures Balanced(s, CallerStep(c), CallerMove(s, c), t)
  {
    if s.callers[c].AddNotify? || s.callers[c].SdWake? {
      AllWoken(s, c);
      HeldWoken(s, CallerMove(s, c), c, if s.callers[c].AddNotify? then Idle else SdPool, t);
    } else {
      OneCallerMoves(s, c);
      HeldMoves(s, CallerMove(s, c), c, t);
    }
  }

  lemma AllWoken(s: Timer, c: nat)
    requires Enabled(s, CallerStep(c)) && (s.callers[c].AddNotify? || s.callers[c].SdWake?)
    ensures CallerMove(s, c).callers == WakeCallers(s.callers[c := if s.callers[c].AddNotify? then Idle else SdPool])
    ensures CallerMove(s, c).nextId == s.nextId
  {
  }

  lemma HeldWoken(s: Timer, u: Timer, c: nat, pc: CallerPc, t: Task)
    requires c < |s.callers| && u.callers == WakeCallers(s.callers[c := pc]) && u.nextId == s.nextId
    requires !s.callers[c].AddWant? && !s.callers[c].AddHold? && !pc.AddWant? && !pc.AddHold?
    ensures Balanced(s, CallerStep(c), u, t)
  {
    P.CountUpdate(s.callers, c, pc, Holds(t));
    P.CountSame(s.callers[c := pc], u.callers, Holds(t));
  }

  /** One caller has moved; if it stood before its insert, it has made it or still holds its task. */
  ghost predicate OneMoved(s: Timer, u: Timer, c: nat) {
    && c < |s.callers| && u.nextId == s.nextId && |u.callers| == |s.callers|
    && u.callers == s.callers[c := u.callers[c]]
    && (s.callers[c].AddWant? ==> u.callers[c] == AddHold(s.callers[c].task))
    && (!s.callers[c].AddWant? ==> !u.callers[c].AddWant? && !u.callers[c].AddHold?)
  }

  lemma OneCallerMoves(s: Timer, c: nat)
    requires Enabled(s, CallerStep(c)) && !s.callers[c].AddNotify? && !s.callers[c].SdWake?
    ensures OneMoved(s, CallerMove(s, c), c)
  {
    if Adds(s.callers[c]) { OneAdds(s, c); } else if Closes(s.callers[c]) { OneCloses(s, c); } else { OneWaits(s, c); }
  }

  lemma OneAdds(s: Timer, c: nat)
    requires Enabled(s, CallerStep(c)) && Adds(s.callers[c]) && !s.callers[c].AddNotify?
    ensures OneMoved(s, CallerMove(s, c), c)
  {
  }

  lemma OneCloses(s: Timer, c: nat)
    requires Enabled(s, CallerStep(c)) && Closes(s.callers[c]) && !s.callers[c].SdWake?
    ensures OneMoved(s, CallerMove(s, c), c)
  {
  }

  lemma OneWaits(s: Timer, c: nat)
    requires Enabled(s, CallerStep(c)) && Waits(s.callers[c])
    ensures OneMoved(s, CallerMove(s, c), c)
  {
  }

  lemma HeldMoves(s: Timer, u: Timer, c: nat, t: Task)
    requires OneMoved(s, u, c)
    ensures Balanced(s, CallerStep(c), u, t)
  {
    P.CountUpdate(s.callers, c, u.callers[c], Holds(t));
    if s.callers[c].AddHold? { P.CountOne(Insertion(s.callers[c].task, s.tasks, s.terminate), Inserts(t)); }
  }

  lemma AskedNext(steps: seq<Step>, id: nat)
    requires steps != []
    ensures var first := AskedBy(steps[0], id);
      Asked(steps, id) == first + Asked(steps[1..], id + |first|)
  {
  }

  lemma InsertionsNext(s: Timer, steps: seq<Step>)
    requires steps != [] && Enabled(s, steps[0])
    ensures Insertions(s, steps) == InsertedBy(s, steps[0]) + Insertions(Apply(s, steps[0]), steps[1..])
  {
  }

  /** What callers held before, and what has been asked for, is what they hold now and what they have inserted. */
  ghost predicate Accounted(before: nat, asked: seq<Task>, after: nat, xs: seq<Insertion>, t: Task) {
    before + P.Count(asked, Is(t)) == after + P.Count(xs, Inserts(t))
  }

  lemma AccountedBoth(before: nat, a: seq<Task>, between: nat, xs: seq<Insertion>, b: seq<Task>, after: nat,
                      ys: seq<Insertion>, t: Task)
    requires Accounted(before, a, between, xs, t) && Accounted(between, b, after, ys, t)
    ensures Accounted(before, a + b, after, xs + ys, t)
  {
    P.CountAppend(a, b, Is(t));
    P.CountAppend(xs, ys, Inserts(t));
  }

  /** The tasks asked for and the inserts of a run, split after its first step. */
  ghost predicate SplitFirst(s: Timer, steps: seq<Step>, next: Timer) {
    && steps != [] && next.nextId == s.nextId + |AskedBy(steps[0], s.nextId)|
    && Asked(steps, s.nextId) == AskedBy(steps[0], s.nextId) + Asked(steps[1..], next.nextId)
    && Insertions(s, steps) == InsertedBy(s, steps[0]) + Insertions(next, steps[1..])
  }

  lemma SplitRun(s: Timer, steps: seq<Step>, next: Timer)
    requires steps != [] && next.nextId == s.nextId + |AskedBy(steps[0], s.nextId)|
    requires Insertions(s, steps) == InsertedBy(s, steps[0]) + Insertions(next, steps[1..])
    ensures SplitFirst(s, steps, next)
  {
    AskedNext(steps, s.nextId);
  }

  /** Over every run. */
  lemma {:induction false} AskedIsInserted(s: Timer, steps: seq<Step>, u: Timer, t: Task)
    requires Runs(s, steps, u)
    ensures Accounted(HeldCount(s, t), Asked(steps, s.nextId), HeldCount(u, t), Insertions(s, steps), t)
    decreases steps
  {
    if steps != [] {
      var next := Apply(s, steps[0]);
      HeldStep(s, steps[0], t);
      InsertionsNext(s, steps);
      SplitRun(s, steps, next);
      AskedIsInserted(next, steps[1..], u, t);
      AccountedBoth(HeldCount(s, t), AskedBy(steps[0], s.nextId), HeldCount(next, t), InsertedBy(s, steps[0]),
                    Asked(steps[1..], next.nextId), HeldCount(u, t), Insertions(next, steps[1..]), t);
    }
  }

  // ----- accepted = inserted at a free time point

  lemma {:induction false} KeptAppend(a: seq<Insertion>, b: seq<Insertion>)
    ensures Kept(a + b) == Kept(a) + Kept(b)
  {
    if a == [] {
      assert a + b == b;
    } else {
      var first := if Taken(a[0]) then [] else [a[0].task];
      KeptAppend(a[1..], b);
      assert (a + b)[1..] == a[1..] + b;
      Assoc(first, Kept(a[1..]), Kept(b));
    }
  }

  lemma {:induction false} KeptInTimeAppend(a: seq<Insertion>, b: seq<Insertion>)
    ensures KeptInTime(a + b) == KeptInTime(a) + KeptInTime(b)
  {
    if a == [] {
      assert a + b == b;
    } else {
      var first := if Taken(a[0]) || a[0].late then [] else [a[0].task];
      KeptInTimeAppend(a[1..], b);
      assert (a + b)[1..] == a[1..] + b;
      Assoc(first, KeptInTime(a[1..]), KeptInTime(b));
    }
  }

  /** One step adds to the accepted tasks what it inserts at a free time point. */
  lemma AcceptedStep(s: Timer, step: Step)
    requires Increasing(s.tasks) && Enabled(s, step)
    ensures Apply(s, step).accepted == s.accepted + Kept(InsertedBy(s, step))
  {
    var xs := InsertedBy(s, step);
    if xs != [] {
      AddStep(s, step.c);
      assert xs[1..] == [] && xs == [xs[0]];
      assert Taken(xs[0]) <==> exists u :: u in s.tasks && u.due == xs[0].task.due;
    } else {
      AcceptedFrame(s, step);
    }
  }

  lemma AcceptedFrame(s: Timer, step: Step)
    requires Enabled(s, step) && !(step.CallerStep? && s.callers[step.c].AddHold?)
    ensures Apply(s, step).accepted == s.accepted
  {
  }

  lemma {:induction false} AcceptedIsKept(s: Timer, steps: seq<Step>, t: Timer)
    requires TimerInv(s) && Runs(s, steps, t)
    ensures t.accepted == s.accepted + Kept(Insertions(s, steps))
    decreases steps
  {
    if steps != [] {
      var u, rest := Apply(s, steps[0]), steps[1..];
      TimerInvStep(s, steps[0]);
      AcceptedStep(s, steps[0]);
      AcceptedIsKept(u, rest, t);
      KeptAppend(InsertedBy(s, steps[0]), Insertions(u, rest));
      Assoc(s.accepted, Kept(InsertedBy(s, steps[0])), Kept(Insertions(u, rest)));
    }
  }

  // ----- which inserts come before the flag

  lemma FlagStep(s: Timer, step: Step)
    requires Enabled(s, step)
    ensures var t := Apply(s, step);
      && (s.terminate ==> t.terminate && t.closed == s.closed)
      && (!s.terminate && t.terminate ==> t.closed == s.accepted && InsertedBy(s, step) == [])
  {
  }

  lemma LateOne(s: Timer, step: Step)
    ensures KeptInTime(InsertedBy(s, step)) == if s.terminate then [] else Kept(InsertedBy(s, step))
  {
    var xs := InsertedBy(s, step);
    if xs != [] { assert xs[1..] == []; }
  }

  /** Once the flag is up every insert is late. */
  lemma {:induction false} LateInserts(s: Timer, steps: seq<Step>, t: Timer)
    requires s.terminate && Runs(s, steps, t)
    ensures t.terminate && t.closed == s.closed && KeptInTime(Insertions(s, steps)) == []
    decreases steps
  {
    if steps != [] {
      var u, rest := Apply(s, steps[0]), steps[1..];
      FlagStep(s, steps[0]);
      LateInserts(u, rest, t);
      LateOne(s, steps[0]);
      KeptInTimeAppend(InsertedBy(s, steps[0]), Insertions(u, rest));
    }
  }

  /** The tasks accepted when the flag was written are those inserted before it at a free time point. */
  lemma {:induction false} ClosedIsKeptInTime(s: Timer, steps: seq<Step>, t: Timer)
    requires TimerInv(s) && !s.terminate && Runs(s, steps, t) && t.terminate
    ensures t.closed == s.accepted + KeptInTime(Insertions(s, steps))
    decreases steps
  {
    if steps != [] {
      var u, rest := Apply(s, steps[0]), steps[1..];
      TimerInvStep(s, steps[0]);
      AcceptedStep(s, steps[0]);
      FlagStep(s, steps[0]);
      LateOne(s, steps[0]);
      KeptInTimeAppend(InsertedBy(s, steps[0]), Insertions(u, rest));
      if u.terminate {
        LateInserts(u, rest, t);
        assert s.accepted + [] == s.accepted;
      } else {
        ClosedIsKeptInTime(u, rest, t);
        Assoc(s.accepted, Kept(InsertedBy(s, steps[0])), KeptInTime(Insertions(u, rest)));
      }
    }
  }

  // ----- each task has one fate

  /** No task is asked for twice. */
  lemma {:induction false} AskedOnce(steps: seq<Step>, id: nat, t: Task)
    ensures P.Count(Asked(steps, id), Is(t)) <= 1
    ensures t.id < id ==> P.Count(Asked(steps, id), Is(t)) == 0
  {
    if steps != [] {
      var next := id + |AskedBy(steps[0], id)|;
      AskedOnce(steps[1..], next, t);
      AskedNext(steps, id);
      P.CountAppend(AskedBy(steps[0], id), Asked(steps[1..], next), Is(t));
      if next > id { P.CountOne(AskedBy(steps[0], id)[0], Is(t)); }
    }
  }

  lemma {:induction false} InsertIsKept(xs: seq<Insertion>, x: Insertion)
    requires x in xs && !Taken(x)
    ensures x.task in Kept(xs) && (!x.late ==> x.task in KeptInTime(xs))
  {
    if x != xs[0] {
      assert xs == [xs[0]] + xs[1..];
      InsertIsKept(xs[1..], x);
    }
  }

  lemma {:induction false} KeptIsInsert(xs: seq<Insertion>, t: Task) returns (x: Insertion)
    requires t in Kept(xs)
    ensures x in xs && x.task == t && !Taken(x)
  {
    if !Taken(xs[0]) && t == xs[0].task { x := xs[0]; } else { x := KeptIsInsert(xs[1..], t); }
  }

  lemma {:induction false} InTimeIsInsert(xs: seq<Insertion>, t: Task) returns (x: Insertion)
    requires t in KeptInTime(xs)
    ensures x in xs && x.task == t && !Taken(x) && !x.late
  {
    if !Taken(xs[0]) && !xs[0].late && t == xs[0].task { x := xs[0]; } else { x := InTimeIsInsert(xs[1..], t); }
  }

  lemma OneInsertOnly(xs: seq<Insertion>, x: Insertion, y: Insertion)
    requires x in xs && y in xs && x.task == y.task && P.Count(xs, Inserts(x.task)) <= 1
    ensures x == y
  {
    var i, j :| 0 <= i < |xs| && xs[i] == x && 0 <= j < |xs| && xs[j] == y;
    if i < j { P.CountTwo(xs, i, j, Inserts(x.task)); } else if j < i { P.CountTwo(xs, j, i, Inserts(x.task)); }
  }

  /** What each insert of a run has come to in the state `s`, in which the flag is up. */
  ghost predicate Fate(s: Timer, x: Insertion) {
    if Taken(x) then x.task !in s.tasks && x.task !in s.pool.submitted && x.task !in s.expired
    else if x.late then x.task in s.tasks && x.task !in s.pool.submitted && x.task !in s.expired
    else x.task !in s.tasks && (RanOnce(s, x.task) <==> !WasDue(s, x.task))
  }

  /** What the histories say, from the steps alone. */
  lemma Histories(s0: Timer, steps: seq<Step>, s: Timer)
    requires Init(s0) && Runs(s0, steps, s)
    ensures s.accepted == Kept(Insertions(s0, steps))
    ensures s.terminate ==> s.closed == KeptInTime(Insertions(s0, steps))
  {
    InitTimerInv(s0);
    AcceptedIsKept(s0, steps, s);
    assert [] + Kept(Insertions(s0, steps)) == Kept(Insertions(s0, steps));
    if s.terminate {
      ClosedIsKeptInTime(s0, steps, s);
      assert [] + KeptInTime(Insertions(s0, steps)) == KeptInTime(Insertions(s0, steps));
    }
  }

  lemma Account(s0: Timer, steps: seq<Step>, s: Timer, t: Task)
    requires Init(s0) && Runs(s0, steps, s)
    ensures P.Count(Asked(steps, s0.nextId), Is(t)) == HeldCount(s, t) + P.Count(Insertions(s0, steps), Inserts(t)) <= 1
  {
    AskedIsInserted(s0, steps, s, t);
    AskedOnce(steps, s0.nextId, t);
    P.CountNone(s0.callers, Holds(t));
  }

  /** Over every run: a task that a call has asked for is still held by its caller, or has been inserted, once;
      it is then accepted exactly if no task of the set had its time point at that moment. */
  lemma AskedAreAccepted(s0: Timer, steps: seq<Step>, s: Timer, t: Task)
    requires Init(s0) && Runs(s0, steps, s)
    ensures t in Asked(steps, s0.nextId) <==> StillHeld(s, t) || exists x :: x in Insertions(s0, steps) && x.task == t
    ensures forall x :: x in Insertions(s0, steps) && x.task == t ==> !StillHeld(s, t) && (t in s.accepted <==> !Taken(x))
    ensures forall x, y :: x in Insertions(s0, steps) && y in Insertions(s0, steps) && x.task == y.task == t ==> x == y
  {
    var xs := Insertions(s0, steps);
    Account(s0, steps, s, t);
    HeldIfCounted(s, t);
    P.CountExists(Asked(steps, s0.nextId), Is(t));
    P.CountExists(xs, Inserts(t));
    Histories(s0, steps, s);
    forall x, y | x in xs && y in xs && x.task == y.task == t ensures x == y { OneInsertOnly(xs, x, y); }
    forall x | x in xs && x.task == t ensures t in s.accepted <==> !Taken(x) {
      if !Taken(x) { InsertIsKept(xs, x); }
      if t in s.accepted { var y := KeptIsInsert(xs, t); }
    }
  }

  /** The composed shutdown. If TimerQueue::Shutdown has returned to some caller, then every task that a call
      has asked for is still held by its caller, or has been inserted and has one fate: it was ignored because
      another task had its time point; or the flag was up, and it stays in the set; or it has run exactly once,
      unless it was due at its drain. No position runs twice, and every worker has left. */
  lemma ComposedShutdown(s0: Timer, steps: seq<Step>, s: Timer)
    requires Init(s0) && Runs(s0, steps, s) && SdReturned in s.callers
    ensures forall t :: t in Asked(steps, s0.nextId) <==>
      StillHeld(s, t) || exists x :: x in Insertions(s0, steps) && x.task == t
    ensures forall x :: x in Insertions(s0, steps) ==> !StillHeld(s, x.task) && Fate(s, x)
    ensures forall i, j :: 0 <= i < j < |s.pool.finished| ==> s.pool.finished[i] != s.pool.finished[j]
    ensures forall w :: 0 <= w < |s.pool.workers| ==> s.pool.workers[w].Exited?
  {
    ShutdownFates(s0, steps, s);
    forall t
      ensures t in Asked(steps, s0.nextId) <==> StillHeld(s, t) || exists x :: x in Insertions(s0, steps) && x.task == t
    {
      AskedAreAccepted(s0, steps, s, t);
    }
    forall x | x in Insertions(s0, steps) ensures !StillHeld(s, x.task) && Fate(s, x) {
      AskedAreAccepted(s0, steps, s, x.task);
      OneFateOnly(s0, steps, s, x);
    }
  }

  lemma OneFateOnly(s0: Timer, steps: seq<Step>, s: Timer, x: Insertion)
    requires Init(s0) && Runs(s0, steps, s) && SdReturned in s.callers && x in Insertions(s0, steps)
    ensures Fate(s, x)
  {
    var xs, t := Insertions(s0, steps), x.task;
    AskedAreAccepted(s0, steps, s, t);
    Histories(s0, steps, s);
    Reached(s0, steps, s);
    AllClosedRan(s);
    ShutdownFates(s0, steps, s);
    if Taken(x) {
      NeverAccepted(s, t);
    } else if x.late {
      if t in s.closed { var y := InTimeIsInsert(xs, t); }
      LateStays(s, t);
    } else {
      InsertIsKept(xs, x);
      ClosedLeaves(s, t);
    }
  }

  lemma NeverAccepted(s: Timer, t: Task)
    requires ConserveInv(s) && Pos(s.daemon) == 0 && t !in s.accepted
    ensures t !in s.tasks && t !in s.pool.submitted && t !in s.expired
  {
    assert s.tasks[0..] == s.tasks;
    assert t !in multiset(s.accepted);
    assert t !in multiset(s.tasks) && t !in multiset(s.pool.submitted) && t !in multiset(s.expired);
  }

  lemma LateStays(s: Timer, t: Task)
    requires t in s.accepted && t !in s.closed && s.closed <= s.accepted
    requires multiset(s.accepted[|s.closed|..]) == multiset(s.tasks)
    ensures t in s.tasks
  {
    assert s.accepted == s.closed + s.accepted[|s.closed|..];
    assert t in multiset(s.accepted[|s.closed|..]);
  }

  /** What was accepted before the flag is no longer in the set. */
  lemma ClosedLeaves(s: Timer, t: Task)
    requires FreshInv(s) && s.closed <= s.accepted && t in s.closed
    requires multiset(s.accepted[|s.closed|..]) == multiset(s.tasks)
    ensures t !in s.tasks
  {
    var late := s.accepted[|s.closed|..];
    var i :| 0 <= i < |s.closed| && s.closed[i] == t;
    forall j | 0 <= j < |late| ensures late[j] != t { assert s.accepted[i].id != s.accepted[|s.closed| + j].id; }
    assert t !in multiset(late);
  }
}
