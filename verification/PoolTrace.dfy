/** What the pool does with the tasks of each call of `execute`, told from the steps of a run. */
module PoolTrace {
  import opened Sequences
  import opened ThreadPool

  // ----- what is called is pushed

  /** The tasks with which client c calls `execute` in a run. */
  ghost function CalledBy<T>(steps: seq<Step<T>>, c: nat): seq<T> {
    if steps == [] then [] else CalledNow(steps[0], c) + CalledBy(steps[1..], c)
  }

  ghost function CalledNow<T>(step: Step<T>, c: nat): seq<T> {
    if step.Call? && step.c == c then [step.task] else []
  }

  /** A task that a client pushes. */
  datatype Push<T> = Push(c: nat, task: T)

  ghost function PushedNow<T>(s: Pool<T>, step: Step<T>): seq<Push<T>> {
    if step.ClientStep? && step.c < |s.clients| && s.clients[step.c].Pushing?
    then [Push(step.c, s.clients[step.c].task)] else []
  }

  ghost function Pushes<T>(s: Pool<T>, steps: seq<Step<T>>): seq<Push<T>>
    decreases steps
  {
    if steps == [] || !Enabled(s, steps[0]) then []
    else PushedNow(s, steps[0]) + Pushes(Apply(s, steps[0]), steps[1..])
  }

  ghost function TasksOf<T>(ps: seq<Push<T>>): seq<T> {
    if ps == [] then [] else [ps[0].task] + TasksOf(ps[1..])
  }

  /** The tasks that client c pushes. */
  ghost function PushedBy<T>(ps: seq<Push<T>>, c: nat): seq<T> {
    if ps == [] then [] else (if ps[0].c == c then [ps[0].task] else []) + PushedBy(ps[1..], c)
  }

  /** The task that client c has called with and not pushed yet. */
  ghost function HeldBy<T>(s: Pool<T>, c: nat): seq<T>
    requires c < |s.clients|
  {
    match s.clients[c]
    case WantPush(t) => [t]
    case Pushing(t) => [t]
    case _ => []
  }

  lemma {:induction false} TasksOfAppend<T>(a: seq<Push<T>>, b: seq<Push<T>>)
    ensures TasksOf(a + b) == TasksOf(a) + TasksOf(b)
  {
    if a == [] {
      assert a + b == b;
    } else {
      TasksOfAppend(a[1..], b);
      assert (a + b)[1..] == a[1..] + b;
    }
  }

  lemma {:induction false} PushedByAppend<T>(a: seq<Push<T>>, b: seq<Push<T>>, c: nat)
    ensures PushedBy(a + b, c) == PushedBy(a, c) + PushedBy(b, c)
  {
    if a == [] {
      assert a + b == b;
    } else {
      var first := if a[0].c == c then [a[0].task] else [];
      PushedByAppend(a[1..], b, c);
      assert (a + b)[1..] == a[1..] + b;
      Assoc(first, PushedBy(a[1..], c), PushedBy(b, c));
    }
  }

  /** One step: a pushed task goes to the end of the list, and is the one the client has called with. */
  lemma PushStep<T>(s: Pool<T>, step: Step<T>, c: nat)
    requires Enabled(s, step) && c < |s.clients|
    ensures var t := Apply(s, step);
      && |t.clients| == |s.clients| && t.submitted == s.submitted + TasksOf(PushedNow(s, step))
      && HeldBy(s, c) + CalledNow(step, c) == PushedBy(PushedNow(s, step), c) + HeldBy(t, c)
  {
    var ps := PushedNow(s, step);
    if ps != [] { assert ps[1..] == []; }
  }

  /** Over every run the list receives the pushed tasks in the order of the pushes, and each client's pushes are
      its calls, in order, but for one that it may still be about to push. */
  lemma {:induction false} CallsArePushed<T>(s: Pool<T>, steps: seq<Step<T>>, t: Pool<T>, c: nat)
    requires Runs(s, steps, t) && c < |s.clients|
    ensures |t.clients| == |s.clients| && t.submitted == s.submitted + TasksOf(Pushes(s, steps))
    ensures HeldBy(s, c) + CalledBy(steps, c) == PushedBy(Pushes(s, steps), c) + HeldBy(t, c)
    decreases steps
  {
    if steps == [] {
      assert HeldBy(s, c) + [] == [] + HeldBy(s, c);
    } else {
      var next, rest := Apply(s, steps[0]), steps[1..];
      PushStep(s, steps[0], c);
      CallsArePushed(next, rest, t, c);
      PushesNext(s, steps);
      var now, later := PushedNow(s, steps[0]), Pushes(next, rest);
      TasksOfAppend(now, later);
      Assoc(s.submitted, TasksOf(now), TasksOf(later));
      PushedByAppend(now, later, c);
      Assoc(HeldBy(s, c), CalledNow(steps[0], c), CalledBy(rest, c));
      Assoc(PushedBy(now, c), HeldBy(next, c), CalledBy(rest, c));
      Assoc(PushedBy(now, c), PushedBy(later, c), HeldBy(t, c));
    }
  }

  lemma PushesNext<T>(s: Pool<T>, steps: seq<Step<T>>)
    requires steps != [] && Enabled(s, steps[0])
    ensures Pushes(s, steps) == PushedNow(s, steps[0]) + Pushes(Apply(s, steps[0]), steps[1..])
  {
  }

  /** From the start: the tasks taken and those in the list are, in order, what has been pushed; and each client
      has pushed what it has called with. */
  lemma TakenInOrderOfPushes<T>(s0: Pool<T>, steps: seq<Step<T>>, s: Pool<T>, c: nat)
    requires Init(s0) && Runs(s0, steps, s) && c < |s0.clients|
    ensures s.dispatched + s.tasks == TasksOf(Pushes(s0, steps))
    ensures |s.clients| == |s0.clients| && CalledBy(steps, c) == PushedBy(Pushes(s0, steps), c) + HeldBy(s, c)
  {
    InitInv(s0);
    RunKeepsInv(s0, steps, s);
    CallsArePushed(s0, steps, s, c);
    assert [] + TasksOf(Pushes(s0, steps)) == TasksOf(Pushes(s0, steps));
    assert [] + CalledBy(steps, c) == CalledBy(steps, c);
  }

  // ----- what has been pushed before Shutdown is called has run when it returns

  /** The first tasks pushed are before the point that Shutdown's check has sealed. */
  ghost predicate Covered<T>(s: Pool<T>, first: seq<T>) {
    first <= s.submitted && (PastCheck(s.shutdown) ==> |first| <= s.sealed)
  }

  lemma CoveredStep<T>(s: Pool<T>, step: Step<T>, first: seq<T>)
    requires Covered(s, first) && Enabled(s, step)
    ensures Covered(Apply(s, step), first)
  {
  }

  lemma {:induction false} CoveredRun<T>(s: Pool<T>, steps: seq<Step<T>>, t: Pool<T>, first: seq<T>)
    requires Covered(s, first) && Runs(s, steps, t)
    ensures Covered(t, first)
    decreases steps
  {
    if steps != [] {
      CoveredStep(s, steps[0], first);
      CoveredRun(Apply(s, steps[0]), steps[1..], t, first);
    }
  }

  /** Every task that was pushed before Shutdown was called has run when it returns, as the task it was. */
  lemma PushedBeforeTheCall<T>(s0: Pool<T>, before: seq<Step<T>>, s: Pool<T>, after: seq<Step<T>>, t: Pool<T>)
    requires Init(s0) && Runs(s0, before, s) && s.shutdown.NotCalled? && Runs(s, after, t) && t.shutdown.Returned?
    ensures s.submitted <= t.dispatched
    ensures forall k: nat :: k < |s.submitted| ==> k in t.finished
  {
    InitInv(s0);
    RunKeepsInv(s0, before, s);
    RunKeepsInv(s, after, t);
    CoveredRun(s, after, t, s.submitted);
    forall k: nat | k < |s.submitted| ensures k in t.finished {
      assert Running(k) !in t.workers;
    }
  }
}
