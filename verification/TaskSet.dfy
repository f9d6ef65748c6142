/** The timer's set of tasks, ordered by time point alone, and what one drain of it does. */
module TaskSet {

  /** `id` stands for the identity of the shared pointer, `due` for the time point. */
  datatype Task = Task(id: nat, due: int)

  ghost predicate Increasing(ts: seq<Task>) {
    forall i, j :: 0 <= i < j < |ts| ==> ts[i].due < ts[j].due
  }

  ghost predicate HasDue(ts: seq<Task>, due: int) {
    exists i :: 0 <= i < |ts| && ts[i].due == due
  }

  /** `std::set::insert` under an order that looks at the time point only. */
  function Insert(ts: seq<Task>, t: Task): seq<Task> {
    if ts == [] || t.due < ts[0].due then [t] + ts
    else if t.due == ts[0].due then ts
    else [ts[0]] + Insert(ts[1..], t)
  }

  /** `HasDue` in recursive form. */
  lemma HasDueHead(ts: seq<Task>, due: int)
    requires ts != []
    ensures HasDue(ts, due) <==> ts[0].due == due || HasDue(ts[1..], due)
  {
    if HasDue(ts, due) && ts[0].due != due {
      var i :| 0 <= i < |ts| && ts[i].due == due;
      assert ts[1..][i - 1].due == due;
    }
    if HasDue(ts[1..], due) {
      var i :| 0 <= i < |ts[1..]| && ts[1..][i].due == due;
      assert ts[i + 1].due == due;
    }
  }

  lemma {:induction false} InsertElements(ts: seq<Task>, t: Task)
    ensures forall i :: 0 <= i < |Insert(ts, t)| ==> Insert(ts, t)[i] == t || Insert(ts, t)[i] in ts
  {
    if ts != [] && t.due > ts[0].due { InsertElements(ts[1..], t); }
  }

  lemma {:induction false} InsertKeeps(ts: seq<Task>, t: Task)
    ensures forall u :: u in ts ==> u in Insert(ts, t)
  {
    if ts != [] && t.due > ts[0].due {
      InsertKeeps(ts[1..], t);
      assert ts == [ts[0]] + ts[1..];
    }
  }

  lemma {:induction false} InsertOrder(ts: seq<Task>, t: Task)
    requires Increasing(ts)
    ensures Increasing(Insert(ts, t))
  {
    if ts != [] && t.due > ts[0].due {
      InsertOrder(ts[1..], t);
      InsertElements(ts[1..], t);
    }
  }

  lemma {:induction false} InsertDues(ts: seq<Task>, t: Task, due: int)
    ensures HasDue(Insert(ts, t), due) <==> HasDue(ts, due) || due == t.due
  {
    var us := Insert(ts, t);
    HasDueHead(us, due);
    if ts == [] || t.due < ts[0].due {
      assert us[1..] == ts;
    } else {
      HasDueHead(ts, due);
      if t.due > ts[0].due {
        InsertDues(ts[1..], t, due);
        assert us[1..] == Insert(ts[1..], t);
      }
    }
  }

  /** An insert adds the task exactly when its time point is new, and otherwise changes nothing. */
  lemma {:induction false} InsertAdds(ts: seq<Task>, t: Task)
    requires Increasing(ts)
    ensures HasDue(ts, t.due) ==> Insert(ts, t) == ts
    ensures !HasDue(ts, t.due) ==> multiset(Insert(ts, t)) == multiset(ts) + multiset{t}
  {
    if ts != [] {
      HasDueHead(ts, t.due);
      if t.due > ts[0].due {
        InsertAdds(ts[1..], t);
        assert ts == [ts[0]] + ts[1..];
      }
    }
  }

  /** The tasks a drain with clock reading `now` hands to the pool, in order. */
  function Later(ts: seq<Task>, now: int): seq<Task> {
    if ts == [] then []
    else
      var t := ts[|ts| - 1];
      Later(ts[..|ts| - 1], now) + if t.due > now then [t] else []
  }

  /** The tasks the same drain throws away because they are already due. */
  function Due(ts: seq<Task>, now: int): seq<Task> {
    if ts == [] then []
    else
      var t := ts[|ts| - 1];
      Due(ts[..|ts| - 1], now) + if t.due > now then [] else [t]
  }

  lemma LaterNext(ts: seq<Task>, i: nat, now: int)
    requires i < |ts|
    ensures Later(ts[..i + 1], now) == Later(ts[..i], now) + if ts[i].due > now then [ts[i]] else []
    ensures Due(ts[..i + 1], now) == Due(ts[..i], now) + if ts[i].due > now then [] else [ts[i]]
  {
    assert ts[..i + 1][..i] == ts[..i];
  }

  /** A drain splits the set: every task is handed over or thrown away, once. */
  lemma {:induction false} DrainSplits(ts: seq<Task>, now: int)
    ensures multiset(ts) == multiset(Later(ts, now)) + multiset(Due(ts, now))
  {
    if ts != [] {
      DrainSplits(ts[..|ts| - 1], now);
      assert ts == ts[..|ts| - 1] + [ts[|ts| - 1]];
    }
  }

  /** Which of the two happens depends on the task's own time point, and the order is kept. */
  lemma {:induction false} DrainByTimePoint(ts: seq<Task>, now: int)
    requires Increasing(ts)
    ensures forall i :: 0 <= i < |Later(ts, now)| ==> Later(ts, now)[i].due > now && Later(ts, now)[i] in ts
    ensures forall i :: 0 <= i < |Due(ts, now)| ==> Due(ts, now)[i].due <= now && Due(ts, now)[i] in ts
    ensures Increasing(Later(ts, now))
  {
    if ts != [] {
      var front := ts[..|ts| - 1];
      DrainByTimePoint(front, now);
      assert forall t :: t in front ==> t in ts && t.due < ts[|ts| - 1].due;
    }
  }

  /** The i-th time point of AddRepeatTask: each pass of the loop adds the interval once more. */
  function RepeatPoint(start: int, interval: int, i: nat): int {
    (if i == 0 then start else RepeatPoint(start, interval, i - 1)) + interval
  }

  /** What the i-th insert of AddRepeatTask reports when the set held `before` at the call. */
  ghost predicate Added(before: seq<Task>, start: int, interval: int, i: nat) {
    !HasDue(before, RepeatPoint(start, interval, i)) && (interval != 0 || i == 0)
  }

  ghost predicate IsRepeatPoint(start: int, interval: int, repeat: nat, due: int) {
    exists i :: 0 <= i < repeat && RepeatPoint(start, interval, i) == due
  }

  /** The i-th time point lies i + 1 intervals after the start. */
  lemma {:induction false} RepeatPointIs(start: int, interval: int, i: nat)
    ensures RepeatPoint(start, interval, i) == start + (i + 1) * interval
  {
    if i > 0 { RepeatPointIs(start, interval, i - 1); }
    assert (i + 1) * interval == i * interval + interval;
  }

  lemma {:induction false} RepeatPointsMonotone(start: int, interval: int, i: nat, j: nat)
    requires i < j
    ensures interval > 0 ==> RepeatPoint(start, interval, i) < RepeatPoint(start, interval, j)
    ensures interval < 0 ==> RepeatPoint(start, interval, i) > RepeatPoint(start, interval, j)
    ensures interval == 0 ==> RepeatPoint(start, interval, i) == RepeatPoint(start, interval, j)
    decreases j
  {
    if i < j - 1 { RepeatPointsMonotone(start, interval, i, j - 1); }
  }

  /** The timer's own part of the state, and the critical sections that change it. */
  class TimerTasks {
    var tasks: seq<Task>
    var nextId: nat

    constructor ()
      ensures tasks == [] && nextId == 0
    {
      tasks, nextId := [], 0;
    }

    method AddTaskAtTimePoint(due: int) returns (accepted: bool)
      requires Increasing(tasks)
      modifies this
      ensures tasks == Insert(old(tasks), Task(old(nextId), due)) && nextId == old(nextId) + 1
      ensures Increasing(tasks)
      ensures accepted <==> !HasDue(old(tasks), due)
      ensures forall d :: HasDue(tasks, d) <==> HasDue(old(tasks), d) || d == due
      ensures forall t :: t in old(tasks) ==> t in tasks
      ensures accepted <==> Task(old(nextId), due) in tasks && Task(old(nextId), due) !in old(tasks)
    {
      var task := Task(nextId, due);
      InsertOrder(tasks, task);
      InsertAdds(tasks, task);
      InsertKeeps(tasks, task);
      forall d { InsertDues(tasks, task, d); }
      var size := |tasks|;
      tasks, nextId := Insert(tasks, task), nextId + 1;
      accepted := |tasks| != size;
      if !HasDue(old(tasks), due) {
        assert |multiset(tasks)| == |multiset(old(tasks))| + 1;
        assert task in multiset(tasks);
        assert forall i :: 0 <= i < |old(tasks)| ==> old(tasks)[i].due != due;
      }
    }

    /** The repetitions of one call never displace each other unless the interval is zero: the i-th one is
        dropped only for a time point that was taken before the call. */
    method AddRepeatTask(start: int, interval: int, repeat: nat) returns (accepted: seq<bool>)
      requires Increasing(tasks)
      modifies this
      ensures Increasing(tasks) && |accepted| == repeat
      ensures forall i :: 0 <= i < repeat ==> (accepted[i] <==> Added(old(tasks), start, interval, i))
      ensures forall d :: HasDue(tasks, d) <==> HasDue(old(tasks), d) || IsRepeatPoint(start, interval, repeat, d)
      ensures forall t :: t in old(tasks) ==> t in tasks
    {
      accepted := [];
      var timepoint := start;
      var i := 0;
      while i < repeat
        invariant 0 <= i <= repeat && |accepted| == i
        invariant timepoint == if i == 0 then start else RepeatPoint(start, interval, i - 1)
        invariant Increasing(tasks)
        invariant forall k :: 0 <= k < i ==> (accepted[k] <==> Added(old(tasks), start, interval, k))
        invariant forall d :: HasDue(tasks, d) <==> HasDue(old(tasks), d) || IsRepeatPoint(start, interval, i, d)
        invariant forall t :: t in old(tasks) ==> t in tasks
      {
        timepoint := timepoint + interval;
        RepeatIsNew(start, interval, i);
        RepeatNext(start, interval, i);
        var ok := AddTaskAtTimePoint(timepoint);
        accepted := accepted + [ok];
        i := i + 1;
      }
    }

    /** The body of LocalRun between the clock reading and the `clear`, with the hand-over as a list. */
    method Drain(now: int) returns (handed: seq<Task>)
      modifies this`tasks
      ensures handed == Later(old(tasks), now) && tasks == []
    {
      handed := [];
      var i := 0;
      while i < |tasks|
        invariant 0 <= i <= |tasks| && tasks == old(tasks) && handed == Later(tasks[..i], now)
      {
        LaterNext(tasks, i, now);
        var diff := tasks[i].due - now;
        if diff > 0 {
          handed := handed + [tasks[i]];
        }
        i := i + 1;
      }
      assert tasks[..i] == tasks;
      tasks := [];
    }
  }

  lemma RepeatNext(start: int, interval: int, i: nat)
    ensures forall d :: IsRepeatPoint(start, interval, i + 1, d) <==>
      IsRepeatPoint(start, interval, i, d) || d == RepeatPoint(start, interval, i)
  {
    forall d | IsRepeatPoint(start, interval, i, d)
      ensures IsRepeatPoint(start, interval, i + 1, d)
    {
      var k :| 0 <= k < i && RepeatPoint(start, interval, k) == d;
    }
    assert IsRepeatPoint(start, interval, i + 1, RepeatPoint(start, interval, i));
  }

  lemma RepeatIsNew(start: int, interval: int, i: nat)
    ensures IsRepeatPoint(start, interval, i, RepeatPoint(start, interval, i)) <==> interval == 0 && i > 0
  {
    forall k: nat | k < i { RepeatPointsMonotone(start, interval, k, i); }
    if interval == 0 && i > 0 { assert RepeatPoint(start, interval, 0) == RepeatPoint(start, interval, i); }
  }
}
