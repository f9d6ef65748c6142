/** How late one drained batch can run on an idle pool, ignoring overheads: each task sleeps in its worker
    until its time point, and the next task in the list goes to the worker that is free first. */
module Lateness {

  datatype Job = Job(due: int, time: nat)

  /** `handed` is the drain's clock reading, `who[k]` the worker that takes job k. */
  datatype Batch = Batch(handed: int, workers: nat, jobs: seq<Job>, who: seq<nat>)

  function Max(a: int, b: int): int { if a < b then b else a }

  ghost predicate Assigned(b: Batch) {
    && |b.who| == |b.jobs|
    && (forall k :: 0 <= k < |b.who| ==> b.who[k] < b.workers)
  }

  /** A batch as one drain hands it over: later than the reading, in the order of the time points. */
  ghost predicate WellFormed(b: Batch) {
    && Assigned(b)
    && (forall k :: 0 <= k < |b.jobs| ==> b.jobs[k].due > b.handed)
    && (forall i, j :: 0 <= i < j < |b.jobs| ==> b.jobs[i].due < b.jobs[j].due)
  }

  /** When each worker is free, once the first k jobs have been taken. */
  function Free(b: Batch, k: nat): (free: seq<int>)
    requires Assigned(b) && k <= |b.jobs|
    ensures |free| == b.workers
    decreases k, 0
  {
    if k == 0 then seq(b.workers, _ => b.handed)
    else Free(b, k - 1)[b.who[k - 1] := Start(b, k - 1) + b.jobs[k - 1].time]
  }

  function Start(b: Batch, k: nat): int
    requires Assigned(b) && k < |b.jobs|
    decreases k, 1
  {
    Max(b.jobs[k].due, Free(b, k)[b.who[k]])
  }

  predicate Earliest(free: seq<int>, w: nat)
    requires w < |free|
  {
    forall v :: 0 <= v < |free| ==> free[w] <= free[v]
  }

  function Late(b: Batch, k: nat): int
    requires Assigned(b) && k < |b.jobs|
  {
    Start(b, k) - b.jobs[k].due
  }

  /** The pool's order: the head of the list goes to a worker that is free no later than the others. */
  ghost predicate FirstFree(b: Batch) {
    && WellFormed(b)
    && forall k :: 0 <= k < |b.jobs| ==> Earliest(Free(b, k), b.who[k])
  }

  function WorkBefore(b: Batch, k: nat): nat
    requires k <= |b.jobs|
  {
    if k == 0 then 0 else WorkBefore(b, k - 1) + b.jobs[k - 1].time
  }

  /** By how much, in total, the workers are busy past time t. */
  function Excess(free: seq<int>, t: int): nat {
    if free == [] then 0 else Max(0, free[0] - t) + Excess(free[1..], t)
  }

  lemma {:induction false} ExcessUpdate(free: seq<int>, w: nat, f: int, t: int)
    requires w < |free|
    ensures Excess(free[w := f], t) + Max(0, free[w] - t) == Excess(free, t) + Max(0, f - t)
  {
    if w == 0 {
      assert free[0 := f][1..] == free[1..];
    } else {
      ExcessUpdate(free[1..], w - 1, f, t);
      assert free[w := f][1..] == free[1..][w - 1 := f];
    }
  }

  lemma {:induction false} ExcessLater(free: seq<int>, t: int, u: int)
    requires t <= u
    ensures Excess(free, u) <= Excess(free, t)
  {
    if free != [] { ExcessLater(free[1..], t, u); }
  }

  lemma {:induction false} ExcessShared(free: seq<int>, t: int, late: nat)
    requires forall w :: 0 <= w < |free| ==> free[w] >= t + late
    ensures |free| * late <= Excess(free, t)
  {
    if free != [] {
      ExcessShared(free[1..], t, late);
      assert |free| * late == |free[1..]| * late + late;
    }
  }

  lemma {:induction false} ExcessNone(free: seq<int>, t: int)
    requires forall w :: 0 <= w < |free| ==> free[w] <= t
    ensures Excess(free, t) == 0
  {
    if free != [] { ExcessNone(free[1..], t); }
  }

  /** The work that reaches past a job's time point is at most the work of the earlier jobs. */
  lemma {:induction false} ExcessBound(b: Batch, k: nat)
    requires WellFormed(b) && k < |b.jobs|
    ensures Excess(Free(b, k), b.jobs[k].due) <= WorkBefore(b, k)
  {
    if k == 0 {
      ExcessNone(Free(b, 0), b.jobs[0].due);
    } else {
      var t := b.jobs[k - 1].due;
      ExcessBound(b, k - 1);
      ExcessUpdate(Free(b, k - 1), b.who[k - 1], Start(b, k - 1) + b.jobs[k - 1].time, t);
      ExcessLater(Free(b, k), t, b.jobs[k].due);
    }
  }

  /** No job starts early, and the lateness of a job times the number of workers is at most the total running
      time of the jobs before it. */
  lemma LatenessBound(b: Batch, k: nat)
    requires FirstFree(b) && k < |b.jobs|
    ensures 0 <= Late(b, k) <= WorkBefore(b, k)
    ensures b.workers * Late(b, k) <= WorkBefore(b, k)
  {
    ExcessBound(b, k);
    assert Earliest(Free(b, k), b.who[k]);
    SharedLateness(Free(b, k), b.who[k], b.jobs[k].due, WorkBefore(b, k), b.workers, Late(b, k));
  }

  /** The earliest of the workers is late by at most an equal share of the excess. */
  lemma SharedLateness(free: seq<int>, w: nat, due: int, work: nat, workers: nat, late: int)
    requires w < |free| == workers && late == Max(due, free[w]) - due
    requires Earliest(free, w) && Excess(free, due) <= work
    ensures workers * late <= work && late <= work
  {
    if late > 0 {
      ExcessShared(free, due, late);
      Multiple(workers, late);
    }
  }

  lemma {:induction false} Multiple(n: nat, x: nat)
    requires n >= 1
    ensures x <= n * x
  {
    if n > 1 {
      Multiple(n - 1, x);
      assert n * x == (n - 1) * x + x;
    }
  }

  /** Functions that take no time all run exactly on time. */
  lemma {:induction false} InstantJobsOnTime(b: Batch, k: nat)
    requires FirstFree(b) && k < |b.jobs|
    requires forall j :: 0 <= j < k ==> b.jobs[j].time == 0
    ensures Late(b, k) == 0
  {
    LatenessBound(b, k);
    NoWork(b, k);
  }

  lemma {:induction false} NoWork(b: Batch, k: nat)
    requires k <= |b.jobs| && forall j :: 0 <= j < k ==> b.jobs[j].time == 0
    ensures WorkBefore(b, k) == 0
  {
    if k > 0 { NoWork(b, k - 1); }
  }
}
