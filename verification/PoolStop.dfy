/**
 * Stopping while a submission is between its test of `stop_` and a queue: from every such state the pool
 * can go on to stop with a task accepted and never run.
 */
module PoolStop {
  import opened Sums
  import opened PoolSystem
  import opened PoolRuns

  /** What driving the workers and `stop()` leaves alone. */
  ghost predicate SameSubmissions(p: Pool, q: Pool) {
    && q.pending == p.pending && q.idx == p.idx && q.atomic == p.atomic && q.limit == p.limit
    && |q.workers| == |p.workers| && q.stop == p.stop && q.stopper == p.stopper && q.late == p.late
  }

  /** One loop step of a worker, as a step of the pool. */
  lemma Drive(first: Pool, p: Pool, w: nat) returns (q: Pool)
    requires Reaches(first, p) && Inv(p) && w < |p.workers| && CanAdvance(p.workers[w])
    ensures Reaches(first, q) && Inv(q) && SameSubmissions(p, q)
    ensures q.workers == p.workers[w := Advance(p.workers[w], p.stop)]
  {
    hide Inv, Advance;
    Sized(p);
    q := Goes(first, p, Work(w));
    StepKeepsInv(p, Work(w));
  }

  ghost predicate NobodyDozes(p: Pool, upTo: nat) {
    forall w :: 0 <= w < upTo && w < |p.workers| ==> p.workers[w].pc != Dozing
  }

  /** Whoever is about to block blocks. */
  lemma {:induction false} LetBlock(first: Pool, p: Pool, upTo: nat) returns (q: Pool)
    requires Reaches(first, p) && Inv(p) && upTo <= |p.workers|
    ensures Reaches(first, q) && Inv(q) && SameSubmissions(p, q) && NobodyDozes(q, upTo)
  {
    hide Inv;
    if upTo == 0 {
      q := p;
    } else {
      q := LetBlock(first, p, upTo - 1);
      if q.workers[upTo - 1].pc == Dozing {
        q := Drive(first, q, upTo - 1);
      }
    }
  }

  /** `stop()` has set its flag and is waking the workers; the first `k` that slept have been notified. */
  ghost predicate Woken(p: Pool, k: nat) {
    && Inv(p) && p.stop && p.late && p.stopper == Waking(k) && k <= |p.workers| && NobodyDozes(p, |p.workers|)
    && (forall w :: 0 <= w < k ==> (p.workers[w].pc == Asleep ==> p.workers[w].signalled))
    && forall w :: 0 <= w < |p.workers| ==> !HasLeft(p.workers[w])
  }

  lemma NobodyLeft(p: Pool)
    requires Inv(p) && !p.stop
    ensures forall w :: 0 <= w < |p.workers| ==> !HasLeft(p.workers[w])
  {
    assert forall w :: 0 <= w < |p.workers| ==> StopInv(p.workers[w], p.stop, p.late);
  }

  lemma StartStop(first: Pool, p: Pool, th: int) returns (q: Pool)
    requires Reaches(first, p) && Inv(p) && p.stopper == NotStopping && Unpushed(p, th) && NobodyDozes(p, |p.workers|)
    ensures Reaches(first, q) && Woken(q, 0)
    ensures SameSubmissions(p, q.(stop := p.stop, stopper := p.stopper, late := p.late))
  {
    hide WorkerInv, StopInv, CountInv, RoundInv, PendingInv;
    Sized(p);
    NobodyLeft(p);
    hide Inv;
    var m := Goes(first, p, SetStop);
    StepKeepsInv(p, SetStop);
    q := Goes(first, m, LockStop);
    StepKeepsInv(m, LockStop);
  }

  lemma {:induction false} WakeAll(first: Pool, p: Pool, k: nat) returns (q: Pool)
    requires Reaches(first, p) && Woken(p, 0) && k <= |p.workers|
    ensures Reaches(first, q) && Woken(q, k) && SameSubmissions(p, q.(stopper := p.stopper))
  {
    hide Inv;
    if k == 0 {
      q := p;
    } else {
      var m := WakeAll(first, p, k - 1);
      Sized(m);
      q := Goes(first, m, WakeNext);
      StepKeepsInv(m, WakeNext);
    }
  }

  /** Every worker that has left did so with an empty queue; the others can all move. */
  ghost predicate Draining(p: Pool) {
    && Inv(p) && p.stop && p.late && p.stopper == Waking(|p.workers|) && NobodyDozes(p, |p.workers|)
    && forall w :: 0 <= w < |p.workers| ==> Movable(p.workers[w])
  }

  predicate Movable(x: Worker) {
    (x.pc == Asleep ==> x.signalled) && (HasLeft(x) ==> x.queue == [])
  }

  function StepsLeft(x: Worker): nat {
    6 * |x.queue| +
    match x.pc
    case Running(_) => 6
    case AtLoop => 5
    case AtLock => 4
    case AtRelock => 3
    case Dozing => 3
    case Asleep => 3
    case Leaving => 1
    case Gone => 0
  }

  /** Told to stop, a worker runs its queue empty and ends. */
  lemma {:induction false} DrainOne(first: Pool, p: Pool, w: nat) returns (q: Pool)
    requires Reaches(first, p) && Draining(p) && w < |p.workers|
    ensures Reaches(first, q) && Draining(q) && SameSubmissions(p, q) && q.workers[w].pc == Gone
    ensures forall v :: 0 <= v < |p.workers| && v != w ==> q.workers[v] == p.workers[v]
    decreases StepsLeft(p.workers[w])
  {
    hide Inv;
    if p.workers[w].pc == Gone {
      q := p;
    } else {
      var m := Drive(first, p, w);
      DriveKeepsLate(p, m, w);
      q := DrainOne(first, m, w);
    }
  }

  lemma DriveKeepsLate(p: Pool, m: Pool, w: nat)
    requires Draining(p) && Inv(m) && w < |p.workers| && p.workers[w].pc != Gone && SameSubmissions(p, m)
    requires m.workers == p.workers[w := Advance(p.workers[w], p.stop)]
    ensures Draining(m)
    ensures StepsLeft(m.workers[w]) < StepsLeft(p.workers[w])
  {
    hide Inv;
  }

  ghost predicate AllEnded(p: Pool, upTo: nat) {
    forall w :: 0 <= w < upTo && w < |p.workers| ==> p.workers[w].pc == Gone
  }

  lemma {:induction false} DrainAll(first: Pool, p: Pool, upTo: nat) returns (q: Pool)
    requires Reaches(first, p) && Draining(p) && upTo <= |p.workers|
    ensures Reaches(first, q) && Draining(q) && SameSubmissions(p, q) && AllEnded(q, upTo)
  {
    hide Draining;
    if upTo == 0 {
      q := p;
    } else {
      var m := DrainAll(first, p, upTo - 1);
      q := DrainOne(first, m, upTo - 1);
    }
  }

  lemma EverybodyCounted(p: Pool)
    requires Inv(p) && AllEnded(p, |p.workers|)
    ensures p.stopNum == |p.workers|
  {
    hide WorkerInv, StopInv, CountInv, RoundInv, PendingInv;
    SumConstant(GoneCount(p.workers), |p.workers|, 1);
  }

  /** The late submission meets the queue of a worker that has ended. */
  lemma PushLate(first: Pool, p: Pool, th: int) returns (q: Pool, w: nat)
    requires Reaches(first, p) && Draining(p) && AllEnded(p, |p.workers|) && Unpushed(p, th) && p.limit > 0
    ensures Reaches(first, q) && Inv(q) && AllEnded(q, |q.workers|) && q.stopper == Waking(|q.workers|)
    ensures w < |q.workers| && q.workers[w].queue == [p.pending[th].job]
  {
    hide SumTo, WorkerInv, StopInv, CountInv, RoundInv;
    Sized(p);
    assert p.atomic ==> p.pending[th].stage == Passed;
    w := if p.pending[th].stage.Aimed? then p.pending[th].stage.w else p.idx;
    assert Movable(p.workers[w]);
    hide Inv;
    var m := p;
    if p.pending[th].stage == Passed && !p.atomic {
      m := Goes(first, p, Choose(th));
      StepKeepsInv(p, Choose(th));
      Sized(m);
    }
    var a := if p.atomic then Deliver(th) else Hand(th);
    q := Goes(first, m, a);
    StepKeepsInv(m, a);
  }

  /** A worker that has ended with something in its queue: accepted, and never to be run. */
  ghost predicate Abandoned(p: Pool, w: nat, job: Job) {
    w < |p.workers| && p.workers[w].pc == Gone && job in p.workers[w].queue && job in p.workers[w].accepted
  }

  /**
   * The exception in `DrainOnStop` is exact: whenever `stop()` may begin while some submission is past
   * its test of `stop_` and short of a queue, the pool can stop with that task accepted and abandoned.
   */
  lemma LateSubmissionIsLost(p: Pool, th: int) returns (q: Pool, w: nat)
    requires Inv(p) && p.stopper == NotStopping && Unpushed(p, th) && p.limit > 0
    ensures Reaches(p, q) && q.stopper == Stopped && Abandoned(q, w, p.pending[th].job)
  {
    hide Inv;
    Stays(p);
    Sized(p);
    var a := LetBlock(p, p, |p.workers|);
    var b := StartStop(p, a, th);
    var c := WakeAll(p, b, |b.workers|);
    var d := DrainAll(p, c, |c.workers|);
    var e;
    e, w := PushLate(p, d, th);
    EverybodyCounted(e);
    Sized(e);
    q := Goes(p, e, StopReturns);
    InTheQueue(e, w);
  }

  lemma InTheQueue(p: Pool, w: nat)
    requires Inv(p) && w < |p.workers| && p.workers[w].queue != []
    ensures p.workers[w].queue[0] in p.workers[w].accepted
  {
    var x := p.workers[w];
    assert WorkerInv(x, p.limit);
    assert x.accepted[|x.ran + InFlight(x)|] == x.queue[0];
  }

  /** And nothing that follows changes that. */
  lemma {:induction false} AbandonedForGood(tr: seq<Pool>, i: nat, w: nat, job: Job)
    requires IsPath(tr) && Abandoned(tr[0], w, job) && i < |tr|
    ensures Abandoned(tr[i], w, job) && tr[i].workers[w].ran == tr[0].workers[w].ran
  {
    hide Apply, Enabled;
    if i > 0 {
      AbandonedForGood(tr, i - 1, w, job);
      assert Step(tr[i - 1], tr[i - 1 + 1]);
      var a :| Enabled(tr[i - 1], a) && tr[i] == Apply(tr[i - 1], a);
      AbandonedStays(tr[i - 1], a, w, job);
    }
  }

  lemma AbandonedStays(p: Pool, a: Action, w: nat, job: Job)
    requires Enabled(p, a) && |p.count.tries| == |p.workers| && Abandoned(p, w, job)
    ensures Abandoned(Apply(p, a), w, job) && Apply(p, a).workers[w].ran == p.workers[w].ran
  {
    hide NextCount;
  }
}
