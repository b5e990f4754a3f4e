/** What holds of the thread pool in every run: order, wake-ups, draining, and how much fits. */
module PoolRuns {
  import opened Sums
  import opened PoolSystem

  /** `worker_num`, `tasks_size`, the index to start from, and whether deliveries are atomic. */
  datatype Setup = Setup(workers: nat, limit: nat, start: nat, atomic: bool)

  ghost predicate Step(p: Pool, q: Pool) {
    |p.count.tries| == |p.workers| && exists a :: Enabled(p, a) && q == Apply(p, a)
  }

  ghost predicate IsPath(tr: seq<Pool>) {
    |tr| > 0 && forall i :: 0 <= i < |tr| - 1 ==> Step(tr[i], tr[i + 1])
  }

  ghost predicate IsRun(c: Setup, tr: seq<Pool>) {
    c.start < c.workers && IsPath(tr) && tr[0] == Init(c.workers, c.limit, c.start, c.atomic)
  }

  ghost function Last(tr: seq<Pool>): Pool
    requires |tr| > 0
  {
    tr[|tr| - 1]
  }

  lemma Sized(p: Pool)
    requires Inv(p)
    ensures |p.count.tries| == |p.workers| && p.idx < |p.workers|
  {
  }

  lemma StepKeepsShape(p: Pool, a: Action)
    requires Enabled(p, a) && |p.count.tries| == |p.workers|
    ensures var q := Apply(p, a);
      |q.workers| == |p.workers| && q.limit == p.limit && q.atomic == p.atomic && q.count.start == p.count.start
  {
    hide Advance, Push;
  }

  lemma {:induction false} RunsKeepInv(c: Setup, tr: seq<Pool>, i: nat)
    requires IsRun(c, tr) && i < |tr|
    ensures Inv(tr[i]) && |tr[i].workers| == c.workers && tr[i].limit == c.limit && tr[i].atomic == c.atomic
  {
    hide Inv, Apply, Enabled;
    if i == 0 {
      InitHolds(c.workers, c.limit, c.start, c.atomic);
    } else {
      RunsKeepInv(c, tr, i - 1);
      assert Step(tr[i - 1], tr[i - 1 + 1]);
      var a :| Enabled(tr[i - 1], a) && tr[i] == Apply(tr[i - 1], a);
      StepKeepsInv(tr[i - 1], a);
      StepKeepsShape(tr[i - 1], a);
    }
  }

  // ----- order, wake-ups, draining --------------------------------------------------------

  /** Conservation and order: what a worker accepted is what it ran, the one in flight, then its queue. */
  lemma Conservation(c: Setup, tr: seq<Pool>, i: nat, w: nat)
    requires IsRun(c, tr) && i < |tr| && w < c.workers
    ensures |tr[i].workers| == c.workers
    ensures var x := tr[i].workers[w];
      x.accepted == x.ran + InFlight(x) + x.queue && |x.queue| <= c.limit
  {
    RunsKeepInv(c, tr, i);
  }

  /** No lost wake-up on submission: whoever sleeps unnotified has nothing to do. */
  lemma NoLostWakeUp(c: Setup, tr: seq<Pool>, i: nat, w: nat)
    requires IsRun(c, tr) && i < |tr| && w < c.workers
    ensures |tr[i].workers| == c.workers
    ensures tr[i].workers[w].pc == Asleep && !tr[i].workers[w].signalled ==> tr[i].workers[w].queue == []
  {
    RunsKeepInv(c, tr, i);
  }

  /**
   * Drain: when `stop()` has returned, every worker has ended, after running everything it had
   * accepted by the time it left; and that is everything it ever accepted, unless some submission
   * was between its test of `stop_` and its queue when `stop_` was set.
   */
  lemma DrainOnStop(c: Setup, tr: seq<Pool>, i: nat, w: nat)
    requires IsRun(c, tr) && i < |tr| && w < c.workers && tr[i].stopper == Stopped
    ensures |tr[i].workers| == c.workers
    ensures var x := tr[i].workers[w];
      x.pc == Gone && x.left <= |x.accepted| && x.ran == x.accepted[..x.left] && (!tr[i].late ==> x.ran == x.accepted)
  {
    RunsKeepInv(c, tr, i);
    AllGone(tr[i], w);
  }

  /** A worker leaves its loop at most once: once left, it only ever ends, and runs nothing more. */
  lemma {:induction false} LeavesOnce(c: Setup, tr: seq<Pool>, i: nat, j: nat, w: nat)
    requires IsRun(c, tr) && i <= j < |tr| && w < c.workers
    requires |tr[i].workers| == c.workers && HasLeft(tr[i].workers[w])
    ensures |tr[j].workers| == c.workers && HasLeft(tr[j].workers[w])
    ensures tr[j].workers[w].left == tr[i].workers[w].left && tr[j].workers[w].ran == tr[i].workers[w].ran
    decreases j - i
  {
    hide Apply, Enabled;
    if i < j {
      LeavesOnce(c, tr, i, j - 1, w);
      assert Step(tr[j - 1], tr[j - 1 + 1]);
      var a :| Enabled(tr[j - 1], a) && tr[j] == Apply(tr[j - 1], a);
      LeftStays(tr[j - 1], a, w);
    }
  }

  lemma LeftStays(p: Pool, a: Action, w: nat)
    requires Enabled(p, a) && |p.count.tries| == |p.workers| && w < |p.workers| && HasLeft(p.workers[w])
    ensures |Apply(p, a).workers| == |p.workers|
    ensures var x, y := p.workers[w], Apply(p, a).workers[w];
      HasLeft(y) && y.left == x.left && y.ran == x.ran
  {
  }

  // ----- one worker's view of a run -------------------------------------------------------

  /** A worker and the flag it tests. */
  datatype Moment = Moment(worker: Worker, stop: bool)

  ghost function View(p: Pool, w: nat): Moment
    requires w < |p.workers|
  {
    Moment(p.workers[w], p.stop)
  }

  /** What can happen to a worker: its own next step, a push, a notification, the flag. */
  ghost predicate Moves(m: Moment, n: Moment, limit: nat) {
    || (n.stop == m.stop && m.worker.pc != Gone && n.worker == Advance(m.worker, m.stop))
    || (n.stop == m.stop && m.worker.pc != Dozing && exists job :: n.worker == Push(m.worker, job, limit))
    || (n.stop == m.stop && n.worker == Notified(m.worker))
    || (n.stop && n.worker == m.worker)
  }

  /** Every step of the pool is one of these for each worker, or nothing to it. */
  lemma StepProjects(p: Pool, a: Action, w: nat)
    requires Enabled(p, a) && |p.count.tries| == |p.workers| && w < |p.workers|
    ensures |Apply(p, a).workers| == |p.workers|
    ensures View(Apply(p, a), w) == View(p, w) || Moves(View(p, w), View(Apply(p, a), w), p.limit)
  {
    hide Advance, Push, Notified;
    if a.Deliver? {
      assert w == p.idx ==> Apply(p, a).workers[w] == Push(p.workers[w], p.pending[a.th].job, p.limit);
    }
  }

  ghost predicate MomentInv(m: Moment, limit: nat) {
    WorkerInv(m.worker, limit) && (HasLeft(m.worker) ==> m.stop)
  }

  lemma MovesKeepInv(m: Moment, n: Moment, limit: nat)
    requires MomentInv(m, limit) && Moves(m, n, limit)
    ensures MomentInv(n, limit)
  {
    if n.stop == m.stop && m.worker.pc != Gone && n.worker == Advance(m.worker, m.stop) {
      AdvanceKeepsWorker(m.worker, limit, m.stop);
    } else if n.stop == m.stop && m.worker.pc != Dozing && exists job :: n.worker == Push(m.worker, job, limit) {
      var job :| n.worker == Push(m.worker, job, limit);
      PushKeepsWorker(m.worker, job, limit);
    }
  }

  lemma AdvanceKeepsWorker(w: Worker, limit: nat, stop: bool)
    requires WorkerInv(w, limit) && (HasLeft(w) ==> stop)
    ensures WorkerInv(Advance(w, stop), limit) && (HasLeft(Advance(w, stop)) ==> stop)
  {
    if w.pc.Running? {
      FinishKeeps(w, limit, stop, true);
    } else if !HasLeft(w) {
      if w.queue != [] {
        PopKeeps(w, limit, stop, true);
      } else {
        LeaveKeeps(w, limit, true);
      }
    }
  }

  lemma PushKeepsWorker(w: Worker, job: Job, limit: nat)
    requires WorkerInv(w, limit) && w.pc != Dozing
    ensures WorkerInv(Push(w, job, limit), limit)
  {
    assert w.ran + InFlight(w) + (w.queue + [job]) == w.ran + InFlight(w) + w.queue + [job];
    if HasLeft(w) {
      assert Push(w, job, limit).accepted[..w.left] == w.accepted[..w.left];
    }
  }

  // ----- going on from a state ------------------------------------------------------------

  ghost predicate Joins(tr: seq<Pool>, p: Pool, q: Pool) {
    IsPath(tr) && tr[0] == p && Last(tr) == q
  }

  ghost predicate Reaches(p: Pool, q: Pool) {
    exists tr :: Joins(tr, p, q)
  }

  lemma Stays(p: Pool)
    ensures Reaches(p, p)
  {
    assert Joins([p], p, p);
  }

  lemma Goes(p: Pool, q: Pool, a: Action) returns (r: Pool)
    requires Reaches(p, q) && Enabled(q, a) && |q.count.tries| == |q.workers|
    ensures r == Apply(q, a) && Reaches(p, r)
  {
    hide Apply, Enabled;
    r := Apply(q, a);
    var tr :| Joins(tr, p, q);
    var t := tr + [r];
    forall i | 0 <= i < |t| - 1 ensures Step(t[i], t[i + 1]) {
      if i < |tr| - 1 {
        assert Step(tr[i], tr[i + 1]);
      }
    }
    assert Joins(t, p, r);
  }

  lemma ReachesIsRun(c: Setup, q: Pool) returns (tr: seq<Pool>)
    requires c.start < c.workers && Reaches(Init(c.workers, c.limit, c.start, c.atomic), q)
    ensures IsRun(c, tr) && Last(tr) == q
  {
    tr :| Joins(tr, Init(c.workers, c.limit, c.start, c.atomic), q);
  }
}
