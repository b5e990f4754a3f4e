/**
 * The objects of `thread_pool.cpp`, method by method. A worker's loop records the run it goes through,
 * step by step of `PoolRuns.Moves`, and every run of the pool projects to such runs, so what is proved
 * there about a worker speaks of the loop as it is written here.
 */
module ThreadPools {
  import P = PoolSystem
  import PR = PoolRuns

  /** What other threads do to a worker while it holds no lock. */
  datatype Move = Submit(job: P.Job) | Stop | Notify

  ghost predicate IsPath(path: seq<PR.Moment>, limit: nat) {
    && path != [] && PR.MomentInv(path[0], limit)
    && forall i :: 0 <= i < |path| - 1 ==> PR.Moves(path[i], path[i + 1], limit)
  }

  lemma PathGrows(path: seq<PR.Moment>, m: PR.Moment, limit: nat)
    requires IsPath(path, limit) && PR.Moves(path[|path| - 1], m, limit)
    ensures IsPath(path + [m], limit)
  {
    hide PR.Moves, PR.MomentInv;
    var p := path + [m];
    assert forall i :: 0 <= i < |path| ==> p[i] == path[i];
  }

  /** What was accepted is what has run, what is running, what is queued, at every moment of a run. */
  lemma {:induction false} PathKeepsInv(path: seq<PR.Moment>, limit: nat, i: nat)
    requires IsPath(path, limit) && i < |path|
    ensures PR.MomentInv(path[i], limit)
  {
    hide PR.Moves, PR.MomentInv;
    if i > 0 {
      PathKeepsInv(path, limit, i - 1);
      assert PR.Moves(path[i - 1], path[i - 1 + 1], limit);
      PR.MovesKeepInv(path[i - 1], path[i], limit);
    }
  }

  /** `stop_` and `stop_num_`, which the workers reach through `thread_pool_`. */
  class StopState {
    var stop: bool
    var stopNum: nat

    constructor ()
      ensures !stop && stopNum == 0
    {
      stop, stopNum := false, 0;
    }

    /** `thread_over_()`. */
    method ThreadOver()
      modifies this`stopNum
      ensures stopNum == old(stopNum) + 1
    {
      stopNum := stopNum + 1;
    }
  }

  class Worker {
    const tasksSize: nat
    const pool: StopState
    var tasksQueue: seq<P.Job>
    ghost var pc: P.Pc
    ghost var signalled: bool
    ghost var accepted: seq<P.Job>
    ghost var ran: seq<P.Job>
    ghost var left: nat
    ghost var path: seq<PR.Moment>

    constructor (tasksSize: nat, pool: StopState)
      ensures this.tasksSize == tasksSize && this.pool == pool && View() == P.NewWorker()
      ensures Recorded() && path == [Now()]
    {
      this.tasksSize, this.pool := tasksSize, pool;
      tasksQueue, pc, signalled := [], P.AtLoop, false;
      accepted, ran, left := [], [], 0;
      path := [PR.Moment(P.NewWorker(), pool.stop)];
    }

    ghost function View(): P.Worker
      reads this
    {
      P.Worker(tasksQueue, pc, signalled, accepted, ran, left)
    }

    ghost function Now(): PR.Moment
      reads this, pool
    {
      PR.Moment(View(), pool.stop)
    }

    /** The record is a run of the worker, and ends at the present. */
    ghost predicate Recorded()
      reads this, pool
    {
      IsPath(path, tasksSize) && path[|path| - 1] == Now()
    }

    /** False when the queue is full; then nothing changes. */
    method AddTask(job: P.Job) returns (ok: bool)
      modifies this`tasksQueue, this`accepted, this`signalled
      ensures View() == P.Push(old(View()), job, tasksSize)
      ensures ok <==> |old(tasksQueue)| < tasksSize
      ensures tasksQueue == if ok then old(tasksQueue) + [job] else old(tasksQueue)
      ensures signalled <==> old(signalled) || (ok && |tasksQueue| == 1 && pc == P.Asleep)
    {
      if |tasksQueue| >= tasksSize {
        return false;
      }
      tasksQueue := tasksQueue + [job];
      accepted := accepted + [job];
      if |tasksQueue| == 1 {
        NotifyOne();
      }
      return true;
    }

    /** `task_cond_.notify_one()`: it reaches the worker only if that is blocked. */
    method NotifyOne()
      modifies this`signalled
      ensures View() == P.Notified(old(View()))
    {
      ghost var woken := pc == P.Asleep;
      signalled := signalled || woken;
    }

    // ----- the loop -----------------------------------------------------------------------

    /** The thread takes its next step; the queue has been seen to. */
    ghost method Record(before: PR.Moment)
      requires IsPath(path, tasksSize) && path[|path| - 1] == before && PR.Moves(before, Now(), tasksSize)
      modifies this`path
      ensures Recorded() && path == old(path) + [Now()]
    {
      hide PR.Moves;
      PathGrows(path, Now(), tasksSize);
      path := path + [Now()];
    }

    /** A step that leaves the queue alone. */
    ghost method Goto(next: P.Pc)
      requires Recorded() && pc != P.Gone && !pc.Running?
      requires P.Advance(View(), pool.stop) == View().(pc := next, signalled := P.Advance(View(), pool.stop).signalled)
      modifies this`pc, this`signalled, this`path
      ensures Recorded() && old(path) <= path && pc == next
    {
      ghost var before := Now();
      signalled := P.Advance(View(), pool.stop).signalled;
      pc := next;
      Record(before);
    }

    /** Other threads, for one entry of `schedule`, at a point at which the lock is free. */
    method Others(schedule: seq<seq<Move>>, k: nat) returns (next: nat)
      requires Recorded() && pc != P.Dozing && k <= |schedule|
      modifies this`tasksQueue, this`accepted, this`signalled, this`path, pool`stop
      ensures next == (if k < |schedule| then k + 1 else k)
      ensures Recorded() && old(path) <= path && (old(pool.stop) ==> pool.stop)
      ensures old(accepted) <= accepted && old(tasksQueue) <= tasksQueue
      ensures next == k ==> tasksQueue == old(tasksQueue)
    {
      next := k;
      if k < |schedule| {
        for i := 0 to |schedule[k]|
          invariant Recorded() && old(path) <= path && pc == old(pc) && (old(pool.stop) ==> pool.stop)
          invariant old(accepted) <= accepted && old(tasksQueue) <= tasksQueue
        {
          ghost var before := Now();
          match schedule[k][i] {
            case Submit(job) =>
              var ok := AddTask(job);
              assert View() == P.Push(before.worker, job, tasksSize);
            case Stop =>
              pool.stop := true;
            case Notify =>
              NotifyOne();
          }
          Record(before);
        }
        next := k + 1;
      }
    }

    /**
     * `task_cond_.wait` with its predicate, under the lock on entry and on return. It blocks while there
     * is neither a task nor a stop, and looks again whenever it is woken, for whatever reason.
     * `woken` is false if the schedule ends first.
     */
    method Wait(schedule: seq<seq<Move>>, k: nat) returns (next: nat, woken: bool)
      requires Recorded() && pc == P.AtRelock && k <= |schedule|
      modifies this`tasksQueue, this`accepted, this`signalled, this`pc, this`path, pool`stop
      ensures k <= next <= |schedule| && Recorded() && old(path) <= path && old(accepted) <= accepted
      ensures woken ==> (tasksQueue != [] || pool.stop) && (pc == P.AtRelock || pc == P.Asleep)
      ensures next == k ==> tasksQueue == old(tasksQueue)
    {
      next, woken := k, true;
      while !(|tasksQueue| != 0 || pool.stop)
        invariant k <= next <= |schedule| && Recorded() && old(path) <= path && old(accepted) <= accepted
        invariant pc == P.AtRelock || pc == P.Asleep
        invariant next == k ==> tasksQueue == old(tasksQueue)
        decreases |schedule| - next
      {
        if next == |schedule| {
          woken := false;
          return;
        }
        Goto(P.Dozing);
        Goto(P.Asleep);
        next := Others(schedule, next);
      }
    }

    /**
     * The first half of the loop body, up to the point at which a task has been taken (`go`), the loop is
     * left, or the schedule has ended (`woken` is false).
     */
    method TakeTask(schedule: seq<seq<Move>>, k: nat) returns (next: nat, woken: bool, go: bool)
      requires Recorded() && pc == P.AtLock && k <= |schedule|
      modifies this`tasksQueue, this`accepted, this`signalled, this`pc, this`left, this`path, pool`stop
      ensures k <= next <= |schedule| && Recorded() && old(path) <= path && old(accepted) <= accepted
      ensures go ==> woken && pc.Running?
      ensures woken && !go ==> pc == P.Leaving && tasksQueue == [] && pool.stop
      ensures go && next == k ==> |tasksQueue| == |old(tasksQueue)| - 1
    {
      hide PR.Moves, IsPath;
      woken := true;
      next := Others(schedule, k);
      if |tasksQueue| == 0 {
        Goto(P.AtRelock);
        next := Others(schedule, next);
        if |tasksQueue| == 0 {
          next, woken := Wait(schedule, next);
          if !woken {
            return next, false, false;
          }
        }
        if pool.stop && tasksQueue == [] {
          Break();
          return next, true, false;
        }
      }
      Pop();
      go := true;
    }

    /** `break`, with the lock held and the queue empty. */
    ghost method Break()
      requires Recorded() && (pc == P.AtRelock || pc == P.Asleep || pc == P.AtLoop) && tasksQueue == [] && pool.stop
      modifies this`pc, this`signalled, this`left, this`path
      ensures Recorded() && old(path) <= path && pc == P.Leaving
    {
      ghost var before := Now();
      pc, signalled, left := P.Leaving, false, |accepted|;
      Record(before);
    }

    /** `front()` and `pop()`, with the lock held. */
    method Pop()
      requires Recorded() && (pc == P.AtLock || pc == P.AtRelock || pc == P.Asleep) && tasksQueue != []
      modifies this`tasksQueue, this`pc, this`signalled, this`path
      ensures Recorded() && old(path) <= path && pc == P.Running(old(tasksQueue[0]))
      ensures tasksQueue == old(tasksQueue[1..])
    {
      ghost var before := Now();
      var f := tasksQueue[0];
      tasksQueue := tasksQueue[1..];
      pc, signalled := P.Running(f), false;
      Record(before);
    }

    /** `f()`, while others go on. */
    method RunTask(schedule: seq<seq<Move>>, k: nat) returns (next: nat)
      requires Recorded() && pc.Running? && k <= |schedule|
      modifies this`tasksQueue, this`accepted, this`signalled, this`pc, this`ran, this`path, pool`stop
      ensures next == (if k < |schedule| then k + 1 else k) && Recorded()
      ensures old(path) <= path && old(accepted) <= accepted
      ensures pc == P.AtLoop && ran == old(ran) + [old(pc).job]
      ensures next == k ==> tasksQueue == old(tasksQueue)
    {
      next := Others(schedule, k);
      ghost var before := Now();
      ran := ran + [pc.job];
      pc := P.AtLoop;
      Record(before);
    }

    /**
     * `work_()`, with `schedule` saying what other threads do at each point where the lock is free; `over`
     * is false if it ends first. The record shows the whole run; the loop is left only with everything
     * accepted so far run, and `thread_over_()` is called once.
     */
    method Work(schedule: seq<seq<Move>>) returns (over: bool)
      requires Recorded() && pc == P.AtLoop
      modifies this`tasksQueue, this`accepted, this`signalled, this`pc, this`ran, this`left, this`path, pool
      ensures Recorded() && old(path) <= path && old(accepted) <= accepted && old(ran) <= ran
      ensures over ==> pc == P.Gone && pool.stop && ran == accepted && pool.stopNum == old(pool.stopNum) + 1
      ensures !over ==> pool.stopNum == old(pool.stopNum)
    {
      hide PR.Moves, IsPath;
      var k, woken, go := 0, true, true;
      while !pool.stop || tasksQueue != []
        invariant k <= |schedule| && pool.stopNum == old(pool.stopNum)
        invariant Recorded() && pc == P.AtLoop && old(path) <= path && old(accepted) <= accepted && old(ran) <= ran
        decreases |schedule| - k, |tasksQueue|
      {
        Goto(P.AtLock);
        k, woken, go := TakeTask(schedule, k);
        if !woken {
          return false;
        }
        if !go {
          break;
        }
        k := RunTask(schedule, k);
      }
      End();
      pool.ThreadOver();
      over := true;
    }

    /** Out of the loop, with nothing queued: what was accepted has run. */
    ghost method End()
      requires Recorded() && (pc == P.AtLoop || pc == P.Leaving) && tasksQueue == [] && pool.stop
      modifies this`pc, this`signalled, this`left, this`path
      ensures Recorded() && old(path) <= path && pc == P.Gone && ran == accepted
    {
      if pc == P.AtLoop {
        Break();
      }
      PathKeepsInv(path, tasksSize, |path| - 1);
      assert accepted == ran + [] + [];
      Goto(P.Gone);
    }
  }

  class ThreadPool {
    const workers: seq<Worker>
    const tasksSize: nat
    const state: StopState
    var idx: nat
    ghost var refused: seq<P.Job>
    ghost var count: P.RoundRobin
    ghost var stopper: P.Stopper

    ghost predicate Valid()
      reads this, workers
    {
      && idx < |workers| == |count.tries|
      && (forall i, j :: 0 <= i < j < |workers| ==> workers[i] != workers[j])
      && forall i :: 0 <= i < |workers| ==> workers[i].tasksSize == tasksSize && workers[i].pool == state
    }

    constructor (workerNum: nat, tasksSize: nat)
      requires workerNum > 0
      ensures Valid() && View() == P.Init(workerNum, tasksSize, 0, false)
      ensures fresh(state) && forall i :: 0 <= i < |workers| ==> fresh(workers[i])
    {
      var s := new StopState();
      var ws := NewWorkers(workerNum, tasksSize, s);
      workers, this.tasksSize, state, idx := ws, tasksSize, s, 0;
      refused, count, stopper := [], P.RoundRobin(0, 0, 0, seq(workerNum, _ => 0)), P.NotStopping;
      new;
      assert Views(workers) == seq(workerNum, _ => P.NewWorker());
    }

    static method NewWorkers(workerNum: nat, tasksSize: nat, s: StopState) returns (ws: seq<Worker>)
      ensures |ws| == workerNum
      ensures forall j :: 0 <= j < |ws| ==> fresh(ws[j]) && ws[j].tasksSize == tasksSize && ws[j].pool == s
      ensures forall j :: 0 <= j < |ws| ==> ws[j].View() == P.NewWorker()
      ensures forall j, k :: 0 <= j < k < |ws| ==> ws[j] != ws[k]
    {
      hide IsPath, Worker.Recorded;
      ws := [];
      for i := 0 to workerNum
        invariant |ws| == i
        invariant forall j :: 0 <= j < i ==> fresh(ws[j]) && ws[j].tasksSize == tasksSize && ws[j].pool == s
        invariant forall j :: 0 <= j < i ==> ws[j].View() == P.NewWorker()
        invariant forall j, k :: 0 <= j < k < i ==> ws[j] != ws[k]
      {
        var w := new Worker(tasksSize, s);
        ws := ws + [w];
      }
    }

    /** No thread is inside `add_task`. */
    ghost function View(): P.Pool
      reads this, workers, state
    {
      P.Pool(Views(workers), tasksSize, idx, state.stop, state.stopNum, stopper, map[], false, false, refused, count)
    }

    /**
     * Nothing once stopped; else the worker at the index gets the task, or refuses it, and the index
     * moves. Undisturbed, as here, that is one delivery (`PoolSystem.UndisturbedIsDelivery`).
     */
    method AddTask(job: P.Job)
      requires Valid()
      modifies this, workers
      ensures Valid()
      ensures View() == if state.stop then old(View()) else P.DeliverTo(old(View()), job)
      ensures !state.stop ==> idx == (old(idx) + 1) % |workers|
      ensures forall i :: 0 <= i < |workers| && (state.stop || i != old(idx)) ==>
        workers[i].tasksQueue == old(workers[i].tasksQueue)
      ensures !state.stop && |old(workers[idx].tasksQueue)| < tasksSize ==>
        workers[old(idx)].tasksQueue == old(workers[idx].tasksQueue) + [job]
      ensures |old(workers[idx].tasksQueue)| >= tasksSize ==>
        workers[old(idx)].tasksQueue == old(workers[idx].tasksQueue)
    {
      if state.stop {
        return;
      }
      var ok := workers[idx].AddTask(job);
      ViewsUpdate(old(Views(workers)), Views(workers), idx, workers[idx].View());
      if !ok {
        refused := refused + [job];
      }
      count := P.NextCount(count, idx, |workers|);
      idx := (idx + 1) % |workers|;
    }

    /**
     * `stop()` up to its wait, as steps of the pool: the flag, the lock, one notification per worker.
     * It returns when the last worker has counted itself out (`StopReturns`).
     */
    method Stop() returns (ghost steps: seq<P.Pool>)
      requires Valid() && stopper == P.NotStopping
      modifies this`stopper, workers, state`stop
      ensures Valid() && state.stop
      ensures PR.Joins(steps, old(View()), View()) && View().stopper == P.Waking(|workers|)
      ensures P.Enabled(View(), P.StopReturns) <==> state.stopNum == |workers|
      ensures forall i :: 0 <= i < |workers| ==>
        && workers[i].tasksQueue == old(workers[i].tasksQueue) && workers[i].pc == old(workers[i].pc)
        && (workers[i].signalled <==> old(workers[i].signalled) || workers[i].pc == P.Asleep)
    {
      hide P.Enabled, P.Apply, P.Notified;
      ghost var first := View();
      steps := [first];
      assert PR.Joins(steps, first, first);
      state.stop, stopper := true, P.StopSet;
      assert Views(workers) == first.workers;
      StopIsSet(first);
      StepsGrow(first, steps, first, P.SetStop, View());
      steps := steps + [View()];
      ghost var before := View();
      stopper := P.Waking(0);
      assert Views(workers) == before.workers;
      LockIsTaken(before);
      StepsGrow(first, steps, before, P.LockStop, View());
      steps := steps + [View()];
      steps := NotifyAll(first, steps);
      MayReturn(View());
      NotifiedFields();
    }

    /** The loop of `stop()`. */
    method NotifyAll(ghost first: P.Pool, ghost before: seq<P.Pool>) returns (ghost steps: seq<P.Pool>)
      requires Valid() && stopper == P.Waking(0) && PR.Joins(before, first, View())
      modifies this`stopper, workers
      ensures Valid() && View().stopper == P.Waking(|workers|) && PR.Joins(steps, first, View())
      ensures View().stopNum == old(View()).stopNum && View().stop == old(View()).stop
      ensures forall i :: 0 <= i < |workers| ==> workers[i].View() == P.Notified(old(workers[i].View()))
    {
      hide P.Enabled, P.Apply, P.Notified, PR.Joins;
      steps := before;
      for i := 0 to |workers|
        invariant Valid() && stopper == P.Waking(i) && PR.Joins(steps, first, View())
        invariant forall j :: 0 <= j < |workers| ==>
          workers[j].View() == if j < i then P.Notified(old(workers[j].View())) else old(workers[j].View())
      {
        ghost var p := View();
        workers[i].NotifyOne();
        stopper := P.Waking(i + 1);
        ViewsUpdate(p.workers, Views(workers), i, workers[i].View());
        WorkerIsWoken(p, i);
        StepsGrow(first, steps, p, P.WakeNext, View());
        steps := steps + [View()];
      }
    }
  }

  lemma NotifiedFields()
    ensures forall w: P.Worker :: var v := P.Notified(w);
      v.queue == w.queue && v.pc == w.pc && (v.signalled <==> w.signalled || w.pc == P.Asleep)
  {
  }

  ghost function Views(workers: seq<Worker>): seq<P.Worker>
    reads workers
  {
    seq(|workers|, i requires 0 <= i < |workers| reads workers => workers[i].View())
  }

  lemma ViewsUpdate(before: seq<P.Worker>, after: seq<P.Worker>, i: nat, w: P.Worker)
    requires |before| == |after| && i < |before| && after[i] == w
    requires forall j :: 0 <= j < |before| && j != i ==> after[j] == before[j]
    ensures after == before[i := w]
  {
  }

  lemma StepsGrow(first: P.Pool, steps: seq<P.Pool>, p: P.Pool, a: P.Action, q: P.Pool)
    requires PR.Joins(steps, first, p) && P.Enabled(p, a) && |p.count.tries| == |p.workers| && q == P.Apply(p, a)
    ensures PR.Joins(steps + [q], first, q)
  {
    hide P.Enabled, P.Apply;
    var t := steps + [q];
    forall i | 0 <= i < |t| - 1 ensures PR.Step(t[i], t[i + 1]) {
      if i < |steps| - 1 {
        assert PR.Step(steps[i], steps[i + 1]);
      }
    }
  }

  lemma StopIsSet(p: P.Pool)
    requires p.stopper == P.NotStopping && p.pending == map[] && |p.count.tries| == |p.workers|
    ensures P.Enabled(p, P.SetStop) && P.Apply(p, P.SetStop) == p.(stop := true, stopper := P.StopSet, late := false)
  {
  }

  lemma LockIsTaken(p: P.Pool)
    requires p.stopper == P.StopSet && |p.count.tries| == |p.workers|
    ensures P.Enabled(p, P.LockStop) && P.Apply(p, P.LockStop) == p.(stopper := P.Waking(0))
  {
  }

  lemma WorkerIsWoken(p: P.Pool, i: nat)
    requires p.stopper == P.Waking(i) && i < |p.workers| == |p.count.tries|
    ensures P.Enabled(p, P.WakeNext)
    ensures P.Apply(p, P.WakeNext)
      == p.(workers := p.workers[i := P.Notified(p.workers[i])], stopper := P.Waking(i + 1))
  {
  }

  lemma MayReturn(p: P.Pool)
    requires p.stopper == P.Waking(|p.workers|)
    ensures P.Enabled(p, P.StopReturns) <==> p.stopNum == |p.workers|
  {
  }
}
