/**
 * A scheduler run over the bounded pool: submissions go step by step to worker queues and can be
 * refused, and a task's steps happen only on the worker that took it.
 */
module EndToEnd {
  import opened Graphs
  import opened Sums
  import E = Execution
  import ER = ExecutionRuns
  import P = PoolSystem
  import PR = PoolRuns
  import PB = PoolBounds

  datatype System = System(exec: E.State, pool: P.Pool)

  /** A step of the scheduler's code, of a submission that a thread is in, or of a worker's loop. */
  datatype Action = Sched(a: E.Action) | Submit(th: int) | Loop(w: nat)

  /** The task, if any, that a scheduler step hands to the executor. */
  datatype Handed = Nothing | Hands(t: nat)

  /** The thread that takes a scheduler step: the task's own, or, as -1, the caller of `execute()`. */
  function ThreadOf(x: E.Action): int {
    match x
    case Scan => -1
    case Return => -1
    case _ => x.t
  }

  ghost function Submits(c: E.Config, s: E.State, a: E.Action): Handed
    requires E.ValidConfig(c) && E.Enabled(c, s, a)
  {
    match a
    case Scan => if s.cond[s.scan] == 0 then Hands(s.scan) else Nothing
    case Notify(t, k) =>
      var v := c.succ[t][s.runs[t][k].next];
      if s.cond[v] == 1 then Hands(v) else Nothing
    case _ => Nothing
  }

  ghost predicate RunsOn(p: P.Pool, w: nat, job: P.Job) {
    w < |p.workers| && p.workers[w].pc == P.Running(job)
  }

  /** The next step of a submission, by how far it is. */
  function NextOf(p: P.Pool, th: int): P.Action
    requires th in p.pending
  {
    match p.pending[th].stage
    case Passed => if p.atomic then P.Deliver(th) else P.Choose(th)
    case Aimed(_) => P.Hand(th)
    case Pushed => P.Load(th)
    case Loaded(_) => P.Store(th)
  }

  /** A thread goes on only when `add_task` has returned to it. */
  ghost predicate Enabled(c: E.Config, s: System, a: Action)
    requires E.ValidConfig(c)
  {
    && |s.pool.count.tries| == |s.pool.workers|
    && match a
      case Sched(x) =>
        && E.Enabled(c, s.exec, x) && !x.Begin? && ThreadOf(x) !in s.pool.pending
        && (ER.IsTaskAction(x) ==> exists w :: RunsOn(s.pool, w, P.Job(x.t, x.k)))
      case Submit(th) => th in s.pool.pending && P.Enabled(s.pool, NextOf(s.pool, th))
      case Loop(w) =>
        && w < |s.pool.workers| && P.CanAdvance(s.pool.workers[w])
        && (s.pool.workers[w].pc.Running? ==>
              var j := s.pool.workers[w].pc.job; E.HasPhase(s.exec, j.task, j.run, E.Done))
        && (Takes(s.pool, w).Running? ==>
              var j := Takes(s.pool, w).job; E.Enabled(c, s.exec, E.Begin(j.task, j.run)))
  }

  /** Where worker `w` is after its next step, if that step takes a job from its queue. */
  ghost function Takes(p: P.Pool, w: nat): P.Pc
    requires w < |p.workers|
  {
    var x := P.Advance(p.workers[w], p.stop);
    if p.workers[w].pc.Running? then P.AtLoop else x.pc
  }

  /** The submission begins: it passes the test of `stop_`, or comes to nothing there. */
  ghost function Begun(p: P.Pool, th: int, job: P.Job): P.Pool {
    if p.stop then p else p.(pending := p.pending[th := P.Submission(job, P.Passed)])
  }

  ghost function Apply(c: E.Config, s: System, a: Action): System
    requires E.ValidConfig(c) && Enabled(c, s, a)
  {
    match a
    case Sched(x) =>
      var h := Submits(c, s.exec, x);
      System(E.Apply(c, s.exec, x),
             if h.Hands? then Begun(s.pool, ThreadOf(x), P.Job(h.t, |s.exec.runs[h.t]|)) else s.pool)
    case Submit(th) => s.(pool := P.Apply(s.pool, NextOf(s.pool, th)))
    case Loop(w) =>
      System(if Takes(s.pool, w).Running? then
               E.Apply(c, s.exec, E.Begin(Takes(s.pool, w).job.task, Takes(s.pool, w).job.run))
             else s.exec,
             P.Apply(s.pool, P.Work(w)))
  }

  ghost predicate Step(c: E.Config, s: System, s': System)
    requires E.ValidConfig(c)
  {
    exists a :: Enabled(c, s, a) && s' == Apply(c, s, a)
  }

  ghost function Init(c: E.Config, o: PR.Setup): System {
    System(E.Init(c), P.Init(o.workers, o.limit, o.start, o.atomic))
  }

  // ----- the invariant that ties the two together -----------------------------------------

  /** Which phase a job must be in, by where its worker has it. */
  ghost predicate InPlace(x: P.Worker, i: int, ph: E.Phase)
    requires 0 <= i < |x.accepted|
  {
    if i < |x.ran| then ph == E.Done
    else if i == |x.ran| && x.pc.Running? then ph != E.Queued
    else ph == E.Queued
  }

  /** Every accepted job is the only submission of its task, and in the right phase. */
  ghost predicate JobsKnown(s: System) {
    forall w, i :: 0 <= w < |s.pool.workers| && 0 <= i < |s.pool.workers[w].accepted| ==>
      var x := s.pool.workers[w];
      var j := x.accepted[i];
      j.run == 0 && j.task < |s.exec.runs| && s.exec.runs[j.task] != [] && InPlace(x, i, s.exec.runs[j.task][0])
  }

  ghost predicate Accepted(p: P.Pool, w: int, i: int, t: nat) {
    0 <= w < |p.workers| && 0 <= i < |p.workers[w].accepted| && p.workers[w].accepted[i].task == t
  }

  /** Thread `th` is on its way to a queue with task `t`. */
  ghost predicate Flying(p: P.Pool, th: int, t: nat) {
    P.Unpushed(p, th) && p.pending[th].job.task == t
  }

  ghost predicate InAir(p: P.Pool, t: nat) {
    exists th :: Flying(p, th, t)
  }

  ghost predicate FlightsKnown(c: E.Config, s: System) {
    && (forall th :: th in s.pool.pending ==> -1 <= th < |c.succ|)
    && forall th :: P.Unpushed(s.pool, th) ==>
      var j := s.pool.pending[th].job; j.run == 0 && j.task < |s.exec.runs| && s.exec.runs[j.task] == [E.Queued]
  }

  ghost predicate NoJobTwice(p: P.Pool) {
    && (forall w, i, v, j, t :: Accepted(p, w, i, t) && Accepted(p, v, j, t) ==> w == v && i == j)
    && (forall th, u, t :: Flying(p, th, t) && Flying(p, u, t) ==> th == u)
    && forall w, i, th, t :: Accepted(p, w, i, t) ==> !Flying(p, th, t)
  }

  ghost predicate NoJobLost(s: System) {
    forall t: nat :: t < |s.exec.runs| && s.exec.runs[t] != [] ==>
      InAir(s.pool, t) || exists w, i :: Accepted(s.pool, w, i, t)
  }

  /** The tasks that have been submitted and have met a queue. */
  ghost function Arrived(s: System): nat -> int {
    (t: nat) => if t < |s.exec.runs| && s.exec.runs[t] != [] && !InAir(s.pool, t) then 1 else 0
  }

  ghost predicate PoolIdle(p: P.Pool) {
    !p.stop && p.stopper == P.NotStopping && !p.late && p.refused == []
  }

  /** Tasks and jobs match, and every accepted job counts as one delivery. */
  ghost predicate Tied(c: E.Config, s: System) {
    && P.Inv(s.pool) && PoolIdle(s.pool)
    && |s.exec.runs| == |c.succ| && (forall t :: 0 <= t < |c.succ| ==> |s.exec.runs[t]| <= 1)
    && JobsKnown(s) && FlightsKnown(c, s) && NoJobTwice(s.pool) && NoJobLost(s)
    && P.Delivered(s.pool) == SumTo(Arrived(s), |c.succ|)
  }

  ghost predicate Inv(c: E.Config, s: System) {
    E.Inv(c, s.exec) && Tied(c, s)
  }

  ghost predicate Room(c: E.Config, p: P.Pool) {
    |c.succ| <= PB.Capacity(|p.workers|, p.limit, p.atomic)
  }

  /** What the run is started with: an acyclic graph in a safe order, and a pool with workers. */
  ghost predicate Sound(c: E.Config, o: PR.Setup) {
    E.ValidConfig(c) && ER.SeedingSafe(c) && Acyclic(E.GraphOf(c)) && o.start < o.workers
  }

  /** And no more tasks than the pool is sure to take. */
  ghost predicate Fits(c: E.Config, o: PR.Setup) {
    Sound(c, o) && |c.succ| <= PB.Capacity(o.workers, o.limit, o.atomic)
  }

  lemma InitHolds(c: E.Config, o: PR.Setup)
    requires Sound(c, o)
    ensures Inv(c, Init(c, o))
  {
    var s := Init(c, o);
    E.InitHolds(c);
    P.InitHolds(o.workers, o.limit, o.start, o.atomic);
    SumConstant(Arrived(s), |c.succ|, 0);
  }

  // ----- scheduler steps ------------------------------------------------------------------

  /** A step of a task that is running leaves the submissions of all other tasks as they are. */
  lemma PhaseStepKeeps(c: E.Config, s: System, t: nat, w: nat, ph: E.Phase, s': System)
    requires Tied(c, s) && t < |c.succ| && s.exec.runs[t] != [] && RunsOn(s.pool, w, P.Job(t, 0))
    requires ph != E.Queued && s'.pool == s.pool && s'.exec.runs == s.exec.runs[t := [ph]]
    ensures Tied(c, s')
  {
    RunningIsAccepted(c, s, t, w);
    hide P.Inv, P.Delivered;
    PhaseKeepsJobs(c, s, t, w, ph, s');
    SumSame(Arrived(s), Arrived(s'), |c.succ|);
  }

  lemma RunningIsAccepted(c: E.Config, s: System, t: nat, w: nat)
    requires Tied(c, s) && RunsOn(s.pool, w, P.Job(t, 0))
    ensures var x := s.pool.workers[w];
      && |x.ran| < |x.accepted| && x.accepted[|x.ran|] == P.Job(t, 0)
      && Accepted(s.pool, w, |x.ran|, t) && !InAir(s.pool, t)
  {
    hide P.RoundInv, P.CountInv, P.PendingInv, P.StopInv, P.Delivered, JobsKnown, NoJobLost, FlightsKnown;
    var x := s.pool.workers[w];
    assert x.accepted == x.ran + [P.Job(t, 0)] + x.queue;
    assert Accepted(s.pool, w, |x.ran|, t);
  }

  lemma PhaseKeepsJobs(c: E.Config, s: System, t: nat, w: nat, ph: E.Phase, s': System)
    requires JobsKnown(s) && FlightsKnown(c, s) && NoJobTwice(s.pool) && NoJobLost(s)
    requires t < |s.exec.runs| == |c.succ| && s.exec.runs[t] != []
    requires RunsOn(s.pool, w, P.Job(t, 0)) && !InAir(s.pool, t)
    requires var x := s.pool.workers[w]; |x.ran| < |x.accepted| && Accepted(s.pool, w, |x.ran|, t)
    requires ph != E.Queued && s'.pool == s.pool && s'.exec.runs == s.exec.runs[t := [ph]]
    ensures JobsKnown(s') && FlightsKnown(c, s') && NoJobLost(s')
  {
    forall v, i | 0 <= v < |s.pool.workers| && 0 <= i < |s.pool.workers[v].accepted|
      ensures var j := s.pool.workers[v].accepted[i];
        j.run == 0 && j.task < |s'.exec.runs| && s'.exec.runs[j.task] != []
        && InPlace(s.pool.workers[v], i, s'.exec.runs[j.task][0])
    {
      var j := s.pool.workers[v].accepted[i];
      assert Accepted(s.pool, v, i, j.task);
    }
    forall th | P.Unpushed(s.pool, th)
      ensures var j := s.pool.pending[th].job;
        j.run == 0 && j.task < |s'.exec.runs| && s'.exec.runs[j.task] == [E.Queued]
    {
      assert Flying(s.pool, th, s.pool.pending[th].job.task);
    }
    forall u: nat | u < |s'.exec.runs| && s'.exec.runs[u] != []
      ensures InAir(s'.pool, u) || exists w, i :: Accepted(s'.pool, w, i, u)
    {
      assert s.exec.runs[u] != [];
    }
  }

  /** A task is submitted for the first time: it is in the air. */
  lemma SubmitStepKeeps(c: E.Config, s: System, v: nat, th: int, s': System)
    requires Tied(c, s) && v < |c.succ| && s.exec.runs[v] == [] && th !in s.pool.pending && -1 <= th < |c.succ|
    requires s'.exec.runs == s.exec.runs[v := [E.Queued]] && s'.pool == Begun(s.pool, th, P.Job(v, 0))
    ensures Tied(c, s')
  {
    assert |s.pool.count.tries| == |s.pool.workers|;
    assert s'.pool == P.Apply(s.pool, P.Admit(th, P.Job(v, 0)));
    P.StepKeepsInv(s.pool, P.Admit(th, P.Job(v, 0)));
    PB.DeliveredGrows(s.pool, P.Admit(th, P.Job(v, 0)));
    hide P.Inv, P.Delivered;
    BegunFlies(s.pool, th, P.Job(v, 0));
    SubmitKeepsJobs(c, s, v, th, s');
    forall t: nat | t < |c.succ| ensures Arrived(s)(t) == Arrived(s')(t) {
      InAirMoves(s.pool, s'.pool, th, v, t);
    }
    SumSame(Arrived(s), Arrived(s'), |c.succ|);
  }

  lemma BegunFlies(p: P.Pool, th: int, job: P.Job)
    requires !p.stop && th !in p.pending
    ensures var q := Begun(p, th, job);
      && q.workers == p.workers
      && (forall u, t: nat :: Flying(q, u, t) <==> Flying(p, u, t) || (u == th && t == job.task))
      && (forall u :: P.Unpushed(q, u) <==> P.Unpushed(p, u) || u == th)
      && forall u :: P.Unpushed(q, u) && u != th ==> q.pending[u] == p.pending[u]
  {
  }

  lemma InAirMoves(p: P.Pool, q: P.Pool, th: int, v: nat, t: nat)
    requires forall u, t: nat :: Flying(q, u, t) <==> Flying(p, u, t) || (u == th && t == v)
    ensures InAir(q, t) <==> InAir(p, t) || t == v
  {
    if t == v {
      assert Flying(q, th, t);
    }
    if u :| Flying(p, u, t) {
      assert Flying(q, u, t);
    }
    if u :| Flying(q, u, t) {
      assert Flying(p, u, t) || t == v;
    }
  }

  lemma SubmitKeepsJobs(c: E.Config, s: System, v: nat, th: int, s': System)
    requires JobsKnown(s) && FlightsKnown(c, s) && NoJobTwice(s.pool) && NoJobLost(s)
    requires v < |s.exec.runs| == |c.succ| && s.exec.runs[v] == []
    requires -1 <= th < |c.succ| && th !in s.pool.pending && !s.pool.stop
    requires s'.exec.runs == s.exec.runs[v := [E.Queued]] && s'.pool == Begun(s.pool, th, P.Job(v, 0))
    ensures JobsKnown(s') && FlightsKnown(c, s') && NoJobTwice(s'.pool) && NoJobLost(s')
  {
    var p, p' := s.pool, s'.pool;
    BegunFlies(p, th, P.Job(v, 0));
    forall w, i, t: nat ensures Accepted(p', w, i, t) <==> Accepted(p, w, i, t) {
    }
    forall w, i ensures !Accepted(p, w, i, v) {
    }
    forall u ensures !Flying(p, u, v) {
    }
    forall t: nat | t < |s'.exec.runs| && s'.exec.runs[t] != []
      ensures InAir(p', t) || exists w, i :: Accepted(p', w, i, t)
    {
      InAirMoves(p, p', th, v, t);
      if t != v && !InAir(p, t) {
        var w, i :| Accepted(p, w, i, t);
        assert Accepted(p', w, i, t);
      }
    }
  }

  lemma SameRuns(c: E.Config, s: System, s': System)
    requires Tied(c, s) && s'.pool == s.pool && s'.exec.runs == s.exec.runs
    ensures Tied(c, s')
  {
    hide P.Inv, P.Delivered;
    SumSame(Arrived(s), Arrived(s'), |c.succ|);
  }

  lemma ScanStepKeeps(c: E.Config, s: System)
    requires E.ValidConfig(c) && ER.SeedingSafe(c) && Inv(c, s) && Enabled(c, s, Sched(E.Scan))
    ensures Tied(c, Apply(c, s, Sched(E.Scan)))
  {
    hide P.Inv, P.Delivered, JobsKnown, NoJobTwice, NoJobLost, FlightsKnown, Begun;
    var s' := Apply(c, s, Sched(E.Scan));
    var t := s.exec.scan;
    if s.exec.cond[t] == 0 {
      ER.ScanFindsRoots(c, s.exec);
      assert s.exec.runs[t] == [] && s.exec.runs[t] + [E.Queued] == [E.Queued];
      SubmitStepKeeps(c, s, t, -1, s');
    } else {
      SameRuns(c, s, s');
    }
  }

  lemma NotifyEffect(c: E.Config, s: E.State, t: nat)
    requires E.ValidConfig(c) && E.Inv(c, s) && E.Enabled(c, s, E.Notify(t, 0))
    ensures var i := s.runs[t][0].next;
      var v := c.succ[t][i];
      var mid := s.runs[t := [E.Notifying(i + 1)]];
      && v != t && s.runs[v] == []
      && E.Apply(c, s, E.Notify(t, 0)).runs == if s.cond[v] == 1 then mid[v := [E.Queued]] else mid
  {
    hide E.Counters, E.LogInv;
    var i := s.runs[t][0].next;
    ER.NotifyTargetIsNew(c, s, t);
    assert s.runs[t][0 := E.Notifying(i + 1)] == [E.Notifying(i + 1)];
    assert s.runs[c.succ[t][i]] + [E.Queued] == [E.Queued];
  }

  lemma NotifyStepKeeps(c: E.Config, s: System, t: nat)
    requires E.ValidConfig(c) && Inv(c, s) && Enabled(c, s, Sched(E.Notify(t, 0)))
    ensures Tied(c, Apply(c, s, Sched(E.Notify(t, 0))))
  {
    hide P.Inv, P.Delivered, JobsKnown, NoJobTwice, NoJobLost, FlightsKnown, Begun, E.Apply, E.CountInv, E.LogInv;
    var s' := Apply(c, s, Sched(E.Notify(t, 0)));
    var i := s.exec.runs[t][0].next;
    var v := c.succ[t][i];
    var w :| RunsOn(s.pool, w, P.Job(t, 0));
    NotifyEffect(c, s.exec, t);
    var mid := System(s.exec.(runs := s.exec.runs[t := [E.Notifying(i + 1)]]), s.pool);
    PhaseStepKeeps(c, s, t, w, E.Notifying(i + 1), mid);
    if s.exec.cond[v] == 1 {
      SubmitStepKeeps(c, mid, v, t, s');
    } else {
      SameRuns(c, mid, s');
    }
  }

  lemma EndOrCountKeeps(c: E.Config, s: System, x: E.Action)
    requires E.ValidConfig(c) && Inv(c, s) && Enabled(c, s, Sched(x)) && (x.EndWork? || x.Count?)
    ensures Tied(c, Apply(c, s, Sched(x)))
  {
    hide P.Inv, P.Delivered, JobsKnown, NoJobTwice, NoJobLost, FlightsKnown, E.CountInv, E.LogInv;
    var w :| RunsOn(s.pool, w, P.Job(x.t, x.k));
    var ph := if x.EndWork? then E.Notifying(0) else E.Done;
    assert x.k == 0 && s.exec.runs[x.t][0 := ph] == [ph];
    PhaseStepKeeps(c, s, x.t, w, ph, Apply(c, s, Sched(x)));
  }

  lemma SchedStepKeeps(c: E.Config, s: System, x: E.Action)
    requires E.ValidConfig(c) && ER.SeedingSafe(c) && Inv(c, s) && Enabled(c, s, Sched(x))
    ensures Tied(c, Apply(c, s, Sched(x)))
  {
    hide P.Inv, P.Delivered, JobsKnown, NoJobTwice, NoJobLost, FlightsKnown, E.CountInv, E.LogInv;
    match x
    case Scan => ScanStepKeeps(c, s);
    case Notify(t, k) =>
      assert k == 0;
      NotifyStepKeeps(c, s, t);
    case Return => SameRuns(c, s, Apply(c, s, Sched(x)));
    case EndWork(t, k) => EndOrCountKeeps(c, s, x);
    case Count(t, k) => EndOrCountKeeps(c, s, x);
  }

  // ----- steps of a submission ------------------------------------------------------------

  /** One task is still in the air, so fewer than all have been delivered. */
  lemma FewerDelivered(c: E.Config, s: System, v: nat)
    requires Tied(c, s) && v < |c.succ| && InAir(s.pool, v)
    ensures P.Delivered(s.pool) < |c.succ|
  {
    hide P.Inv, P.Delivered, JobsKnown, NoJobTwice, NoJobLost, FlightsKnown;
    var all: nat -> int := (t: nat) => if t == v then 0 else 1;
    SumConstant((t: nat) => 1, |c.succ|, 1);
    SumUpdate((t: nat) => 1, all, |c.succ|, v);
    SumDominated(Arrived(s), all, |c.succ|);
  }

  lemma {:induction false} SumDominated(f: nat -> int, g: nat -> int, n: nat)
    requires forall i: nat :: i < n ==> f(i) <= g(i)
    ensures SumTo(f, n) <= SumTo(g, n)
  {
    if n > 0 {
      SumDominated(f, g, n - 1);
    }
  }

  /** What a push does to jobs and flights, if there is room. */
  ghost predicate Lands(p: P.Pool, q: P.Pool, th: int, w: nat, job: P.Job) {
    && w < |p.workers| && q.workers == p.workers[w := P.Push(p.workers[w], job, p.limit)]
    && q.pending.Keys <= p.pending.Keys && q.refused == p.refused
    && q.stop == p.stop && q.stopper == p.stopper && q.late == p.late
    && (forall u :: P.Unpushed(q, u) <==> P.Unpushed(p, u) && u != th)
    && forall u :: P.Unpushed(q, u) ==> q.pending[u] == p.pending[u]
  }

  lemma PushLands(p: P.Pool, th: int) returns (w: nat)
    requires P.Inv(p) && P.Unpushed(p, th) && PB.IsPush(NextOf(p, th)) && P.Enabled(p, NextOf(p, th))
    requires |p.count.tries| == |p.workers| && P.Apply(p, NextOf(p, th)).refused == p.refused
    ensures Lands(p, P.Apply(p, NextOf(p, th)), th, w, p.pending[th].job)
    ensures |p.workers[w].queue| < p.limit && p.workers[w].pc != P.Dozing
  {
    var a := NextOf(p, th);
    w := if a.Deliver? then p.idx else p.pending[th].stage.w;
    hide P.Inv, P.Push, P.NextCount, P.Delivered;
    PushFields(p, th, w);
  }

  lemma PushFields(p: P.Pool, th: int, w: nat)
    requires P.Unpushed(p, th) && PB.IsPush(NextOf(p, th))
    requires P.Enabled(p, NextOf(p, th)) && |p.count.tries| == |p.workers|
    requires w == (if p.pending[th].stage.Aimed? then p.pending[th].stage.w else p.idx)
    requires P.Apply(p, NextOf(p, th)).refused == p.refused
    ensures |p.workers[w].queue| < p.limit && Lands(p, P.Apply(p, NextOf(p, th)), th, w, p.pending[th].job)
  {
    hide P.Push, P.NextCount;
  }

  /** The task in the air meets its queue: accepted there, in place, and counted. */
  lemma PushStepKeeps(c: E.Config, s: System, th: int)
    requires E.ValidConfig(c) && Tied(c, s) && Enabled(c, s, Submit(th)) && P.Unpushed(s.pool, th)
    requires PB.IsPush(NextOf(s.pool, th)) && Apply(c, s, Submit(th)).pool.refused == []
    ensures Tied(c, Apply(c, s, Submit(th)))
  {
    var a, v := NextOf(s.pool, th), s.pool.pending[th].job.task;
    var s' := Apply(c, s, Submit(th));
    assert Flying(s.pool, th, v);
    var w := PushLands(s.pool, th);
    P.StepKeepsInv(s.pool, a);
    PB.DeliveredGrows(s.pool, a);
    assert P.WorkerInv(s.pool.workers[w], s.pool.limit);
    hide P.Inv, P.Delivered, P.Apply;
    LandKeepsJobs(c, s, th, w, s');
    SumUpdate(Arrived(s), Arrived(s'), |c.succ|, v);
  }

  lemma LandKeepsJobs(c: E.Config, s: System, th: int, w: nat, s': System)
    requires JobsKnown(s) && FlightsKnown(c, s) && NoJobTwice(s.pool) && NoJobLost(s)
    requires |s.exec.runs| == |c.succ| && P.Unpushed(s.pool, th) && s'.exec == s.exec
    requires Lands(s.pool, s'.pool, th, w, s.pool.pending[th].job)
    requires |s.pool.workers[w].queue| < s.pool.limit && P.WorkerInv(s.pool.workers[w], s.pool.limit)
    ensures JobsKnown(s') && FlightsKnown(c, s') && NoJobTwice(s'.pool) && NoJobLost(s')
    ensures var v := s.pool.pending[th].job.task;
      !InAir(s'.pool, v) && InAir(s.pool, v) && forall t: nat :: t != v ==> (InAir(s'.pool, t) <==> InAir(s.pool, t))
  {
    var p, p', job := s.pool, s'.pool, s.pool.pending[th].job;
    var v, n := job.task, |p.workers[w].accepted|;
    assert Flying(p, th, v);
    forall x, i, t: nat ensures Accepted(p', x, i, t) <==> Accepted(p, x, i, t) || (x == w && i == n && t == v) {
    }
    forall u, t: nat ensures Flying(p', u, t) <==> Flying(p, u, t) && u != th {
    }
    forall t: nat | t != v ensures InAir(p', t) <==> InAir(p, t) {
      if u :| Flying(p, u, t) {
        assert Flying(p', u, t);
      }
    }
    hide P.Unpushed;
    LandKeepsPlaces(s, w, n, job, s');
    forall t: nat | t < |s'.exec.runs| && s'.exec.runs[t] != []
      ensures InAir(p', t) || exists x, i :: Accepted(p', x, i, t)
    {
      if t == v {
        assert Accepted(p', w, n, v);
      } else if !InAir(p, t) {
        var x, i :| Accepted(p, x, i, t);
        assert Accepted(p', x, i, t);
      }
    }
  }

  lemma LandKeepsPlaces(s: System, w: nat, n: nat, job: P.Job, s': System)
    requires JobsKnown(s) && s'.exec == s.exec && w < |s.pool.workers| && n == |s.pool.workers[w].accepted|
    requires s'.pool.workers == s.pool.workers[w := P.Push(s.pool.workers[w], job, s.pool.limit)]
    requires |s.pool.workers[w].queue| < s.pool.limit && P.WorkerInv(s.pool.workers[w], s.pool.limit)
    requires job.run == 0 && job.task < |s.exec.runs| && s.exec.runs[job.task] == [E.Queued]
    ensures JobsKnown(s')
  {
    var p, p' := s.pool, s'.pool;
    var x := p.workers[w];
    assert n == |x.ran| + |P.InFlight(x)| + |x.queue|;
    forall v, i | 0 <= v < |p'.workers| && 0 <= i < |p'.workers[v].accepted|
      ensures var x := p'.workers[v];
        var j := x.accepted[i];
        j.run == 0 && j.task < |s'.exec.runs| && s'.exec.runs[j.task] != [] && InPlace(x, i, s'.exec.runs[j.task][0])
    {
      if !(v == w && i == n) {
        assert p.workers[v].accepted[i] == p'.workers[v].accepted[i];
      }
    }
  }

  /** The steps of a submission before and after its push move nothing but the submission. */
  lemma OtherSubmitStepKeeps(c: E.Config, s: System, th: int)
    requires E.ValidConfig(c) && Tied(c, s) && Enabled(c, s, Submit(th)) && !PB.IsPush(NextOf(s.pool, th))
    ensures Tied(c, Apply(c, s, Submit(th)))
  {
    var a := NextOf(s.pool, th);
    var s' := Apply(c, s, Submit(th));
    P.StepKeepsInv(s.pool, a);
    PB.DeliveredGrows(s.pool, a);
    hide P.Inv, P.Delivered;
    QuietStep(s.pool, th);
    hide P.Apply;
    QuietKeeps(c, s, s');
  }

  ghost predicate Quiet(p: P.Pool, q: P.Pool) {
    && q.workers == p.workers && q.pending.Keys <= p.pending.Keys
    && q.refused == p.refused && q.stop == p.stop && q.stopper == p.stopper && q.late == p.late
    && (forall u :: P.Unpushed(q, u) <==> P.Unpushed(p, u))
    && forall u :: P.Unpushed(q, u) ==> q.pending[u].job == p.pending[u].job
  }

  lemma QuietStep(p: P.Pool, th: int)
    requires th in p.pending && P.Enabled(p, NextOf(p, th))
    requires |p.count.tries| == |p.workers| && !PB.IsPush(NextOf(p, th))
    ensures Quiet(p, P.Apply(p, NextOf(p, th)))
  {
  }

  lemma QuietKeeps(c: E.Config, s: System, s': System)
    requires Tied(c, s) && Quiet(s.pool, s'.pool) && s'.exec == s.exec
    requires P.Inv(s'.pool) && P.Delivered(s'.pool) == P.Delivered(s.pool)
    ensures Tied(c, s')
  {
    hide P.Inv, P.Delivered;
    var p, p' := s.pool, s'.pool;
    assert forall w, i, t: nat :: Accepted(p', w, i, t) <==> Accepted(p, w, i, t);
    assert forall u, t: nat :: Flying(p', u, t) <==> Flying(p, u, t);
    hide P.Unpushed;
    forall t: nat ensures InAir(p', t) <==> InAir(p, t) {
      if u :| Flying(p, u, t) {
        assert Flying(p', u, t);
      }
    }
    SumSame(Arrived(s), Arrived(s'), |c.succ|);
    assert NoJobLost(s') by {
      forall t: nat | t < |s'.exec.runs| && s'.exec.runs[t] != []
        ensures InAir(p', t) || exists x, i :: Accepted(p', x, i, t)
      {
        if !InAir(p, t) {
          var x, i :| Accepted(p, x, i, t);
          assert Accepted(p', x, i, t);
        }
      }
    }
  }

  lemma SubmissionKeeps(c: E.Config, s: System, th: int)
    requires E.ValidConfig(c) && Tied(c, s) && Enabled(c, s, Submit(th))
    requires Apply(c, s, Submit(th)).pool.refused == []
    ensures Tied(c, Apply(c, s, Submit(th)))
  {
    if PB.IsPush(NextOf(s.pool, th)) {
      assert P.Unpushed(s.pool, th);
      hide Tied, Apply;
      PushStepKeeps(c, s, th);
    } else {
      hide Tied, Apply;
      OtherSubmitStepKeeps(c, s, th);
    }
  }

  // ----- worker steps ---------------------------------------------------------------------

  ghost predicate KeepsPool(p: P.Pool, w: nat, p': P.Pool)
    requires w < |p.workers|
  {
    p' == P.SetWorker(p, w, P.Advance(p.workers[w], p.stop))
  }

  /** A worker's step leaves every queue's history, and so every count, alone. */
  lemma LoopKeepsPool(c: E.Config, s: System, w: nat, p': P.Pool)
    requires Tied(c, s) && w < |s.pool.workers| && P.CanAdvance(s.pool.workers[w]) && KeepsPool(s.pool, w, p')
    ensures P.Inv(p') && PoolIdle(p') && P.Delivered(p') == P.Delivered(s.pool) && NoJobTwice(p')
    ensures forall v, i, t: nat :: Accepted(p', v, i, t) <==> Accepted(s.pool, v, i, t)
    ensures forall th, t: nat :: Flying(p', th, t) <==> Flying(s.pool, th, t)
    ensures forall t: nat :: InAir(p', t) <==> InAir(s.pool, t)
    ensures p'.workers[w].accepted == s.pool.workers[w].accepted
  {
    var p := s.pool;
    NobodyLeaves(p, w);
    P.WorkerStepKeepsInv(p, w);
    P.AdvanceKeeps(p.workers[w], p.limit, p.stop, p.late);
    hide P.WorkerInv, P.StopInv, P.RoundInv, P.CountInv, P.PendingInv, P.Advance, JobsKnown, NoJobLost, FlightsKnown;
    assert forall v, i, t: nat :: Accepted(p', v, i, t) <==> Accepted(p, v, i, t);
    assert forall th, t: nat :: Flying(p', th, t) <==> Flying(p, th, t);
    hide P.Unpushed;
    forall t: nat ensures InAir(p', t) <==> InAir(p, t) {
      if u :| Flying(p, u, t) {
        assert Flying(p', u, t);
      }
    }
  }

  /** The new state's flights and places, put together. */
  lemma LoopIsTied(c: E.Config, s: System, w: nat, s': System)
    requires Tied(c, s) && w < |s.pool.workers| && P.CanAdvance(s.pool.workers[w]) && KeepsPool(s.pool, w, s'.pool)
    requires JobsKnown(s') && |s'.exec.runs| == |s.exec.runs|
    requires forall t: nat :: t < |s.exec.runs| ==>
      && |s'.exec.runs[t]| <= 1
      && (s'.exec.runs[t] == s.exec.runs[t] || (s.exec.runs[t] != [] && s'.exec.runs[t] != [] && !InAir(s.pool, t)))
    ensures Tied(c, s')
  {
    LoopKeepsPool(c, s, w, s'.pool);
    hide P.Inv, P.Delivered, P.Advance, JobsKnown;
    SumSame(Arrived(s), Arrived(s'), |c.succ|);
    assert FlightsKnown(c, s') by {
      forall th | P.Unpushed(s'.pool, th)
        ensures var j := s'.pool.pending[th].job;
          j.run == 0 && j.task < |s'.exec.runs| && s'.exec.runs[j.task] == [E.Queued]
      {
        assert P.Unpushed(s.pool, th) && Flying(s.pool, th, s.pool.pending[th].job.task);
      }
    }
    forall t: nat | t < |s'.exec.runs| && s'.exec.runs[t] != []
      ensures InAir(s'.pool, t) || exists x, i :: Accepted(s'.pool, x, i, t)
    {
      if !InAir(s.pool, t) {
        var x, i :| Accepted(s.pool, x, i, t);
        assert Accepted(s'.pool, x, i, t);
      }
    }
  }

  lemma NobodyLeaves(p: P.Pool, w: nat)
    requires P.Inv(p) && !p.stop && w < |p.workers|
    ensures !P.HasLeft(p.workers[w])
  {
    assert P.StopInv(p.workers[w], p.stop, p.late);
  }

  /** A worker that takes nothing leaves every job in place; the one it finishes is done. */
  lemma LoopKeepsJobs(s: System, w: nat, s': System)
    requires JobsKnown(s) && w < |s.pool.workers| == |s'.pool.workers| && s'.exec == s.exec
    requires forall v :: 0 <= v < |s.pool.workers| && v != w ==> s'.pool.workers[v] == s.pool.workers[v]
    requires var x, y := s.pool.workers[w], s'.pool.workers[w];
      && y.accepted == x.accepted && !y.pc.Running?
      && if x.pc.Running? then
           && y.ran == x.ran + [x.pc.job] && |x.ran| < |x.accepted| && x.accepted[|x.ran|] == x.pc.job
           && E.HasPhase(s.exec, x.pc.job.task, 0, E.Done)
         else y.ran == x.ran
    ensures JobsKnown(s')
  {
    forall v, i | 0 <= v < |s'.pool.workers| && 0 <= i < |s'.pool.workers[v].accepted|
      ensures var j := s'.pool.workers[v].accepted[i];
        j.run == 0 && j.task < |s'.exec.runs| && s'.exec.runs[j.task] != []
        && InPlace(s'.pool.workers[v], i, s'.exec.runs[j.task][0])
    {
      var j := s.pool.workers[v].accepted[i];
      assert InPlace(s.pool.workers[v], i, s.exec.runs[j.task][0]);
    }
  }

  /** A step that neither takes nor finishes a job. */
  lemma IdleStepKeeps(c: E.Config, s: System, w: nat, s': System)
    requires Tied(c, s) && w < |s.pool.workers| && P.CanAdvance(s.pool.workers[w])
    requires KeepsPool(s.pool, w, s'.pool) && s'.exec == s.exec
    requires !s.pool.workers[w].pc.Running? && !Takes(s.pool, w).Running?
    ensures Tied(c, s')
  {
    NobodyLeaves(s.pool, w);
    assert s'.pool.workers[w].ran == s.pool.workers[w].ran && s'.pool.workers[w].accepted == s.pool.workers[w].accepted;
    hide P.Inv, P.Delivered, P.Advance, NoJobTwice, NoJobLost, FlightsKnown;
    LoopKeepsJobs(s, w, s');
    LoopIsTied(c, s, w, s');
  }

  lemma FinishedJob(c: E.Config, s: System, w: nat)
    requires Tied(c, s) && w < |s.pool.workers| && s.pool.workers[w].pc.Running?
    ensures var x := s.pool.workers[w];
      |x.ran| < |x.accepted| && x.accepted[|x.ran|] == x.pc.job && x.pc.job.run == 0
  {
    hide P.RoundInv, P.CountInv, P.PendingInv, P.StopInv, P.Delivered, NoJobTwice, NoJobLost, FlightsKnown;
    var x := s.pool.workers[w];
    assert x.accepted == x.ran + [x.pc.job] + x.queue;
  }

  /** The worker returns from a task that has been counted. */
  lemma FinishStepKeeps(c: E.Config, s: System, w: nat, s': System)
    requires Tied(c, s) && w < |s.pool.workers| && s.pool.workers[w].pc.Running?
    requires var j := s.pool.workers[w].pc.job; E.HasPhase(s.exec, j.task, j.run, E.Done)
    requires KeepsPool(s.pool, w, s'.pool) && s'.exec == s.exec
    ensures Tied(c, s')
  {
    hide P.Inv, P.Delivered, JobsKnown, NoJobTwice, NoJobLost, FlightsKnown;
    FinishedJob(c, s, w);
    LoopKeepsJobs(s, w, s');
    LoopIsTied(c, s, w, s');
  }

  /** The front of the queue is the next job the worker accepted and has not begun. */
  lemma TakenJob(c: E.Config, s: System, w: nat)
    requires Tied(c, s) && w < |s.pool.workers| && Takes(s.pool, w).Running?
    ensures var x, y := s.pool.workers[w], P.Advance(s.pool.workers[w], s.pool.stop);
      && !x.pc.Running? && x.queue != [] && y.ran == x.ran
      && |x.ran| < |x.accepted| && x.accepted[|x.ran|] == x.queue[0] == Takes(s.pool, w).job
      && Takes(s.pool, w).job.run == 0
      && E.HasPhase(s.exec, Takes(s.pool, w).job.task, 0, E.Queued)
  {
    hide P.RoundInv, P.CountInv, P.PendingInv, P.StopInv, P.Delivered, NoJobTwice, NoJobLost, FlightsKnown;
    var x := s.pool.workers[w];
    assert x.accepted == x.ran + [] + x.queue;
    assert x.accepted[|x.ran|] == x.queue[0];
  }

  lemma TakeKeepsJobs(s: System, w: nat, t: nat, s': System)
    requires JobsKnown(s) && NoJobTwice(s.pool) && w < |s.pool.workers| == |s'.pool.workers| && t < |s.exec.runs|
    requires forall v :: 0 <= v < |s.pool.workers| && v != w ==> s'.pool.workers[v] == s.pool.workers[v]
    requires var x, y := s.pool.workers[w], s'.pool.workers[w];
      !x.pc.Running? && y.pc.Running? && y.ran == x.ran && y.accepted == x.accepted
      && |x.ran| < |x.accepted| && x.accepted[|x.ran|] == P.Job(t, 0)
    requires s'.exec.runs == s.exec.runs[t := [E.Working]]
    ensures JobsKnown(s')
  {
    assert Accepted(s.pool, w, |s.pool.workers[w].ran|, t);
    forall v, i | 0 <= v < |s'.pool.workers| && 0 <= i < |s'.pool.workers[v].accepted|
      ensures var j := s'.pool.workers[v].accepted[i];
        j.run == 0 && j.task < |s'.exec.runs| && s'.exec.runs[j.task] != []
        && InPlace(s'.pool.workers[v], i, s'.exec.runs[j.task][0])
    {
      var j := s'.pool.workers[v].accepted[i];
      assert s.pool.workers[v].accepted[i] == j;
      assert Accepted(s.pool, v, i, j.task);
    }
  }

  /** The worker takes a job and begins its task's work. */
  lemma TakeStepKeeps(c: E.Config, s: System, w: nat, t: nat, s': System)
    requires Tied(c, s) && w < |s.pool.workers| && P.CanAdvance(s.pool.workers[w])
    requires Takes(s.pool, w) == P.Running(P.Job(t, 0)) && t < |c.succ|
    requires KeepsPool(s.pool, w, s'.pool) && s'.exec.runs == s.exec.runs[t := [E.Working]]
    ensures Tied(c, s')
  {
    TakenJob(c, s, w);
    LoopKeepsPool(c, s, w, s'.pool);
    assert Accepted(s.pool, w, |s.pool.workers[w].ran|, t);
    assert !InAir(s.pool, t);
    hide P.Inv, P.Delivered, P.Advance, NoJobLost, FlightsKnown;
    TakeKeepsJobs(s, w, t, s');
    hide NoJobTwice, JobsKnown;
    LoopIsTied(c, s, w, s');
  }

  lemma LoopStepKeeps(c: E.Config, s: System, w: nat)
    requires E.ValidConfig(c) && Inv(c, s) && Enabled(c, s, Loop(w))
    ensures Tied(c, Apply(c, s, Loop(w)))
  {
    NobodyLeaves(s.pool, w);
    hide P.Inv, P.Delivered, P.Advance, JobsKnown, NoJobTwice, NoJobLost, FlightsKnown, E.Inv;
    var s' := Apply(c, s, Loop(w));
    assert KeepsPool(s.pool, w, s'.pool);
    if s.pool.workers[w].pc.Running? {
      FinishStepKeeps(c, s, w, s');
    } else if Takes(s.pool, w).Running? {
      TakenJob(c, s, w);
      var t := Takes(s.pool, w).job.task;
      assert s.exec.runs[t][0 := E.Working] == [E.Working];
      TakeStepKeeps(c, s, w, t, s');
    } else {
      IdleStepKeeps(c, s, w, s');
    }
  }

  /** Every step that refuses nothing keeps the whole invariant, in which nothing has been refused. */
  lemma StepKeepsInv(c: E.Config, s: System, a: Action)
    requires E.ValidConfig(c) && ER.SeedingSafe(c) && Inv(c, s) && Enabled(c, s, a)
    requires Apply(c, s, a).pool.refused == []
    ensures Inv(c, Apply(c, s, a))
  {
    hide Tied, E.CountInv, E.LogInv, P.Advance, P.Apply, Begun;
    match a
    case Sched(x) =>
      SchedStepKeeps(c, s, x);
      assert E.Step(c, s.exec, Apply(c, s, a).exec);
      ER.SafeStepKeepsInv(c, s.exec, Apply(c, s, a).exec);
    case Submit(th) => SubmissionKeeps(c, s, th);
    case Loop(w) =>
      LoopStepKeeps(c, s, w);
      if Takes(s.pool, w).Running? {
        var j := Takes(s.pool, w).job;
        assert E.Step(c, s.exec, E.Apply(c, s.exec, E.Begin(j.task, j.run)));
        ER.SafeStepKeepsInv(c, s.exec, Apply(c, s, a).exec);
      }
  }

  /** With room for every task no step refuses anything. */
  lemma RoomForAll(c: E.Config, s: System, a: Action)
    requires E.ValidConfig(c) && Inv(c, s) && Enabled(c, s, a) && Room(c, s.pool)
    ensures Apply(c, s, a).pool.refused == []
  {
    hide E.Inv, P.Delivered, JobsKnown, NoJobTwice, NoJobLost, FlightsKnown, P.Advance;
    if a.Submit? {
      var next := NextOf(s.pool, a.th);
      if PB.IsPush(next) {
        assert Flying(s.pool, a.th, s.pool.pending[a.th].job.task);
        FlyingTask(c, s, a.th);
        FewerDelivered(c, s, s.pool.pending[a.th].job.task);
      }
      hide P.Apply, P.Inv;
      PB.PushIsTaken(s.pool, next);
    }
  }

  lemma FlyingTask(c: E.Config, s: System, th: int)
    requires Tied(c, s) && P.Unpushed(s.pool, th)
    ensures s.pool.pending[th].job.task < |c.succ| && InAir(s.pool, s.pool.pending[th].job.task)
  {
    hide P.Inv, P.Delivered, JobsKnown, NoJobTwice, NoJobLost;
    assert Flying(s.pool, th, s.pool.pending[th].job.task);
  }
}
