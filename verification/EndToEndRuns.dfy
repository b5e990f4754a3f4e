/**
 * Runs of the scheduler over the bounded pool: nothing is stuck, every run ends, and it ends with the
 * work done; and what happens over a pool that has been stopped.
 */
module EndToEndRuns {
  import opened Graphs
  import opened Sums
  import E = Execution
  import ER = ExecutionRuns
  import P = PoolSystem
  import PR = PoolRuns
  import PB = PoolBounds
  import opened EndToEnd

  // ----- progress -------------------------------------------------------------------------

  ghost predicate NobodySubmits(p: P.Pool) {
    forall th :: th !in p.pending
  }

  /** A submission goes on, or the worker it is aimed at leaves its lock first. */
  lemma SubmissionMoves(c: E.Config, s: System, th: int) returns (a: Action)
    requires E.ValidConfig(c) && Inv(c, s) && th in s.pool.pending
    ensures Enabled(c, s, a)
  {
    hide E.Inv, P.RoundInv, P.WorkerInv, P.StopInv, P.Delivered, JobsKnown, NoJobTwice, NoJobLost, FlightsKnown;
    var p := s.pool;
    var w := if p.pending[th].stage.Aimed? then p.pending[th].stage.w else p.idx;
    assert w < |p.workers|;
    a := if p.workers[w].pc == P.Dozing then Loop(w) else Submit(th);
  }

  /** A submitted task that is not done and not in the air is queued, or is running on its worker. */
  lemma WhereItIs(c: E.Config, s: System, t: nat) returns (w: nat, i: nat)
    requires Tied(c, s) && t < |c.succ| && s.exec.runs[t] != [] && s.exec.runs[t] != [E.Done] && NobodySubmits(s.pool)
    ensures Accepted(s.pool, w, i, t)
    ensures var x := s.pool.workers[w];
      if s.exec.runs[t] == [E.Queued] then i >= |x.ran| && x.queue != [] else x.pc == P.Running(P.Job(t, 0))
  {
    hide P.RoundInv, P.CountInv, P.PendingInv, P.StopInv, P.Delivered;
    var v, k :| Accepted(s.pool, v, k, t);
    w, i := v, k;
    var x := s.pool.workers[w];
    assert s.exec.runs[t] == [s.exec.runs[t][0]];
    assert InPlace(x, i, s.exec.runs[t][0]);
    assert x.accepted[i] == P.Job(t, 0);
    if x.pc.Running? {
      assert x.accepted[|x.ran|] == x.pc.job;
    }
  }

  /** A worker with a non-empty queue can move, or the task it is running can. */
  lemma BusyWorkerMoves(c: E.Config, s: System, w: nat) returns (a: Action)
    requires E.ValidConfig(c) && Inv(c, s) && E.PastSeeding(c, s.exec) && NobodySubmits(s.pool)
    requires w < |s.pool.workers| && s.pool.workers[w].queue != []
    ensures Enabled(c, s, a)
  {
    hide P.RoundInv, P.CountInv, P.PendingInv, P.Delivered, E.CountInv, E.LogInv, NoJobTwice, NoJobLost, FlightsKnown;
    var x := s.pool.workers[w];
    PR.Sized(s.pool);
    assert E.Fits(c, s.exec) by {
      ER.InvFits(c, s.exec);
    }
    if x.pc.Running? {
      assert x.accepted[|x.ran|] == x.pc.job;
      var t := x.pc.job.task;
      assert InPlace(x, |x.ran|, s.exec.runs[t][0]);
      if s.exec.runs[t][0] == E.Done {
        a := Loop(w);
      } else {
        assert RunsOn(s.pool, w, P.Job(t, 0));
        a := RunningTaskMoves(c, s, t, w);
      }
    } else {
      if Takes(s.pool, w).Running? {
        TakenJob(c, s, w);
      }
      a := Loop(w);
    }
  }

  lemma RunningTaskMoves(c: E.Config, s: System, t: nat, w: nat) returns (a: Action)
    requires E.ValidConfig(c) && Inv(c, s) && E.PastSeeding(c, s.exec) && RunsOn(s.pool, w, P.Job(t, 0))
    requires t < |c.succ| && s.exec.runs[t] != [] && s.exec.runs[t] != [E.Done] && s.exec.runs[t] != [E.Queued]
    requires NobodySubmits(s.pool)
    ensures Enabled(c, s, a)
  {
    PR.Sized(s.pool);
    hide P.Inv, P.Delivered, JobsKnown, NoJobTwice, NoJobLost, FlightsKnown, E.CountInv, E.LogInv;
    var x := ER.PhaseCanMove(c, s.exec, t);
    RunningAction(c, s, t, x);
    a := Sched(x);
  }

  lemma RunningAction(c: E.Config, s: System, t: nat, x: E.Action)
    requires Inv(c, s) && t < |c.succ| && s.exec.runs[t] != [] && s.exec.runs[t] != [E.Queued]
    requires ER.IsTaskAction(x) && E.Enabled(c, s.exec, x) && x.t == t
    ensures x.k == 0 && !x.Begin?
  {
    hide P.Inv, P.Delivered;
    assert s.exec.runs[t] == [s.exec.runs[t][0]];
  }

  /** If the scheduler could take a task's step, its worker takes it, or a worker ahead of it moves. */
  lemma TaskMoves(c: E.Config, s: System, x: E.Action) returns (a: Action)
    requires E.ValidConfig(c) && Inv(c, s) && E.Enabled(c, s.exec, x) && ER.IsTaskAction(x) && NobodySubmits(s.pool)
    ensures Enabled(c, s, a)
  {
    PR.Sized(s.pool);
    hide Tied, E.CountInv, E.LogInv;
    TaskActionFacts(c, s, x);
    var w, i := WhereItIs(c, s, x.t);
    if x.Begin? {
      a := BusyWorkerMoves(c, s, w);
    } else {
      assert RunsOn(s.pool, w, P.Job(x.t, x.k));
      a := Sched(x);
    }
  }

  /** Until `execute()` returns, some thread can take a step: nothing is stuck in the pool. */
  lemma Progress(c: E.Config, s: System) returns (a: Action)
    requires E.ValidConfig(c) && Acyclic(E.GraphOf(c)) && Inv(c, s) && !s.exec.returned
    ensures Enabled(c, s, a)
  {
    PR.Sized(s.pool);
    hide Tied, E.CountInv, E.LogInv;
    if th :| th in s.pool.pending {
      a := SubmissionMoves(c, s, th);
    } else {
      var x := ER.Progress(c, s.exec);
      if ER.IsTaskAction(x) {
        a := TaskMoves(c, s, x);
      } else {
        a := Sched(x);
      }
    }
  }

  lemma TaskActionFacts(c: E.Config, s: System, x: E.Action)
    requires Inv(c, s) && E.Enabled(c, s.exec, x) && ER.IsTaskAction(x)
    ensures x.t < |c.succ| && x.k == 0 && s.exec.runs[x.t] != [] && s.exec.runs[x.t] != [E.Done]
    ensures x.Begin? <==> s.exec.runs[x.t] == [E.Queued]
    ensures E.PastSeeding(c, s.exec)
  {
    hide P.Inv, P.Delivered;
    assert s.exec.runs[x.t] == [s.exec.runs[x.t][0]];
  }

  // ----- termination ----------------------------------------------------------------------

  /** How many loop steps a worker can take before it needs a job. */
  function Rank(x: P.Worker): nat {
    match x.pc
    case Running(j) => 5
    case AtLoop => 4
    case AtLock => 3
    case AtRelock => 2
    case Dozing => 1
    case _ => 0
  }

  ghost function Ranks(workers: seq<P.Worker>): nat -> int {
    (w: nat) => if w < |workers| then Rank(workers[w]) else 0
  }

  /** How many steps a submission still needs. */
  function StageRank(pending: map<int, P.Submission>, th: int): nat {
    if th !in pending then 0
    else match pending[th].stage
      case Passed => 4
      case Aimed(_) => 3
      case Pushed => 2
      case Loaded(_) => 1
  }

  /** Threads are counted from the caller of `execute()`, at 0, and the first task, at 1. */
  function Stages(pending: map<int, P.Submission>): nat -> int {
    (k: nat) => StageRank(pending, k - 1)
  }

  ghost function Measure(c: E.Config, s: System): int {
    6 * ER.Measure(c, s.exec)
    + SumTo(Stages(s.pool.pending), |c.succ| + 1) + SumTo(Ranks(s.pool.workers), |s.pool.workers|)
  }

  lemma StageUpdate(n: nat, before: map<int, P.Submission>, after: map<int, P.Submission>, th: int)
    requires -1 <= th < n
    requires forall u :: u != th ==> (u in before <==> u in after) && (u in before ==> before[u] == after[u])
    ensures SumTo(Stages(after), n + 1) == SumTo(Stages(before), n + 1) - StageRank(before, th) + StageRank(after, th)
  {
    var k: nat := th + 1;
    SumUpdate(Stages(before), Stages(after), n + 1, k);
  }

  lemma RankUpdate(p: P.Pool, w: nat, x: P.Worker)
    requires w < |p.workers|
    ensures SumTo(Ranks(p.workers[w := x]), |p.workers|)
      == SumTo(Ranks(p.workers), |p.workers|) - Rank(p.workers[w]) + Rank(x)
  {
    SumUpdate(Ranks(p.workers), Ranks(p.workers[w := x]), |p.workers|, w);
  }

  /** Without a job a worker goes round its loop into the wait; only taking a job brings it back. */
  lemma LoopLowersRank(c: E.Config, s: System, w: nat)
    requires Tied(c, s) && w < |s.pool.workers| && P.CanAdvance(s.pool.workers[w])
    ensures var x, y := s.pool.workers[w], P.Advance(s.pool.workers[w], s.pool.stop);
      if Takes(s.pool, w).Running? then Rank(y) <= Rank(x) + 5 else Rank(y) < Rank(x)
  {
    hide P.RoundInv, P.CountInv, P.PendingInv, P.Delivered, JobsKnown, NoJobTwice, NoJobLost, FlightsKnown;
    assert P.StopInv(s.pool.workers[w], s.pool.stop, s.pool.late);
  }

  lemma ExecShrinks(c: E.Config, s: E.State, x: E.Action)
    requires E.ValidConfig(c) && ER.SeedingSafe(c) && E.Inv(c, s) && E.Enabled(c, s, x)
    ensures ER.Measure(c, E.Apply(c, s, x)) <= ER.Measure(c, s) - 1
  {
    hide ER.Measure, E.Apply, E.CountInv, E.LogInv, ER.SeedingSafe;
    if x.Scan? {
      assert E.Fits(c, s) by {
        ER.InvFits(c, s);
      }
      if s.cond[s.scan] == 0 {
        ER.ScanFindsRoots(c, s);
      }
    }
    ER.StepShrinks(c, s, x);
  }

  lemma SchedShrinks(c: E.Config, s: System, x: E.Action)
    requires E.ValidConfig(c) && ER.SeedingSafe(c) && Inv(c, s) && Enabled(c, s, Sched(x))
    ensures Measure(c, Apply(c, s, Sched(x))) < Measure(c, s)
  {
    assert -1 <= ThreadOf(x) < |c.succ|;
    hide ER.Measure, E.Apply, E.CountInv, E.LogInv, P.Inv;
    hide P.Delivered, JobsKnown, NoJobTwice, NoJobLost, FlightsKnown, Rank;
    ExecShrinks(c, s.exec, x);
    StageUpdate(|c.succ|, s.pool.pending, Apply(c, s, Sched(x)).pool.pending, ThreadOf(x));
  }

  lemma SubmissionShrinks(c: E.Config, s: System, th: int)
    requires E.ValidConfig(c) && Inv(c, s) && Enabled(c, s, Submit(th))
    ensures Measure(c, Apply(c, s, Submit(th))) < Measure(c, s)
  {
    assert -1 <= th < |c.succ|;
    hide ER.Measure, E.Inv, P.Inv, P.Delivered, JobsKnown, NoJobTwice, NoJobLost, FlightsKnown, Rank;
    var p, q := s.pool, P.Apply(s.pool, NextOf(s.pool, th));
    StageFalls(p, th);
    StageUpdate(|c.succ|, p.pending, q.pending, th);
    hide P.Apply, P.Enabled;
    RanksSame(p, q);
  }

  lemma StageFalls(p: P.Pool, th: int)
    requires th in p.pending && P.Enabled(p, NextOf(p, th)) && |p.count.tries| == |p.workers|
    ensures var q := P.Apply(p, NextOf(p, th));
      && StageRank(q.pending, th) < StageRank(p.pending, th) && |q.workers| == |p.workers|
      && (forall u :: u != th ==> (u in p.pending <==> u in q.pending))
      && (forall u :: u != th && u in p.pending ==> p.pending[u] == q.pending[u])
      && forall w :: 0 <= w < |p.workers| ==> q.workers[w].pc == p.workers[w].pc
  {
    hide P.NextCount;
    match p.pending[th].stage
    case Passed =>
    case Aimed(_) =>
    case Pushed =>
    case Loaded(_) =>
  }

  lemma RanksSame(p: P.Pool, q: P.Pool)
    requires |q.workers| == |p.workers| && forall w :: 0 <= w < |p.workers| ==> q.workers[w].pc == p.workers[w].pc
    ensures SumTo(Ranks(q.workers), |q.workers|) == SumTo(Ranks(p.workers), |p.workers|)
  {
    SumSame(Ranks(p.workers), Ranks(q.workers), |p.workers|);
  }

  lemma LoopShrinks(c: E.Config, s: System, w: nat)
    requires E.ValidConfig(c) && ER.SeedingSafe(c) && Inv(c, s) && Enabled(c, s, Loop(w))
    ensures Measure(c, Apply(c, s, Loop(w))) < Measure(c, s)
  {
    hide ER.Measure, E.Apply, E.CountInv, E.LogInv, P.Inv, P.Delivered;
    hide JobsKnown, NoJobTwice, NoJobLost, FlightsKnown, Rank, P.Advance;
    LoopLowersRank(c, s, w);
    RankUpdate(s.pool, w, P.Advance(s.pool.workers[w], s.pool.stop));
    if Takes(s.pool, w).Running? {
      ExecShrinks(c, s.exec, E.Begin(Takes(s.pool, w).job.task, Takes(s.pool, w).job.run));
    }
  }

  lemma StepShrinks(c: E.Config, s: System, a: Action)
    requires E.ValidConfig(c) && ER.SeedingSafe(c) && Inv(c, s) && Enabled(c, s, a)
    ensures Measure(c, Apply(c, s, a)) < Measure(c, s)
  {
    hide Measure, Inv, Apply, Enabled;
    match a
    case Sched(x) => SchedShrinks(c, s, x);
    case Submit(th) => SubmissionShrinks(c, s, th);
    case Loop(w) => LoopShrinks(c, s, w);
  }

  lemma StepKeepsShape(c: E.Config, s: System, a: Action)
    requires E.ValidConfig(c) && Enabled(c, s, a)
    ensures var p, q := s.pool, Apply(c, s, a).pool;
      |q.workers| == |p.workers| && q.limit == p.limit && q.atomic == p.atomic
  {
    hide E.Apply, P.Apply;
    match a
    case Sched(x) =>
    case Submit(th) => PR.StepKeepsShape(s.pool, NextOf(s.pool, th));
    case Loop(w) => PR.StepKeepsShape(s.pool, P.Work(w));
  }

  lemma MeasureIsNatural(c: E.Config, s: System)
    requires Inv(c, s)
    ensures Measure(c, s) >= 0
  {
    hide Tied;
    ER.MeasureIsNatural(c, s.exec);
    SumNonNegative(Ranks(s.pool.workers), |s.pool.workers|);
    SumNonNegative(Stages(s.pool.pending), |c.succ| + 1);
  }

  // ----- runs -----------------------------------------------------------------------------

  ghost predicate IsRun(c: E.Config, o: PR.Setup, tr: seq<System>)
    requires E.ValidConfig(c)
  {
    |tr| > 0 && tr[0] == Init(c, o) && forall i :: 0 <= i < |tr| - 1 ==> Step(c, tr[i], tr[i + 1])
  }

  lemma {:induction false} RunsKeepShape(c: E.Config, o: PR.Setup, tr: seq<System>, i: nat)
    requires E.ValidConfig(c) && IsRun(c, o, tr) && i < |tr|
    ensures |tr[i].pool.workers| == o.workers && tr[i].pool.limit == o.limit && tr[i].pool.atomic == o.atomic
  {
    hide Apply, Enabled;
    if i > 0 {
      RunsKeepShape(c, o, tr, i - 1);
      assert Step(c, tr[i - 1], tr[i - 1 + 1]);
      var a :| Enabled(c, tr[i - 1], a) && tr[i] == Apply(c, tr[i - 1], a);
      StepKeepsShape(c, tr[i - 1], a);
    }
  }

  /** What has been refused stays refused. */
  lemma RefusedStays(c: E.Config, s: System, a: Action)
    requires E.ValidConfig(c) && Enabled(c, s, a)
    ensures s.pool.refused <= Apply(c, s, a).pool.refused
  {
    hide E.Apply, E.Enabled, P.Advance, P.Push;
  }

  /** As long as nothing has been refused the invariant holds, and the steps taken are paid for. */
  lemma {:induction false} RunsKeepInv(c: E.Config, o: PR.Setup, tr: seq<System>, i: nat)
    requires Sound(c, o) && IsRun(c, o, tr) && i < |tr| && tr[i].pool.refused == []
    ensures Inv(c, tr[i]) && i + Measure(c, tr[i]) <= Measure(c, tr[0])
  {
    hide Inv, Measure, Apply, Enabled;
    if i == 0 {
      InitHolds(c, o);
    } else {
      assert Step(c, tr[i - 1], tr[i - 1 + 1]);
      var a :| Enabled(c, tr[i - 1], a) && tr[i] == Apply(c, tr[i - 1], a);
      RefusedStays(c, tr[i - 1], a);
      RunsKeepInv(c, o, tr, i - 1);
      StepKeepsInv(c, tr[i - 1], a);
      StepShrinks(c, tr[i - 1], a);
    }
  }

  lemma {:induction false} NothingRefused(c: E.Config, o: PR.Setup, tr: seq<System>, i: nat)
    requires Fits(c, o) && IsRun(c, o, tr) && i < |tr|
    ensures tr[i].pool.refused == []
  {
    hide Inv, Measure, Apply, Enabled;
    if i > 0 {
      NothingRefused(c, o, tr, i - 1);
      RunsKeepInv(c, o, tr, i - 1);
      RunsKeepShape(c, o, tr, i - 1);
      assert Step(c, tr[i - 1], tr[i - 1 + 1]);
      var a :| Enabled(c, tr[i - 1], a) && tr[i] == Apply(c, tr[i - 1], a);
      RoomForAll(c, tr[i - 1], a);
    }
  }

  /**
   * No drop: with no more tasks than one queue holds, or, if deliveries are atomic, than all queues
   * hold, in every run the pool refuses nothing, no work is done twice, and work respects every edge.
   */
  lemma NothingIsDropped(c: E.Config, o: PR.Setup, tr: seq<System>, i: nat)
    requires Fits(c, o) && IsRun(c, o, tr) && i < |tr|
    ensures tr[i].pool.refused == []
    ensures E.NoEventTwice(tr[i].exec.log) && E.Ordered(c, tr[i].exec.log)
  {
    hide P.Inv, P.Delivered, JobsKnown, NoJobTwice, NoJobLost;
    hide FlightsKnown, E.CountInv, E.NoEventTwice, E.Ordered, E.Logged;
    NothingRefused(c, o, tr, i);
    RunsKeepInv(c, o, tr, i);
  }

  /** What a run that has refused nothing so far costs, and what it has to show when it ends. */
  lemma CompleteUnlessDropped(c: E.Config, o: PR.Setup, tr: seq<System>)
    requires Sound(c, o) && IsRun(c, o, tr) && tr[|tr| - 1].pool.refused == []
    ensures |tr| <= 6 * ER.Measure(c, E.Init(c)) + 4 * o.workers + 1
    ensures var s := tr[|tr| - 1];
      (forall s' :: !Step(c, s, s')) ==>
        && s.exec.returned && E.NoEventTwice(s.exec.log)
        && forall t: nat :: t < |c.succ| ==> E.Began(t) in s.exec.log && E.Ended(t) in s.exec.log
  {
    hide Tied, ER.Measure, E.CountInv, E.LogInv;
    var n := |tr| - 1;
    var s := tr[n];
    RunsKeepInv(c, o, tr, n);
    MeasureIsNatural(c, s);
    SumConstant(Ranks(tr[0].pool.workers), o.workers, 4);
    SumConstant(Stages(tr[0].pool.pending), |c.succ| + 1, 0);
    if s.exec.returned {
      Returned(c, s.exec);
    } else {
      var a := Progress(c, s);
      assert Step(c, s, Apply(c, s, a));
    }
  }

  /**
   * Completion over the bounded pool: every run ends, and it can only end after `execute()` has
   * returned with every task's work done exactly once.
   */
  lemma RunsComplete(c: E.Config, o: PR.Setup, tr: seq<System>)
    requires Fits(c, o) && IsRun(c, o, tr)
    ensures |tr| <= 6 * ER.Measure(c, E.Init(c)) + 4 * o.workers + 1
    ensures var s := tr[|tr| - 1];
      (forall s' :: !Step(c, s, s')) ==>
        && s.exec.returned && E.NoEventTwice(s.exec.log)
        && forall t: nat :: t < |c.succ| ==> E.Began(t) in s.exec.log && E.Ended(t) in s.exec.log
  {
    hide ER.Measure;
    NothingRefused(c, o, tr, |tr| - 1);
    CompleteUnlessDropped(c, o, tr);
  }

  lemma Returned(c: E.Config, s: E.State)
    requires E.Inv(c, s) && s.returned
    ensures E.NoEventTwice(s.log) && forall t: nat :: t < |c.succ| ==> E.Began(t) in s.log && E.Ended(t) in s.log
  {
    hide E.Unnotified, E.Left, E.Counters;
    forall t: nat | t < |c.succ| ensures E.Began(t) in s.log && E.Ended(t) in s.log {
      ER.AllCounted(c, s, t);
    }
  }

  // ----- after a drop ---------------------------------------------------------------------

  ghost predicate Queued(p: P.Pool, t: nat) {
    exists w, i :: 0 <= w < |p.workers| && 0 <= i < |p.workers[w].queue| && p.workers[w].queue[i].task == t
  }

  ghost predicate Holding(p: P.Pool, t: nat) {
    Queued(p, t) || InAir(p, t)
  }

  /** Task `t` was submitted, is in no queue and on its way to none: nobody will ever begin it. */
  ghost predicate Dropped(c: E.Config, s: System, t: nat) {
    E.Inv(c, s.exec) && t < |s.exec.runs| && s.exec.runs[t] == [E.Queued] && !Holding(s.pool, t)
  }

  lemma OnlyPushesRefuse(c: E.Config, s: System, a: Action)
    requires E.ValidConfig(c) && Enabled(c, s, a)
    ensures Apply(c, s, a).pool.refused != s.pool.refused ==>
      a.Submit? && PB.IsPush(NextOf(s.pool, a.th)) && P.Unpushed(s.pool, a.th)
  {
    hide E.Apply, E.Enabled, P.Advance, P.Push, P.NextCount;
  }

  lemma Bounces(p: P.Pool, th: int)
    requires P.Unpushed(p, th) && PB.IsPush(NextOf(p, th))
    requires P.Enabled(p, NextOf(p, th)) && |p.count.tries| == |p.workers|
    requires P.Apply(p, NextOf(p, th)).refused != p.refused
    ensures var q := P.Apply(p, NextOf(p, th));
      && q.workers == p.workers
      && forall u, t: nat :: Flying(q, u, t) <==> Flying(p, u, t) && u != th
  {
    hide P.NextCount;
  }

  /** The task whose submission has just been refused is such a task. */
  lemma RefusalDrops(c: E.Config, s: System, a: Action) returns (t: nat)
    requires E.ValidConfig(c) && Inv(c, s) && Enabled(c, s, a) && Apply(c, s, a).pool.refused != []
    ensures Dropped(c, Apply(c, s, a), t)
  {
    OnlyPushesRefuse(c, s, a);
    t := s.pool.pending[a.th].job.task;
    assert Flying(s.pool, a.th, t);
    Bounces(s.pool, a.th);
    NotInQueues(c, s, t, a.th);
    hide E.Inv, P.Inv, P.Delivered, JobsKnown, NoJobLost, P.Apply;
  }

  lemma QueuedIsAccepted(c: E.Config, s: System, t: nat)
    requires Tied(c, s)
    ensures Queued(s.pool, t) ==> exists w, k :: Accepted(s.pool, w, k, t)
  {
    hide P.RoundInv, P.CountInv, P.PendingInv, P.StopInv, P.Delivered, JobsKnown, NoJobLost, FlightsKnown, NoJobTwice;
    if w, i :| 0 <= w < |s.pool.workers| && 0 <= i < |s.pool.workers[w].queue| && s.pool.workers[w].queue[i].task == t {
      var x := s.pool.workers[w];
      assert P.WorkerInv(x, s.pool.limit);
      var k := |x.ran + P.InFlight(x)| + i;
      assert x.accepted[k] == x.queue[i];
      assert Accepted(s.pool, w, k, t);
    }
  }

  lemma NotInQueues(c: E.Config, s: System, t: nat, th: int)
    requires Tied(c, s) && Flying(s.pool, th, t)
    ensures !Queued(s.pool, t)
  {
    QueuedIsAccepted(c, s, t);
    hide P.Inv, P.Delivered, JobsKnown, NoJobLost, FlightsKnown, Queued;
  }

  lemma DroppedIsWaiting(c: E.Config, s: System, t: nat)
    requires Dropped(c, s, t)
    ensures !s.exec.returned
  {
    if s.exec.returned {
      ER.AllCounted(c, s.exec, t);
    }
  }

  /** A dropped task stays dropped, whatever happens. */
  lemma DroppedStays(c: E.Config, s: System, a: Action, t: nat)
    requires E.ValidConfig(c) && ER.SeedingSafe(c) && Dropped(c, s, t) && Enabled(c, s, a)
    ensures Dropped(c, Apply(c, s, a), t)
  {
    hide E.Inv, E.Apply, P.Apply;
    match a
    case Sched(x) => DroppedBySched(c, s, x, t);
    case Submit(th) => DroppedBySubmit(s.pool, th, t);
    case Loop(w) => DroppedByLoop(c, s, w, t);
  }

  /** The scheduler submits only tasks that were never submitted, and moves only tasks that have begun. */
  lemma ExecLeaves(c: E.Config, e: E.State, x: E.Action, t: nat)
    requires E.ValidConfig(c) && ER.SeedingSafe(c) && E.Inv(c, e) && E.Enabled(c, e, x)
    requires t < |e.runs| && e.runs[t] == [E.Queued] && (x.Begin? ==> x.t != t)
    ensures E.Inv(c, E.Apply(c, e, x)) && |E.Apply(c, e, x).runs| == |e.runs| && E.Apply(c, e, x).runs[t] == [E.Queued]
    ensures Submits(c, e, x) != Hands(t)
  {
    hide E.Inv;
    assert E.Step(c, e, E.Apply(c, e, x));
    ER.SafeStepKeepsInv(c, e, E.Apply(c, e, x));
    match x
    case Scan =>
      if e.cond[e.scan] == 0 {
        ER.ScanFindsRoots(c, e);
        ER.NotYetScanned(c, e);
      }
    case Notify(u, k) =>
      ER.InvFits(c, e);
      ER.OneAtMost(c, e, u);
      hide E.Apply;
      NotifyEffect(c, e, u);
    case Return =>
    case _ =>
      ER.InvFits(c, e);
      ER.OneAtMost(c, e, x.t);
  }

  lemma DroppedBySched(c: E.Config, s: System, x: E.Action, t: nat)
    requires E.ValidConfig(c) && ER.SeedingSafe(c) && Dropped(c, s, t) && Enabled(c, s, Sched(x))
    ensures Dropped(c, Apply(c, s, Sched(x)), t)
  {
    hide E.Inv, E.Apply;
    ExecLeaves(c, s.exec, x, t);
    var h := Submits(c, s.exec, x);
    if h.Hands? && !s.pool.stop {
      var th := ThreadOf(x);
      BegunFlies(s.pool, th, P.Job(h.t, |s.exec.runs[h.t]|));
      InAirMoves(s.pool, Begun(s.pool, th, P.Job(h.t, |s.exec.runs[h.t]|)), th, h.t, t);
    }
    hide InAir;
  }

  /** Whoever is on his way to a queue is there with another task. */
  lemma DroppedBySubmit(p: P.Pool, th: int, t: nat)
    requires th in p.pending && P.Enabled(p, NextOf(p, th)) && |p.count.tries| == |p.workers| && !Holding(p, t)
    ensures !Holding(P.Apply(p, NextOf(p, th)), t)
  {
    var q := P.Apply(p, NextOf(p, th));
    if PB.IsPush(NextOf(p, th)) {
      assert Flying(p, th, p.pending[th].job.task);
      var w := PushedTo(p, th);
      assert !Queued(q, t);
      hide P.Apply;
    } else {
      QuietStep(p, th);
      hide P.Apply;
    }
  }

  lemma PushedTo(p: P.Pool, th: int) returns (w: nat)
    requires th in p.pending && P.Enabled(p, NextOf(p, th))
    requires |p.count.tries| == |p.workers| && PB.IsPush(NextOf(p, th))
    ensures var q := P.Apply(p, NextOf(p, th));
      && w < |p.workers| && q.workers == p.workers[w := P.Push(p.workers[w], p.pending[th].job, p.limit)]
      && forall u, t: nat :: Flying(q, u, t) <==> Flying(p, u, t) && u != th
  {
    hide P.NextCount, P.Push;
    w := if p.pending[th].stage.Aimed? then p.pending[th].stage.w else p.idx;
  }

  lemma DroppedByLoop(c: E.Config, s: System, w: nat, t: nat)
    requires E.ValidConfig(c) && ER.SeedingSafe(c) && Dropped(c, s, t) && Enabled(c, s, Loop(w))
    ensures Dropped(c, Apply(c, s, Loop(w)), t)
  {
    hide E.Inv, E.Apply, InAir;
    var x, y := s.pool.workers[w], P.Advance(s.pool.workers[w], s.pool.stop);
    assert y.queue == x.queue || (x.queue != [] && y.queue == x.queue[1..]);
    if Takes(s.pool, w).Running? {
      assert x.queue != [] && Takes(s.pool, w).job == x.queue[0];
      ExecLeaves(c, s.exec, E.Begin(x.queue[0].task, x.queue[0].run), t);
    }
    LoopHolds(s.pool, w, t);
  }

  lemma LoopHolds(p: P.Pool, w: nat, t: nat)
    requires w < |p.workers| && P.CanAdvance(p.workers[w]) && |p.count.tries| == |p.workers| && !Holding(p, t)
    ensures !Holding(P.Apply(p, P.Work(w)), t)
  {
    var q := P.Apply(p, P.Work(w));
    assert q.pending == p.pending;
    var x, y := p.workers[w], q.workers[w];
    assert y.queue == x.queue || (x.queue != [] && y.queue == x.queue[1..]);
    assert forall u, t: nat :: Flying(q, u, t) <==> Flying(p, u, t);
  }

  /** From the first refusal on some task is dropped. */
  lemma {:induction false} SomeDropped(c: E.Config, o: PR.Setup, tr: seq<System>, i: nat) returns (t: nat)
    requires Sound(c, o) && IsRun(c, o, tr) && i < |tr| && tr[i].pool.refused != []
    ensures Dropped(c, tr[i], t)
  {
    hide Inv, Dropped, Apply, Enabled;
    t := 0;
    if i == 0 {
      StartsEmpty(c, o);
      assert false;
    } else {
      assert Step(c, tr[i - 1], tr[i - 1 + 1]);
      var a :| Enabled(c, tr[i - 1], a) && tr[i] == Apply(c, tr[i - 1], a);
      if tr[i - 1].pool.refused == [] {
        RunsKeepInv(c, o, tr, i - 1);
        t := RefusalDrops(c, tr[i - 1], a);
      } else {
        t := SomeDropped(c, o, tr, i - 1);
        DroppedStays(c, tr[i - 1], a, t);
      }
    }
  }

  lemma {:induction false} RefusedForGood(c: E.Config, o: PR.Setup, tr: seq<System>, i: nat, j: nat)
    requires E.ValidConfig(c) && IsRun(c, o, tr) && i <= j < |tr|
    ensures tr[i].pool.refused <= tr[j].pool.refused
    decreases j - i
  {
    hide Apply, Enabled;
    if i < j {
      RefusedForGood(c, o, tr, i, j - 1);
      assert Step(c, tr[j - 1], tr[j - 1 + 1]);
      var a :| Enabled(c, tr[j - 1], a) && tr[j] == Apply(c, tr[j - 1], a);
      RefusedStays(c, tr[j - 1], a);
    }
  }

  lemma StartsEmpty(c: E.Config, o: PR.Setup)
    ensures Init(c, o).pool.refused == []
  {
  }

  /**
   * Completion over a pool of any size, with deliveries atomic or not: a run in which a task is refused never
   * returns, and a run that cannot go on has returned, with all work done, if and only if none was.
   */
  lemma ReturnsUnlessDropped(c: E.Config, o: PR.Setup, tr: seq<System>)
    requires Sound(c, o) && IsRun(c, o, tr)
    ensures var s := tr[|tr| - 1];
      && (s.pool.refused != [] ==> !s.exec.returned)
      && ((forall s' :: !Step(c, s, s')) ==> (s.exec.returned <==> s.pool.refused == []))
  {
    hide ER.Measure, Dropped;
    if tr[|tr| - 1].pool.refused == [] {
      CompleteUnlessDropped(c, o, tr);
    } else {
      var t := SomeDropped(c, o, tr, |tr| - 1);
      DroppedIsWaiting(c, tr[|tr| - 1], t);
    }
  }

  // ----- over a stopped pool --------------------------------------------------------------

  /** `~Scheduler` has stopped the shared pool: every worker has ended, and a submission comes to nothing. */
  ghost predicate StoppedPool(p: P.Pool) {
    && p.stop && NobodySubmits(p) && |p.count.tries| == |p.workers|
    && forall w :: 0 <= w < |p.workers| ==> p.workers[w].pc == P.Gone
  }

  ghost predicate Halted(c: E.Config, s: System) {
    E.Inv(c, s.exec) && StoppedPool(s.pool) && s.exec.log == []
  }

  lemma HaltedStays(c: E.Config, s: System, a: Action)
    requires E.ValidConfig(c) && Halted(c, s) && Enabled(c, s, a)
    ensures Halted(c, Apply(c, s, a)) && a.Sched?
  {
    hide E.CountInv, E.LogInv, E.Apply;
    assert a.Sched? && !ER.IsTaskAction(a.a);
    ER.InvFits(c, s.exec);
    if a.a.Scan? && s.exec.cond[s.exec.scan] == 0 {
      ER.FreshZeroIsRoot(c, s.exec, s.exec.scan);
    }
    E.StepKeepsInv(c, s.exec, a.a);
    QuietLog(c, s.exec, a.a);
  }

  lemma QuietLog(c: E.Config, s: E.State, x: E.Action)
    requires E.ValidConfig(c) && E.Enabled(c, s, x) && !ER.IsTaskAction(x)
    ensures E.Apply(c, s, x).log == s.log
  {
  }

  ghost predicate IsHaltedRun(c: E.Config, p: P.Pool, tr: seq<System>)
    requires E.ValidConfig(c)
  {
    |tr| > 0 && tr[0] == System(E.Init(c), p) && forall i :: 0 <= i < |tr| - 1 ==> Step(c, tr[i], tr[i + 1])
  }

  lemma {:induction false} HaltedRuns(c: E.Config, p: P.Pool, tr: seq<System>, i: nat)
    requires E.ValidConfig(c) && StoppedPool(p) && IsHaltedRun(c, p, tr) && i < |tr|
    ensures Halted(c, tr[i])
  {
    hide E.Inv, Apply, Enabled;
    if i == 0 {
      E.InitHolds(c);
    } else {
      HaltedRuns(c, p, tr, i - 1);
      assert Step(c, tr[i - 1], tr[i - 1 + 1]);
      var a :| Enabled(c, tr[i - 1], a) && tr[i] == Apply(c, tr[i - 1], a);
      HaltedStays(c, tr[i - 1], a);
    }
  }

  /** Over a stopped pool `execute()` can return if and only if there is nothing to do. */
  lemma StoppedPoolServesNobody(c: E.Config, p: P.Pool)
    requires E.ValidConfig(c) && StoppedPool(p)
    ensures (exists tr: seq<System> :: IsHaltedRun(c, p, tr) && tr[|tr| - 1].exec.returned) <==> |c.succ| == 0
  {
    hide E.CountInv, StoppedPool;
    if tr: seq<System> :| IsHaltedRun(c, p, tr) && tr[|tr| - 1].exec.returned {
      HaltedRuns(c, p, tr, |tr| - 1);
      ReturnedMeansEnded(c, tr[|tr| - 1].exec);
    }
    if |c.succ| == 0 {
      var s := System(E.Init(c), p);
      NothingToDo(c, s);
      var r := Apply(c, s, Sched(E.Return));
      var tr := [s, r];
      assert Step(c, tr[0], tr[1]);
      assert IsHaltedRun(c, p, tr);
    }
  }

  lemma ReturnedMeansEnded(c: E.Config, s: E.State)
    requires E.Inv(c, s) && s.returned && s.log == []
    ensures |c.succ| == 0
  {
    FirstBegan(c, s);
  }

  lemma FirstBegan(c: E.Config, s: E.State)
    requires E.Inv(c, s) && s.returned
    ensures |c.succ| > 0 ==> E.Began(0) in s.log
  {
    Returned(c, s);
  }

  lemma NothingToDo(c: E.Config, s: System)
    requires E.ValidConfig(c) && |c.succ| == 0 && s.exec == E.Init(c) && StoppedPool(s.pool)
    ensures Enabled(c, s, Sched(E.Return)) && Apply(c, s, Sched(E.Return)).exec.returned
  {
  }
}
