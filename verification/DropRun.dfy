/**
 * A run of the scheduler over a pool of two workers in which a task is dropped, although the tasks are
 * fewer than both queues hold: the scan and a task that notifies its successors meet at the index, and
 * all they submit goes to one worker.
 */
module DropRun {
  import opened Graphs
  import opened Sums
  import E = Execution
  import ER = ExecutionRuns
  import P = PoolSystem
  import PR = PoolRuns
  import opened EndToEnd
  import EE = EndToEndRuns

  /** Tasks 0 to `q - 1` wait for task `q`; tasks `q + 1` to `2 * q` for nobody. */
  ghost function Fan(q: nat): E.Config {
    E.Config(seq(2 * q + 1, t requires 0 <= t => if t == q then Upto(q) else []), false)
  }

  ghost function Upto(k: nat): (r: seq<nat>)
    ensures |r| == k && forall i :: 0 <= i < k ==> r[i] == i
  {
    seq(k, i requires 0 <= i => i)
  }

  ghost function Two(limit: nat): PR.Setup {
    PR.Setup(2, limit, 0, false)
  }

  // ----- the graph ------------------------------------------------------------------------

  lemma FanEdges(q: nat)
    ensures E.ValidConfig(Fan(q))
    ensures forall p: nat, t: nat :: E.Precedes(Fan(q), p, t) <==> p == q && t < q
  {
    forall p: nat, t: nat ensures E.Precedes(Fan(q), p, t) <==> p == q && t < q {
      if p == q && t < q {
        assert Upto(q)[t] == t;
      }
    }
  }

  /** Nothing is wrong with the graph or with the order of its tasks. */
  lemma FanIsSafe(q: nat)
    ensures E.ValidConfig(Fan(q)) && Acyclic(E.GraphOf(Fan(q))) && ER.SeedingSafe(Fan(q))
  {
    var c := Fan(q);
    var g := E.GraphOf(c);
    FanEdges(q);
    ER.GraphIsClosed(c);
    forall u: nat ensures !Reach(g, u, u) {
      if Reach(g, u, u) {
        var v := FirstEdge(g, u, u);
        var w := FirstEdge(g, v, u);
      }
    }
    forall t: nat ensures !ER.Unsafe(c, t) {
      if t < |c.succ| && !E.Root(c, t) {
        assert Edge(g, q, t);
        EdgeReaches(g, q, t);
        assert E.Root(c, q);
      }
    }
  }

  lemma {:induction false} CountUpto(q: nat, t: nat, i: nat)
    requires i <= q
    ensures E.CountFrom(Upto(q), t, i) == if i <= t < q then 1 else 0
    decreases q - i
  {
    if i < q {
      CountUpto(q, t, i + 1);
    }
  }

  lemma FanCounters(q: nat, t: nat)
    ensures E.InDegree(Fan(q), t) == if t < q then 1 else 0
  {
    var c := Fan(q);
    var none: seq<seq<E.Phase>> := seq(|c.succ|, _ => []);
    var zero: nat -> int := (p: nat) => 0;
    CountUpto(q, t, 0);
    SumUpdate(zero, E.PendingFrom(c, none, t), |c.succ|, q);
    SumConstant(zero, |c.succ|, 0);
  }

  // ----- taking steps ---------------------------------------------------------------------

  ghost function Now(tr: seq<System>): System
    requires |tr| > 0
  {
    tr[|tr| - 1]
  }

  lemma Go(c: E.Config, o: PR.Setup, tr: seq<System>, a: Action) returns (tr': seq<System>)
    requires E.ValidConfig(c) && EE.IsRun(c, o, tr) && Enabled(c, Now(tr), a)
    ensures EE.IsRun(c, o, tr') && Now(tr') == Apply(c, Now(tr), a)
  {
    hide Apply, Enabled;
    tr' := tr + [Apply(c, Now(tr), a)];
    forall i | 0 <= i < |tr'| - 1 ensures Step(c, tr'[i], tr'[i + 1]) {
      if i < |tr| - 1 {
        assert Step(c, tr[i], tr[i + 1]);
      }
    }
  }

  /** The next step of the submission of `th`. */
  lemma GoOn(c: E.Config, o: PR.Setup, tr: seq<System>, th: int) returns (tr': seq<System>)
    requires E.ValidConfig(c) && EE.IsRun(c, o, tr)
    requires var p := Now(tr).pool; |p.count.tries| == |p.workers| && th in p.pending && P.Enabled(p, NextOf(p, th))
    ensures EE.IsRun(c, o, tr') && Now(tr').exec == Now(tr).exec
    ensures Now(tr').pool == P.Apply(Now(tr).pool, NextOf(Now(tr).pool, th))
  {
    hide P.Apply, P.Enabled;
    tr' := Go(c, o, tr, Submit(th));
  }

  ghost predicate Begins(p: P.Pool, th: int) {
    th in p.pending && p.pending[th].stage == P.Passed && !p.atomic && |p.count.tries| == |p.workers|
  }

  /** A submission that nobody disturbs. */
  lemma SubmitAlone(c: E.Config, o: PR.Setup, tr: seq<System>, th: int) returns (tr': seq<System>)
    requires E.ValidConfig(c) && EE.IsRun(c, o, tr) && Begins(Now(tr).pool, th)
    requires P.Reachable(Now(tr).pool, Now(tr).pool.idx)
    ensures EE.IsRun(c, o, tr') && Now(tr').exec == Now(tr).exec
    ensures var p := Now(tr).pool; Now(tr').pool == P.DeliverTo(P.Done(p, th), p.pending[th].job)
  {
    P.UndisturbedIsDelivery(Now(tr).pool, th);
    tr' := GoOn(c, o, tr, th);
    tr' := GoOn(c, o, tr', th);
    tr' := GoOn(c, o, tr', th);
    tr' := GoOn(c, o, tr', th);
  }

  // ----- two submissions at one index -----------------------------------------------------

  /** Two threads have both passed the test, and the index is 1. */
  ghost predicate BothBegin(p: P.Pool, x: int, y: int) {
    && x != y && p.pending.Keys == {x, y} && Begins(p, x) && Begins(p, y)
    && |p.workers| == 2 && p.idx == 1 && p.workers[1].pc == P.AtLoop
  }

  /** Both push to worker 1, and the index is 1 again. */
  ghost function BothPushed(p: P.Pool, x: int, y: int): P.Pool
    requires BothBegin(p, x, y)
  {
    P.PushTo(P.PushTo(p.(pending := map[]), p.pending[x].job, 1), p.pending[y].job, 1)
  }

  ghost function BothAimed(p: P.Pool, x: int, y: int): P.Pool
    requires BothBegin(p, x, y)
  {
    P.SetStage(P.SetStage(p, x, P.Aimed(1)), y, P.Aimed(1))
  }

  ghost function BothHanded(p: P.Pool, x: int, y: int): P.Pool
    requires BothBegin(p, x, y)
  {
    var q := P.SetStage(P.SetStage(p, x, P.Pushed), y, P.Pushed);
    P.PushTo(P.PushTo(q, p.pending[x].job, 1), p.pending[y].job, 1)
  }

  lemma Aim(c: E.Config, o: PR.Setup, tr: seq<System>, x: int, y: int) returns (tr': seq<System>)
    requires E.ValidConfig(c) && EE.IsRun(c, o, tr) && BothBegin(Now(tr).pool, x, y)
    ensures EE.IsRun(c, o, tr') && Now(tr').exec == Now(tr).exec && Now(tr').pool == BothAimed(Now(tr).pool, x, y)
  {
    tr' := GoOn(c, o, tr, x);
    tr' := GoOn(c, o, tr', y);
  }

  lemma HandBoth(c: E.Config, o: PR.Setup, tr: seq<System>, p: P.Pool, x: int, y: int) returns (tr': seq<System>)
    requires E.ValidConfig(c) && EE.IsRun(c, o, tr) && BothBegin(p, x, y) && Now(tr).pool == BothAimed(p, x, y)
    ensures EE.IsRun(c, o, tr') && Now(tr').exec == Now(tr).exec && Now(tr').pool == BothHanded(p, x, y)
  {
    hide P.Push, P.NextCount;
    PushKeepsPc();
    tr' := GoOn(c, o, tr, x);
    tr' := GoOn(c, o, tr', y);
    assert Now(tr').pool.pending == BothHanded(p, x, y).pending;
  }

  lemma PushKeepsPc()
    ensures forall w: P.Worker, job: P.Job, limit: nat :: P.Push(w, job, limit).pc == w.pc
    ensures forall c: P.RoundRobin, w: nat, n: nat :: w < |c.tries| ==> |P.NextCount(c, w, n).tries| == |c.tries|
  {
  }

  /** A submission that has pushed reads the index and stores it one higher. */
  lemma StoreOne(c: E.Config, o: PR.Setup, tr: seq<System>, th: int) returns (tr': seq<System>)
    requires E.ValidConfig(c) && EE.IsRun(c, o, tr) && P.AtStage(Now(tr).pool, th, P.Pushed)
    requires |Now(tr).pool.count.tries| == |Now(tr).pool.workers| > 0
    ensures EE.IsRun(c, o, tr') && Now(tr').exec == Now(tr).exec
    ensures var p := Now(tr).pool; Now(tr').pool == P.Done(p, th).(idx := (p.idx + 1) % |p.workers|)
  {
    tr' := GoOn(c, o, tr, th);
    tr' := GoOn(c, o, tr', th);
    assert Now(tr').pool.pending == Now(tr).pool.pending - {th};
  }

  /** The second thread reads and stores the index before the first one reads it. */
  lemma StoreBoth(c: E.Config, o: PR.Setup, tr: seq<System>, p: P.Pool, x: int, y: int) returns (tr': seq<System>)
    requires E.ValidConfig(c) && EE.IsRun(c, o, tr) && BothBegin(p, x, y) && Now(tr).pool == BothHanded(p, x, y)
    ensures EE.IsRun(c, o, tr') && Now(tr').exec == Now(tr).exec && Now(tr').pool == BothPushed(p, x, y)
  {
    hide P.Push, P.NextCount;
    PushKeepsPc();
    tr' := StoreOne(c, o, tr, y);
    tr' := StoreOne(c, o, tr', x);
    assert Now(tr').pool.pending == map[];
  }

  lemma SubmitBoth(c: E.Config, o: PR.Setup, tr: seq<System>, x: int, y: int) returns (tr': seq<System>)
    requires E.ValidConfig(c) && EE.IsRun(c, o, tr) && BothBegin(Now(tr).pool, x, y)
    ensures EE.IsRun(c, o, tr') && Now(tr').exec == Now(tr).exec && Now(tr').pool == BothPushed(Now(tr).pool, x, y)
  {
    hide BothAimed, BothHanded, BothPushed;
    tr' := Aim(c, o, tr, x, y);
    tr' := HandBoth(c, o, tr', Now(tr).pool, x, y);
    tr' := StoreBoth(c, o, tr', Now(tr).pool, x, y);
  }

  // ----- the run --------------------------------------------------------------------------

  /** The scheduler's side, with `scan` tasks scanned and `k` successors of task `q` notified. */
  ghost predicate ExecAt(q: nat, e: E.State, scan: nat, k: nat, run: seq<E.Phase>) {
    && E.Fits(Fan(q), e) && e.scan == scan && !e.returned && q < |e.runs| && e.runs[q] == run
    && (forall t: nat :: k <= t < q ==> e.cond[t] == 1 && e.runs[t] == [])
    && forall t: nat :: q <= t < |e.cond| && scan <= t ==> e.cond[t] == 0 && e.runs[t] == []
  }

  /** The pool's side: worker 1 is before its first lock, and its queue, if nothing was refused, holds `n`. */
  ghost predicate PoolAt(p: P.Pool, limit: nat, idx: nat, n: nat) {
    && |p.workers| == 2 == |p.count.tries| && p.limit == limit && p.idx == idx && !p.stop && !p.atomic
    && p.pending == map[] && p.workers[1].pc == P.AtLoop && |p.workers[1].queue| <= limit
    && (p.refused == [] ==> |p.workers[1].queue| == n)
  }

  ghost predicate Head(q: nat, limit: nat, tr: seq<System>, k: nat) {
    && E.ValidConfig(Fan(q)) && EE.IsRun(Fan(q), Two(limit), tr)
    && ExecAt(q, Now(tr).exec, q + 1 + k, k, [E.Notifying(k)])
    && PoolAt(Now(tr).pool, limit, 1, 2 * k) && RunsOn(Now(tr).pool, 0, P.Job(q, 0))
  }

  /** A task scanned and a successor notified: two submissions begin. */
  lemma BeginBoth(q: nat, limit: nat, tr: seq<System>, k: nat) returns (tr': seq<System>)
    requires Head(q, limit, tr, k) && k < q
    ensures EE.IsRun(Fan(q), Two(limit), tr') && BothBegin(Now(tr').pool, -1, q)
    ensures ExecAt(q, Now(tr').exec, q + 2 + k, k + 1, [E.Notifying(k + 1)])
    ensures Now(tr').pool == Now(tr).pool.(pending := Now(tr').pool.pending)
  {
    var c := Fan(q);
    tr' := Go(c, Two(limit), tr, Sched(E.Scan));
    assert Now(tr').pool.pending == map[-1 := P.Submission(P.Job(q + 1 + k, 0), P.Passed)];
    assert c.succ[q][k] == k;
    assert RunsOn(Now(tr').pool, 0, P.Job(q, 0));
    tr' := Go(c, Two(limit), tr', Sched(E.Notify(q, 0)));
  }

  lemma OneRound(q: nat, limit: nat, tr: seq<System>, k: nat) returns (tr': seq<System>)
    requires Head(q, limit, tr, k) && k < q
    ensures Head(q, limit, tr', k + 1)
  {
    tr' := BeginBoth(q, limit, tr, k);
    ghost var p := Now(tr').pool;
    tr' := SubmitBoth(Fan(q), Two(limit), tr', -1, q);
    hide ExecAt;
  }

  lemma {:induction false} ScanWaiting(q: nat, limit: nat, j: nat) returns (tr: seq<System>)
    requires j <= q
    ensures E.ValidConfig(Fan(q)) && EE.IsRun(Fan(q), Two(limit), tr)
    ensures ExecAt(q, Now(tr).exec, j, 0, []) && Now(tr).pool == P.Init(2, limit, 0, false)
  {
    var c := Fan(q);
    FanEdges(q);
    if j == 0 {
      forall t: nat ensures E.InDegree(c, t) == if t < q then 1 else 0 {
        FanCounters(q, t);
      }
      hide E.InDegree;
      tr := [Init(c, Two(limit))];
    } else {
      tr := ScanWaiting(q, limit, j - 1);
      tr := Go(c, Two(limit), tr, Sched(E.Scan));
    }
  }

  /** Task `q` is submitted to worker 0. */
  lemma SubmitFirst(q: nat, limit: nat) returns (tr: seq<System>)
    requires limit > 0
    ensures E.ValidConfig(Fan(q)) && EE.IsRun(Fan(q), Two(limit), tr)
    ensures ExecAt(q, Now(tr).exec, q + 1, 0, [E.Queued]) && PoolAt(Now(tr).pool, limit, 1, 0)
    ensures var x := Now(tr).pool.workers[0]; x.pc == P.AtLoop && x.queue == [P.Job(q, 0)]
  {
    var c := Fan(q);
    tr := ScanWaiting(q, limit, q);
    tr := Go(c, Two(limit), tr, Sched(E.Scan));
    tr := SubmitAlone(c, Two(limit), tr, -1);
    assert Now(tr).pool.pending == map[];
  }

  /** Worker 0 takes it, and its work ends. */
  lemma WorkFirst(q: nat, limit: nat) returns (tr: seq<System>)
    requires limit > 0
    ensures Head(q, limit, tr, 0)
  {
    var c := Fan(q);
    tr := SubmitFirst(q, limit);
    tr := Go(c, Two(limit), tr, Loop(0));
    tr := Go(c, Two(limit), tr, Loop(0));
    assert RunsOn(Now(tr).pool, 0, P.Job(q, 0));
    tr := Go(c, Two(limit), tr, Sched(E.EndWork(q, 0)));
  }

  lemma {:induction false} Rounds(q: nat, limit: nat, k: nat) returns (tr: seq<System>)
    requires limit > 0 && k <= q
    ensures Head(q, limit, tr, k)
  {
    if k == 0 {
      tr := WorkFirst(q, limit);
    } else {
      hide Head;
      tr := Rounds(q, limit, k - 1);
      tr := OneRound(q, limit, tr, k - 1);
    }
  }

  /**
   * The bound of one queue cannot be raised to all queues for the scheduler's own submissions either: for
   * every limit there is a graph, in a safe order, of at most three tasks more, and a run of it over two
   * workers in which a task is dropped, and which never returns.
   */
  lemma SchedulerDrops(limit: nat) returns (c: E.Config, tr: seq<System>)
    requires limit > 0
    ensures E.ValidConfig(c) && Acyclic(E.GraphOf(c)) && ER.SeedingSafe(c) && |c.succ| <= limit + 3
    ensures EE.IsRun(c, Two(limit), tr) && Now(tr).pool.refused != []
    ensures forall more :: EE.IsRun(c, Two(limit), more) && tr <= more ==> !Now(more).exec.returned
  {
    var q := limit / 2 + 1;
    c := Fan(q);
    FanIsSafe(q);
    tr := Rounds(q, limit, q);
    hide ER.SeedingSafe, ExecAt;
    forall more | EE.IsRun(c, Two(limit), more) && tr <= more ensures !Now(more).exec.returned {
      EE.RefusedForGood(c, Two(limit), more, |tr| - 1, |more| - 1);
      EE.ReturnsUnlessDropped(c, Two(limit), more);
    }
  }
}
