/**
 * The thread pool as a transition system: submission step by step (the unlocked test of `stop_`, the
 * unlocked index read, the push, the unlocked index update), the worker loop lock by lock, sleeping and
 * waking, and `stop()`.
 */
module PoolSystem {
  import opened Sums

  /** A submitted function, named by the task it runs and by how often that task was submitted before. */
  datatype Job = Job(task: nat, run: nat)

  /**
   * Where a worker's thread is: at the loop test, before its first lock, between unlocking to steal and
   * locking again, inside the wait with the lock still held, blocked, in a task, past the loop, ended.
   */
  datatype Pc = AtLoop | AtLock | AtRelock | Dozing | Asleep | Running(job: Job) | Leaving | Gone

  /** `accepted` and `ran` record history; `left` is how many had been accepted when the loop was left. */
  datatype Worker = Worker(queue: seq<Job>, pc: Pc, signalled: bool, accepted: seq<Job>, ran: seq<Job>, left: nat)

  datatype Stopper = NotStopping | StopSet | Waking(next: nat) | Stopped

  /**
   * How far a thread is in `ThreadPool::add_task`: past the test of `stop_`; decided on worker `w`; the
   * job pushed, or refused; the index read again, to be stored one higher.
   */
  datatype Stage = Passed | Aimed(w: nat) | Pushed | Loaded(idx: nat)

  datatype Submission = Submission(job: Job, stage: Stage)

  /**
   * `pending`: the submission each thread is in, by thread. With `atomic` nothing comes between reading
   * the index and storing it, which the source does not ensure. `late`: some submission was past its test
   * but had not reached a queue when `stop_` was set.
   */
  datatype Pool = Pool(workers: seq<Worker>, limit: nat, idx: nat, stop: bool, stopNum: nat, stopper: Stopper,
                       pending: map<int, Submission>, atomic: bool, late: bool, refused: seq<Job>, count: RoundRobin)

  /** Deliveries attempted so far, `round` times the number of workers and `offset` more, and at which worker. */
  datatype RoundRobin = RoundRobin(start: nat, round: nat, offset: nat, tries: seq<nat>)

  datatype Action = Admit(th: int, job: Job) | Deliver(th: int)
    | Choose(th: int) | Hand(th: int) | Load(th: int) | Store(th: int)
    | Work(w: nat) | Spurious(w: nat) | SetStop | LockStop | WakeNext | StopReturns

  // ----- one worker -----------------------------------------------------------------------

  function Pop(w: Worker): Worker
    requires w.queue != []
  {
    w.(queue := w.queue[1..], pc := Running(w.queue[0]), signalled := false)
  }

  function Leave(w: Worker): Worker {
    w.(pc := Leaving, signalled := false, left := |w.accepted|)
  }

  /** The worker's next step; each is one critical section or one unlocked read. */
  function Advance(w: Worker, stop: bool): Worker {
    match w.pc
    case AtLoop => if !stop || w.queue != [] then w.(pc := AtLock) else Leave(w)
    case AtLock => if w.queue == [] then w.(pc := AtRelock) else Pop(w)
    case AtRelock => if w.queue != [] then Pop(w) else if stop then Leave(w) else w.(pc := Dozing)
    case Dozing => w.(pc := Asleep)
    case Asleep => if w.queue != [] then Pop(w) else if stop then Leave(w) else w.(pc := Dozing, signalled := false)
    case Running(f) => w.(pc := AtLoop, ran := w.ran + [f])
    case Leaving => w.(pc := Gone)
    case Gone => w
  }

  /** A blocked worker moves only after a notification. */
  predicate CanAdvance(w: Worker) {
    w.pc != Gone && (w.pc == Asleep ==> w.signalled)
  }

  /** `Worker::add_task`: refused when full; the notification is sent only when the size becomes 1. */
  function Push(w: Worker, job: Job, limit: nat): Worker {
    if |w.queue| >= limit then w
    else
      var q := w.queue + [job];
      w.(queue := q, accepted := w.accepted + [job],
         signalled := w.signalled || (|q| == 1 && w.pc == Asleep))
  }

  // ----- the pool -------------------------------------------------------------------------

  predicate AtStage(p: Pool, th: int, stage: Stage) {
    th in p.pending && p.pending[th].stage == stage
  }

  /** A worker can take a push unless it holds its own lock. */
  predicate Reachable(p: Pool, w: nat) {
    w < |p.workers| && p.workers[w].pc != Dozing
  }

  /** A submission that has not yet met a queue. */
  predicate Unpushed(p: Pool, th: int) {
    th in p.pending && (p.pending[th].stage == Passed || p.pending[th].stage.Aimed?)
  }

  ghost predicate Enabled(p: Pool, a: Action) {
    match a
    case Admit(th, job) => !p.stop && th !in p.pending
    case Deliver(th) => p.atomic && AtStage(p, th, Passed) && Reachable(p, p.idx)
    case Choose(th) => !p.atomic && AtStage(p, th, Passed)
    case Hand(th) => th in p.pending && p.pending[th].stage.Aimed? && Reachable(p, p.pending[th].stage.w)
    case Load(th) => AtStage(p, th, Pushed)
    case Store(th) => th in p.pending && p.pending[th].stage.Loaded? && p.workers != []
    case Work(w) => w < |p.workers| && CanAdvance(p.workers[w])
    case Spurious(w) => w < |p.workers| && p.workers[w].pc == Asleep && !p.workers[w].signalled
    case SetStop => p.stopper == NotStopping
    case LockStop => p.stopper == StopSet
    case WakeNext => p.stopper.Waking? && p.stopper.next < |p.workers|
    case StopReturns => p.stopper == Waking(|p.workers|) && p.stopNum == |p.workers|
  }

  function SetWorker(p: Pool, w: nat, worker: Worker): Pool
    requires w < |p.workers|
  {
    p.(workers := p.workers[w := worker])
  }

  function NextCount(c: RoundRobin, w: nat, workers: nat): RoundRobin
    requires w < |c.tries|
  {
    var t := c.tries[w := c.tries[w] + 1];
    if c.offset + 1 == workers then c.(round := c.round + 1, offset := 0, tries := t)
    else c.(offset := c.offset + 1, tries := t)
  }

  /** One job meets the queue of worker `w`. */
  function PushTo(p: Pool, job: Job, w: nat): Pool
    requires w < |p.workers| == |p.count.tries|
  {
    var x := p.workers[w];
    SetWorker(p, w, Push(x, job, p.limit)).(
      refused := if |x.queue| >= p.limit then p.refused + [job] else p.refused,
      count := NextCount(p.count, w, |p.workers|))
  }

  /** The whole of `ThreadPool::add_task` after its test, undisturbed. */
  function DeliverTo(p: Pool, job: Job): Pool
    requires p.idx < |p.workers| == |p.count.tries|
  {
    PushTo(p, job, p.idx).(idx := (p.idx + 1) % |p.workers|)
  }

  function SetStage(p: Pool, th: int, stage: Stage): Pool
    requires th in p.pending
  {
    p.(pending := p.pending[th := p.pending[th].(stage := stage)])
  }

  function Done(p: Pool, th: int): Pool {
    p.(pending := p.pending - {th})
  }

  ghost function Apply(p: Pool, a: Action): Pool
    requires Enabled(p, a) && |p.count.tries| == |p.workers|
  {
    match a
    case Admit(th, job) => p.(pending := p.pending[th := Submission(job, Passed)])
    case Deliver(th) => DeliverTo(Done(p, th), p.pending[th].job)
    case Choose(th) => SetStage(p, th, Aimed(p.idx))
    case Hand(th) => PushTo(SetStage(p, th, Pushed), p.pending[th].job, p.pending[th].stage.w)
    case Load(th) => SetStage(p, th, Loaded(p.idx))
    case Store(th) => Done(p, th).(idx := (p.pending[th].stage.idx + 1) % |p.workers|)
    case Work(w) =>
      SetWorker(p, w, Advance(p.workers[w], p.stop)).(
        stopNum := if p.workers[w].pc == Leaving then p.stopNum + 1 else p.stopNum)
    case Spurious(w) => SetWorker(p, w, Advance(p.workers[w], p.stop))
    case SetStop => p.(stop := true, stopper := StopSet, late := exists th :: Unpushed(p, th))
    case LockStop => p.(stopper := Waking(0))
    case WakeNext =>
      SetWorker(p, p.stopper.next, Notified(p.workers[p.stopper.next])).(stopper := Waking(p.stopper.next + 1))
    case StopReturns => p.(stopper := Stopped)
  }

  /** `notify_one` on the worker's condition variable. */
  function Notified(w: Worker): Worker {
    w.(signalled := w.signalled || w.pc == Asleep)
  }

  /** Undisturbed, the single steps of a submission amount to the delivery in one step. */
  lemma UndisturbedIsDelivery(p: Pool, th: int)
    requires !p.atomic && AtStage(p, th, Passed) && Reachable(p, p.idx) && |p.count.tries| == |p.workers|
    ensures var q := Apply(p, Choose(th));
      && Enabled(q, Hand(th))
      && Enabled(Apply(q, Hand(th)), Load(th))
      && Enabled(Apply(Apply(q, Hand(th)), Load(th)), Store(th))
      && Apply(Apply(Apply(q, Hand(th)), Load(th)), Store(th)) == DeliverTo(Done(p, th), p.pending[th].job)
  {
    var q := Apply(Apply(Apply(p, Choose(th)), Hand(th)), Load(th));
    assert q.pending - {th} == p.pending - {th};
  }

  function NewWorker(): Worker {
    Worker([], AtLoop, false, [], [], 0)
  }

  function Init(workers: nat, limit: nat, start: nat, atomic: bool): Pool {
    Pool(seq(workers, _ => NewWorker()), limit, start, false, 0, NotStopping, map[], atomic, false, [],
         RoundRobin(start, 0, 0, seq(workers, _ => 0)))
  }

  // ----- the invariant --------------------------------------------------------------------

  function InFlight(w: Worker): seq<Job> {
    if w.pc.Running? then [w.pc.job] else []
  }

  predicate HasLeft(w: Worker) {
    w.pc == Leaving || w.pc == Gone
  }

  /** Conservation and order, the length bound, and no lost wake-up. */
  predicate WorkerInv(w: Worker, limit: nat) {
    && w.accepted == w.ran + InFlight(w) + w.queue
    && |w.queue| <= limit
    && (w.signalled ==> w.pc == Asleep)
    && (w.pc == Asleep && !w.signalled ==> w.queue == [])
    && (w.pc == Dozing ==> w.queue == [])
    && (HasLeft(w) ==> w.left <= |w.accepted| && w.ran == w.accepted[..w.left])
  }

  /** How the worker stands to the rest of the pool. */
  predicate StopInv(w: Worker, stop: bool, late: bool) {
    && (HasLeft(w) ==> stop && (!late ==> w.left == |w.accepted|))
    && (w.signalled ==> stop || w.queue != [])
  }

  ghost function GoneCount(workers: seq<Worker>): nat -> int {
    (i: nat) => if i < |workers| && workers[i].pc == Gone then 1 else 0
  }

  /** The distance from the starting worker, going round. */
  function Offset(start: nat, w: nat, workers: nat): int {
    if w >= start then w - start else w + workers - start
  }

  /** How many deliveries have been attempted. */
  ghost function Delivered(p: Pool): nat {
    p.count.round * |p.workers| + p.count.offset
  }

  /** No worker has accepted more than was tried on it, nor been tried more often than all together. */
  ghost predicate CountInv(p: Pool) {
    && p.count.start < |p.workers| && p.count.offset < |p.workers| == |p.count.tries| && p.idx < |p.workers|
    && forall w :: 0 <= w < |p.workers| ==> |p.workers[w].accepted| <= p.count.tries[w] <= Delivered(p)
  }

  /** With atomic deliveries the workers take strict turns. */
  ghost predicate RoundInv(p: Pool) {
    var c, n := p.count, |p.workers|;
    && c.start < n && c.offset < n && |c.tries| == n
    && p.idx == (if c.start + c.offset < n then c.start + c.offset else c.start + c.offset - n)
    && forall w :: 0 <= w < n ==> c.tries[w] == c.round + (if Offset(c.start, w, n) < c.offset then 1 else 0)
  }

  ghost predicate PendingInv(p: Pool) {
    && (forall th :: th in p.pending ==> (p.pending[th].stage.Aimed? ==> p.pending[th].stage.w < |p.workers|))
    && (p.atomic ==> forall th :: th in p.pending ==> p.pending[th].stage == Passed)
    && (p.stop && !p.late ==> forall th :: !Unpushed(p, th))
  }

  ghost predicate Inv(p: Pool) {
    && CountInv(p) && (p.atomic ==> RoundInv(p)) && PendingInv(p)
    && (forall w :: 0 <= w < |p.workers| ==> WorkerInv(p.workers[w], p.limit) && StopInv(p.workers[w], p.stop, p.late))
    && p.stopNum == SumTo(GoneCount(p.workers), |p.workers|)
    && (p.stopper != NotStopping <==> p.stop)
    && (p.stopper.Waking? ==> p.stopper.next <= |p.workers|)
    && (p.stopper == Stopped ==> p.stopNum == |p.workers|)
  }

  lemma InitHolds(workers: nat, limit: nat, start: nat, atomic: bool)
    requires start < workers
    ensures Inv(Init(workers, limit, start, atomic)) && Delivered(Init(workers, limit, start, atomic)) == 0
  {
    var p := Init(workers, limit, start, atomic);
    SumConstant(GoneCount(p.workers), workers, 0);
  }

  lemma PopKeeps(w: Worker, limit: nat, stop: bool, late: bool)
    requires WorkerInv(w, limit) && !w.pc.Running? && !HasLeft(w) && w.queue != []
    ensures WorkerInv(Pop(w), limit) && StopInv(Pop(w), stop, late)
  {
    assert w.queue == [w.queue[0]] + w.queue[1..];
    assert w.ran + [] + w.queue == w.ran + [w.queue[0]] + w.queue[1..];
  }

  lemma LeaveKeeps(w: Worker, limit: nat, late: bool)
    requires WorkerInv(w, limit) && !w.pc.Running? && w.queue == []
    ensures WorkerInv(Leave(w), limit) && StopInv(Leave(w), true, late)
  {
    assert w.accepted == w.ran == w.accepted[..|w.accepted|];
  }

  lemma FinishKeeps(w: Worker, limit: nat, stop: bool, late: bool)
    requires WorkerInv(w, limit) && w.pc.Running?
    ensures WorkerInv(Advance(w, stop), limit) && StopInv(Advance(w, stop), stop, late)
  {
    assert w.ran + [w.pc.job] + w.queue == w.ran + [w.pc.job] + [] + w.queue;
  }

  lemma AdvanceKeeps(w: Worker, limit: nat, stop: bool, late: bool)
    requires WorkerInv(w, limit) && StopInv(w, stop, late)
    ensures WorkerInv(Advance(w, stop), limit) && StopInv(Advance(w, stop), stop, late)
    ensures Advance(w, stop).accepted == w.accepted
  {
    if w.pc.Running? {
      FinishKeeps(w, limit, stop, late);
    } else if !HasLeft(w) {
      if w.queue != [] {
        PopKeeps(w, limit, stop, late);
      } else {
        LeaveKeeps(w, limit, late);
      }
    }
  }

  lemma PushKeeps(w: Worker, job: Job, limit: nat, stop: bool, late: bool)
    requires WorkerInv(w, limit) && StopInv(w, stop, late) && w.pc != Dozing && (stop ==> late)
    ensures WorkerInv(Push(w, job, limit), limit) && StopInv(Push(w, job, limit), stop, late)
    ensures |Push(w, job, limit).accepted| <= |w.accepted| + 1
  {
    var w' := Push(w, job, limit);
    assert w.ran + InFlight(w) + (w.queue + [job]) == w.ran + InFlight(w) + w.queue + [job];
    if HasLeft(w) {
      assert w'.accepted[..w.left] == w.accepted[..w.left];
    }
  }

  lemma GoneUpdate(workers: seq<Worker>, i: nat, w: Worker)
    requires i < |workers|
    ensures SumTo(GoneCount(workers[i := w]), |workers|)
      == SumTo(GoneCount(workers), |workers|) - GoneCount(workers)(i) + GoneCount(workers[i := w])(i)
  {
    SumUpdate(GoneCount(workers), GoneCount(workers[i := w]), |workers|, i);
  }

  /** The two ways of moving the index, by remainder and by distance, agree. */
  lemma IndexMoves(p: Pool)
    requires RoundInv(p)
    ensures Offset(p.count.start, p.idx, |p.workers|) == p.count.offset && p.idx < |p.workers|
    ensures (p.idx + 1) % |p.workers| == if p.idx + 1 == |p.workers| then 0 else p.idx + 1
  {
  }

  lemma DeliverKeepsRound(p: Pool, job: Job)
    requires RoundInv(p)
    ensures RoundInv(DeliverTo(p, job))
  {
    hide Push;
    IndexMoves(p);
  }

  lemma PushCounts(p: Pool, job: Job, w: nat)
    requires p.count.offset < |p.workers| == |p.count.tries| && w < |p.workers|
    ensures Delivered(PushTo(p, job, w)) == Delivered(p) + 1
  {
    hide Push;
    var n, r := |p.workers|, p.count.round;
    assert (r + 1) * n == r * n + n;
  }

  lemma PushKeepsCount(p: Pool, job: Job, w: nat)
    requires CountInv(p) && w < |p.workers|
    requires |Push(p.workers[w], job, p.limit).accepted| <= |p.workers[w].accepted| + 1
    ensures CountInv(PushTo(p, job, w))
  {
    PushCounts(p, job, w);
    hide Push, Delivered;
  }

  /** A push into a queue whose worker does not hold its lock keeps all that concerns the workers. */
  lemma PushKeepsWorkers(p: Pool, job: Job, w: nat)
    requires Inv(p) && Reachable(p, w) && (p.stop ==> p.late)
    ensures var q := PushTo(p, job, w);
      && CountInv(q) && q.stopNum == SumTo(GoneCount(q.workers), |q.workers|)
      && forall v :: 0 <= v < |q.workers| ==> WorkerInv(q.workers[v], q.limit) && StopInv(q.workers[v], q.stop, q.late)
  {
    hide SumTo, WorkerInv, StopInv, RoundInv, PendingInv;
    PushKeeps(p.workers[w], job, p.limit, p.stop, p.late);
    PushKeepsCount(p, job, w);
    hide CountInv;
    GoneUpdate(p.workers, w, Push(p.workers[w], job, p.limit));
  }

  predicate SameTurns(p: Pool, q: Pool) {
    && q.atomic == p.atomic && q.count == p.count && q.idx == p.idx && |q.workers| == |p.workers|
    && forall w :: 0 <= w < |p.workers| ==> q.workers[w].accepted == p.workers[w].accepted
  }

  /** Steps that deliver nothing leave the counts and the turns alone. */
  lemma SameTurnsKeep(p: Pool, q: Pool)
    requires CountInv(p) && (p.atomic ==> RoundInv(p)) && SameTurns(p, q)
    ensures CountInv(q) && (q.atomic ==> RoundInv(q)) && Delivered(q) == Delivered(p)
  {
  }

  lemma FewerPendingKeep(p: Pool, q: Pool)
    requires PendingInv(p) && q.atomic == p.atomic && q.stop == p.stop && q.late == p.late && |q.workers| == |p.workers|
    requires forall th :: th in q.pending ==> th in p.pending && q.pending[th] == p.pending[th]
    ensures PendingInv(q)
  {
    assert forall th :: Unpushed(q, th) ==> Unpushed(p, th);
  }

  lemma DeliverStepKeepsInv(p: Pool, th: int)
    requires Inv(p) && Enabled(p, Deliver(th))
    ensures Inv(Apply(p, Deliver(th)))
  {
    hide SumTo, WorkerInv, StopInv;
    assert Unpushed(p, th);
    PushKeepsWorkers(p, p.pending[th].job, p.idx);
    DeliverKeepsRound(p, p.pending[th].job);
    IndexMoves(p);
    FewerPendingKeep(p, Apply(p, Deliver(th)));
    hide PendingInv, RoundInv, Delivered;
    DeliverSame(p, th);
  }

  /** Which submission a delivery ends makes no difference to the workers. */
  lemma DeliverSame(p: Pool, th: int)
    requires Enabled(p, Deliver(th)) && |p.count.tries| == |p.workers| && RoundInv(DeliverTo(p, p.pending[th].job))
    ensures var q, r := Apply(p, Deliver(th)), DeliverTo(p, p.pending[th].job);
      q == r.(pending := q.pending) && RoundInv(q)
  {
    hide Push, NextCount;
  }

  lemma HandStepKeepsInv(p: Pool, th: int)
    requires Inv(p) && Enabled(p, Hand(th))
    ensures Inv(Apply(p, Hand(th)))
  {
    hide SumTo, WorkerInv, StopInv;
    assert Unpushed(p, th);
    PushKeepsWorkers(p, p.pending[th].job, p.pending[th].stage.w);
    var q := Apply(p, Hand(th));
    assert forall c :: Unpushed(q, c) ==> Unpushed(p, c);
    hide RoundInv, Delivered;
    HandSame(p, th);
  }

  lemma HandSame(p: Pool, th: int)
    requires CountInv(p) && Enabled(p, Hand(th)) && CountInv(PushTo(p, p.pending[th].job, p.pending[th].stage.w))
    ensures var q, r := Apply(p, Hand(th)), PushTo(p, p.pending[th].job, p.pending[th].stage.w);
      q == r.(pending := q.pending) && CountInv(q)
  {
    hide Push, NextCount;
  }

  lemma SubmissionStepKeepsInv(p: Pool, a: Action)
    requires Inv(p) && Enabled(p, a) && (a.Admit? || a.Choose? || a.Load? || a.Store?)
    ensures Inv(Apply(p, a))
  {
    hide SumTo, WorkerInv, StopInv;
    if a.Store? {
      assert CountInv(Apply(p, a)) && Delivered(Apply(p, a)) == Delivered(p);
    } else {
      SameTurnsKeep(p, Apply(p, a));
    }
    hide RoundInv, CountInv, Delivered;
    if !a.Admit? {
      assert forall c :: Unpushed(Apply(p, a), c) ==> Unpushed(p, c);
    }
  }

  lemma WorkerStepKeepsInv(p: Pool, w: nat)
    requires Inv(p) && w < |p.workers|
    requires p.workers[w].pc != Gone
    ensures Inv(SetWorker(p, w, Advance(p.workers[w], p.stop)).(
      stopNum := if p.workers[w].pc == Leaving then p.stopNum + 1 else p.stopNum))
  {
    hide SumTo, WorkerInv, StopInv, RoundInv, CountInv, Delivered;
    AdvanceKeeps(p.workers[w], p.limit, p.stop, p.late);
    GoneUpdate(p.workers, w, Advance(p.workers[w], p.stop));
    if p.stopper == Stopped {
      AllGone(p, w);
    }
    var q := SetWorker(p, w, Advance(p.workers[w], p.stop)).(
      stopNum := if p.workers[w].pc == Leaving then p.stopNum + 1 else p.stopNum);
    SameTurnsKeep(p, q);
    FewerPendingKeep(p, q);
    hide PendingInv, SameTurns;
  }

  lemma {:induction false} FullSum(f: nat -> int, n: nat, i: nat)
    requires i < n && SumTo(f, n) >= n && forall j: nat :: j < n ==> f(j) <= 1
    ensures f(i) == 1
  {
    if n > 0 {
      SumAtMost(f, n - 1);
      if i < n - 1 {
        FullSum(f, n - 1, i);
      }
    }
  }

  lemma {:induction false} SumAtMost(f: nat -> int, n: nat)
    requires forall j: nat :: j < n ==> f(j) <= 1
    ensures SumTo(f, n) <= n
  {
    if n > 0 {
      SumAtMost(f, n - 1);
    }
  }

  lemma AllGone(p: Pool, w: nat)
    requires Inv(p) && p.stopNum == |p.workers| && w < |p.workers|
    ensures p.workers[w].pc == Gone
  {
    FullSum(GoneCount(p.workers), |p.workers|, w);
  }

  lemma WakeKeepsInv(p: Pool)
    requires Inv(p) && Enabled(p, WakeNext)
    ensures Inv(Apply(p, WakeNext))
  {
    hide SumTo, RoundInv, Delivered;
    var q := Apply(p, WakeNext);
    GoneUpdate(p.workers, p.stopper.next, Notified(p.workers[p.stopper.next]));
    SameTurnsKeep(p, q);
    FewerPendingKeep(p, q);
    hide CountInv, PendingInv, SameTurns;
  }

  lemma StopStepKeepsInv(p: Pool, a: Action)
    requires Inv(p) && Enabled(p, a) && (a.SetStop? || a.LockStop? || a.StopReturns?)
    ensures Inv(Apply(p, a))
  {
    hide SumTo, WorkerInv, RoundInv, Delivered;
    var q := Apply(p, a);
    SameTurnsKeep(p, q);
    hide CountInv;
    assert forall th :: Unpushed(q, th) <==> Unpushed(p, th);
  }

  lemma LoopStepKeepsInv(p: Pool, a: Action)
    requires Inv(p) && Enabled(p, a) && (a.Work? || a.Spurious?)
    ensures Inv(Apply(p, a))
  {
    assert CountInv(p);
    hide CountInv, RoundInv, WorkerInv, StopInv, PendingInv, SumTo, Advance;
    WorkerStepKeepsInv(p, a.w);
    hide Inv;
  }

  lemma StepKeepsInv(p: Pool, a: Action)
    requires Inv(p) && Enabled(p, a)
    ensures Inv(Apply(p, a))
  {
    hide Inv;
    match a
    case Deliver(th) => DeliverStepKeepsInv(p, th);
    case Hand(th) => HandStepKeepsInv(p, th);
    case Work(w) => LoopStepKeepsInv(p, a);
    case Spurious(w) => LoopStepKeepsInv(p, a);
    case WakeNext => WakeKeepsInv(p);
    case SetStop => StopStepKeepsInv(p, a);
    case LockStop => StopStepKeepsInv(p, a);
    case StopReturns => StopStepKeepsInv(p, a);
    case _ => SubmissionStepKeepsInv(p, a);
  }
}
