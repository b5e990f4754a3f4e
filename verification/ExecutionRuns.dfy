/** What holds of every run of one `execute()`: order, exactly once, termination, and the seeding race. */
module ExecutionRuns {
  import opened Graphs
  import opened Sums
  import opened Execution

  // ----- when the seeding scan is safe ----------------------------------------------------

  /** A cycle leads to `t`, or `t` is on one: it waits for itself. */
  ghost predicate Blocked(c: Config, t: nat) {
    exists u: nat :: Reach(GraphOf(c), u, u) && Reach(GraphOf(c), u, t)
  }

  /** A task with predecessors, not waiting for itself, with no root above it that was added after it. */
  ghost predicate Unsafe(c: Config, t: nat) {
    && t < |c.succ| && !Root(c, t) && !Blocked(c, t)
    && forall r: nat :: t < r < |c.succ| && Root(c, r) ==> !Reach(GraphOf(c), r, t)
  }

  /**
   * The scan reads counters while earlier seeds may already run. It cannot meet a counter that a
   * run has brought to zero if each task with predecessors has a root above it added after it, or waits
   * for itself.
   */
  ghost predicate SafeOrder(c: Config) {
    forall t: nat :: !Unsafe(c, t)
  }

  ghost predicate SeedingSafe(c: Config) {
    c.atomicSeed || SafeOrder(c)
  }

  lemma GraphIsClosed(c: Config)
    requires ValidConfig(c)
    ensures Closed(GraphOf(c))
    ensures forall p: nat, t: nat :: Edge(GraphOf(c), p, t) <==> Precedes(c, p, t)
  {
  }

  /** While nothing has run, a counter at zero is a root's. */
  lemma FreshZeroIsRoot(c: Config, s: State, t: nat)
    requires Inv(c, s) && s.log == [] && t < |c.succ| && s.cond[t] == 0
    ensures Root(c, t)
  {
    hide Unnotified, Left;
    forall p: nat ensures !Precedes(c, p, t) {
      if Precedes(c, p, t) {
        assert Ended(p) !in s.log;
        UnstartedBlocks(c, s, p, t);
      }
    }
  }

  lemma NotYetScanned(c: Config, b: State)
    requires Inv(c, b) && b.scan < |c.succ| && Root(c, b.scan)
    ensures b.runs[b.scan] == []
  {
    hide Unnotified, Left;
  }

  lemma OneAtMost(c: Config, s: State, t: nat)
    requires Inv(c, s) && t < |c.succ|
    ensures |s.runs[t]| <= 1
  {
  }

  /** Below a task that has not been submitted every counter is positive. */
  lemma {:induction false} UnsubmittedBlocks(c: Config, s: State, r: nat, p: seq<nat>)
    requires ValidConfig(c) && Inv(c, s) && r < |c.succ| && s.runs[r] == []
    requires IsPath(GraphOf(c), p) && p[0] == r
    ensures Last2(p) < |c.succ| && s.cond[Last2(p)] >= 1
    decreases |p|
  {
    hide Unnotified, Left;
    var u, v := p[|p| - 2], p[|p| - 1];
    GraphIsClosed(c);
    assert Edge(GraphOf(c), u, v);
    if |p| > 2 {
      var q := p[..|p| - 1];
      forall i | 0 <= i < |q| - 1 ensures Edge(GraphOf(c), q[i], q[i + 1]) {
        assert q[i] == p[i] && q[i + 1] == p[i + 1];
      }
      UnsubmittedBlocks(c, s, r, q);
    }
    assert s.runs[u] == [];
    UnstartedBlocks(c, s, u, v);
  }

  ghost function Last2(p: seq<nat>): nat
    requires p != []
  {
    p[|p| - 1]
  }

  lemma ScanFindsRoots(c: Config, s: State)
    requires ValidConfig(c) && SeedingSafe(c) && Inv(c, s) && s.scan < |c.succ| && s.cond[s.scan] == 0
    ensures Root(c, s.scan)
  {
    hide Unnotified, Left;
    if c.atomicSeed {
      FreshZeroIsRoot(c, s, s.scan);
    } else if !Root(c, s.scan) {
      ScanFindsUnsafe(c, s);
    }
  }

  /** The one kind of task with predecessors that the scan can meet at zero. */
  lemma ScanFindsUnsafe(c: Config, s: State)
    requires ValidConfig(c) && Inv(c, s) && s.scan < |c.succ| && s.cond[s.scan] == 0 && !Root(c, s.scan)
    ensures Unsafe(c, s.scan)
  {
    hide Unnotified, Left;
    if Blocked(c, s.scan) {
      BlockedWaits(c, s, s.scan);
    }
    forall r: nat | s.scan < r < |c.succ| && Root(c, r) ensures !Reach(GraphOf(c), r, s.scan) {
      if Reach(GraphOf(c), r, s.scan) {
        var p :| Joins(GraphOf(c), p, r, s.scan);
        UnsubmittedBlocks(c, s, r, p);
      }
    }
  }

  /** Below a cycle no work ever ends. */
  lemma NeverEnds(c: Config, log: seq<Event>, u: nat, w: nat)
    requires ValidConfig(c) && NoEventTwice(log) && Ordered(c, log)
    requires Reach(GraphOf(c), u, u) && Reach(GraphOf(c), u, w)
    ensures Ended(w) !in log
  {
    if Ended(w) in log {
      var l :| 0 <= l < |log| && log[l] == Ended(w);
      var j: nat :| j < l && log[j] == Began(w);
      var p: seq<nat> :| Joins(GraphOf(c), p, u, w);
      AncestorsEndFirst(c, log, p, j);
      var i :| 0 <= i < j && log[i] == Ended(u);
      var b: nat :| b < i && log[b] == Began(u);
      var q: seq<nat> :| Joins(GraphOf(c), q, u, u);
      AncestorsEndFirst(c, log, q, b);
    }
  }

  /** A task that waits for itself is never submitted: its counter stays positive. */
  lemma BlockedWaits(c: Config, s: State, t: nat)
    requires ValidConfig(c) && Inv(c, s) && t < |c.succ| && Blocked(c, t)
    ensures s.cond[t] >= 1 && s.runs[t] == []
  {
    hide Unnotified, Left;
    var g := GraphOf(c);
    GraphIsClosed(c);
    var u: nat :| Reach(g, u, u) && Reach(g, u, t);
    var w := LastEdge(g, u, t);
    NeverEnds(c, s.log, u, w);
    UnstartedBlocks(c, s, w, t);
  }

  lemma FreeOfCycles(c: Config, t: nat)
    requires Acyclic(GraphOf(c))
    ensures !Blocked(c, t)
  {
  }

  lemma AboveIsFree(c: Config, p: nat, t: nat)
    requires ValidConfig(c) && !Blocked(c, t) && Reach(GraphOf(c), p, t)
    ensures !Blocked(c, p) && !Reach(GraphOf(c), p, p)
  {
    if u: nat :| Reach(GraphOf(c), u, u) && Reach(GraphOf(c), u, p) {
      ReachTransitive(GraphOf(c), u, p, t);
    }
  }

  /** The invariant in every reachable state. */
  lemma {:induction false} RunsKeepInv(c: Config, tr: seq<State>, i: nat)
    requires ValidConfig(c) && SeedingSafe(c) && IsRun(c, tr) && i < |tr|
    ensures Inv(c, tr[i])
  {
    hide CountInv, LogInv;
    if i == 0 {
      InitHolds(c);
    } else {
      RunsKeepInv(c, tr, i - 1);
      assert Step(c, tr[i - 1], tr[i - 1 + 1]);
      SafeStepKeepsInv(c, tr[i - 1], tr[i]);
    }
  }

  lemma SafeStepKeepsInv(c: Config, s: State, s': State)
    requires ValidConfig(c) && SeedingSafe(c) && Inv(c, s) && Step(c, s, s')
    ensures Inv(c, s')
  {
    hide CountInv, LogInv;
    var a :| Enabled(c, s, a) && s' == Apply(c, s, a);
    if a.Scan? && s.cond[s.scan] == 0 {
      ScanFindsRoots(c, s);
    }
    StepKeepsInv(c, s, a);
  }

  // ----- safety ---------------------------------------------------------------------------

  /** Each counter is the number of precede edges, duplicates counted, not yet notified. */
  lemma CountersExact(c: Config, tr: seq<State>, i: nat, t: nat)
    requires ValidConfig(c) && SeedingSafe(c) && IsRun(c, tr) && i < |tr| && t < |c.succ|
    ensures |tr[i].cond| == |c.succ| && tr[i].cond[t] == Unnotified(c, tr[i].runs, t)
    ensures tr[i].wait == Left(c, tr[i].runs)
  {
    hide Unnotified, Left;
    RunsKeepInv(c, tr, i);
  }

  lemma {:induction false} AncestorsEndFirst(c: Config, log: seq<Event>, p: seq<nat>, j: nat)
    requires ValidConfig(c) && Ordered(c, log)
    requires IsPath(GraphOf(c), p) && j < |log| && log[j] == Began(Last2(p))
    ensures Ended(p[0]) in log[..j]
    decreases |p|
  {
    var u, v := p[|p| - 2], p[|p| - 1];
    GraphIsClosed(c);
    assert Edge(GraphOf(c), u, v);
    assert Precedes(c, u, log[j].task);
    if |p| > 2 {
      var q := p[..|p| - 1];
      forall i | 0 <= i < |q| - 1 ensures Edge(GraphOf(c), q[i], q[i + 1]) {
        assert q[i] == p[i] && q[i + 1] == p[i + 1];
      }
      var l :| 0 <= l < j && log[l] == Ended(u);
      var b :| 0 <= b < l && log[b] == Began(u);
      AncestorsEndFirst(c, log, q, b);
      assert log[..b] <= log[..j];
    }
  }

  /** No task's work begins before the work of all its direct and indirect predecessors has ended. */
  lemma DependencySafety(c: Config, tr: seq<State>, i: nat, j: nat, p: nat, t: nat)
    requires ValidConfig(c) && SeedingSafe(c) && IsRun(c, tr) && i < |tr|
    requires j < |tr[i].log| && tr[i].log[j] == Began(t) && Reach(GraphOf(c), p, t)
    ensures Ended(p) in tr[i].log[..j]
  {
    hide CountInv;
    RunsKeepInv(c, tr, i);
    var path :| Joins(GraphOf(c), path, p, t);
    AncestorsEndFirst(c, tr[i].log, path, j);
  }

  lemma AllCounted(c: Config, s: State, t: nat)
    requires Inv(c, s) && s.wait == 0 && t < |c.succ|
    ensures s.runs[t] == [Done]
  {
    SumBounds(Open(s.runs), |c.succ|, t);
  }

  /** No work runs twice, and once `execute()` has returned every task's work began and ended once. */
  lemma ExactlyOnce(c: Config, tr: seq<State>, i: nat)
    requires ValidConfig(c) && SeedingSafe(c) && IsRun(c, tr) && i < |tr|
    ensures NoEventTwice(tr[i].log)
    ensures tr[i].returned ==> forall t: nat :: t < |c.succ| ==> Began(t) in tr[i].log && Ended(t) in tr[i].log
  {
    hide Unnotified, Left;
    RunsKeepInv(c, tr, i);
    var s := tr[i];
    if s.returned {
      forall t: nat | t < |c.succ| ensures Began(t) in s.log && Ended(t) in s.log {
        AllCounted(c, s, t);
      }
    }
  }

  // ----- progress -------------------------------------------------------------------------

  /** Every root from which `t` is reached, `t` included, has been passed by the scan. */
  ghost predicate RootsSeeded(c: Config, s: State, t: nat) {
    && (Root(c, t) ==> t < s.scan)
    && forall r: nat :: r < |c.succ| && Root(c, r) && Reach(GraphOf(c), r, t) ==> r < s.scan
  }

  ghost predicate IsTaskAction(a: Action) {
    !a.Scan? && !a.Return?
  }

  lemma PhaseCanMove(c: Config, s: State, t: nat) returns (a: Action)
    requires Inv(c, s) && PastSeeding(c, s) && t < |c.succ| && s.runs[t] != [] && s.runs[t] != [Done]
    ensures Enabled(c, s, a) && IsTaskAction(a) && a.t == t
  {
    hide Unnotified, Left, Counters;
    assert s.runs[t] == [s.runs[t][0]];
    match s.runs[t][0]
    case Queued => a := Begin(t, 0);
    case Working => a := EndWork(t, 0);
    case Notifying(i) => a := if i < |c.succ[t]| then Notify(t, 0) else Count(t, 0);
    case Done => a := Return;
  }

  /** A positive counter is due to a predecessor that is not done. */
  lemma BlockerOf(c: Config, s: State, t: nat) returns (p: nat)
    requires CountInv(c, s) && t < |c.succ| && s.cond[t] != 0
    ensures Precedes(c, p, t) && s.runs[p] != [Done]
  {
    SumNonNegative(PendingFrom(c, s.runs, t), |c.succ|);
    p := SumWitness(PendingFrom(c, s.runs, t), |c.succ|);
    CountFromZero(c.succ[p], t, Notified(s.runs[p], |c.succ[p]|));
  }

  /** Somewhere at or above an unfinished task whose roots are seeded, a task can move. */
  lemma {:induction false} SomethingMoves(c: Config, s: State, t: nat) returns (a: Action)
    requires ValidConfig(c) && !Blocked(c, t) && Inv(c, s) && PastSeeding(c, s)
    requires t < |c.succ| && s.runs[t] != [Done] && RootsSeeded(c, s, t)
    ensures Enabled(c, s, a) && IsTaskAction(a) && (a.t == t || Reach(GraphOf(c), a.t, t))
    decreases Above(GraphOf(c), t)
  {
    hide Unnotified, Left, Counters, Blocked;
    if s.runs[t] != [] {
      a := PhaseCanMove(c, s, t);
    } else {
      var g := GraphOf(c);
      GraphIsClosed(c);
      var p := BlockerOf(c, s, t);
      assert Edge(g, p, t);
      EdgeReaches(g, p, t);
      AboveIsFree(c, p, t);
      AboveShrinks(g, p, t);
      forall r: nat | r < |c.succ| && Root(c, r) && Reach(g, r, p) ensures r < s.scan {
        ReachTransitive(g, r, p, t);
      }
      a := SomethingMoves(c, s, p);
      if a.t != p {
        ReachTransitive(g, a.t, p, t);
      }
    }
  }

  /** Until `execute()` returns, some step is enabled. */
  lemma Progress(c: Config, s: State) returns (a: Action)
    requires ValidConfig(c) && Acyclic(GraphOf(c)) && Inv(c, s) && !s.returned
    ensures Enabled(c, s, a)
  {
    hide Unnotified, Left, Counters;
    if s.scan < |c.succ| {
      a := Scan;
    } else if s.wait == 0 {
      a := Return;
    } else {
      var t := SomeOpenTask(c, s);
      FreeOfCycles(c, t);
      a := SomethingMoves(c, s, t);
    }
  }

  lemma SomeOpenTask(c: Config, s: State) returns (t: nat)
    requires CountInv(c, s) && s.wait != 0
    ensures t < |c.succ| && s.runs[t] != [Done]
  {
    SumNonNegative(Open(s.runs), |c.succ|);
    t := SumWitness(Open(s.runs), |c.succ|);
  }

  // ----- termination ----------------------------------------------------------------------

  /** What a task still has to do, its submission included. */
  function WorkLeft(run: seq<Phase>, all: nat): int {
    if run == [] then all + 4
    else match run[0]
      case Queued => all + 3
      case Working => all + 2
      case Notifying(i) => all - i + 1
      case Done => 0
  }

  ghost function WorkOf(c: Config, runs: seq<seq<Phase>>): nat -> int {
    (p: nat) => if p < |c.succ| && p < |runs| then WorkLeft(runs[p], |c.succ[p]|) else 0
  }

  ghost function TaskWork(c: Config, runs: seq<seq<Phase>>): int {
    SumTo(WorkOf(c, runs), |c.succ|)
  }

  ghost function Measure(c: Config, s: State): int {
    TaskWork(c, s.runs) + (|c.succ| - s.scan) + (if s.returned then 0 else 1)
  }

  lemma WorkUpdate(c: Config, runs: seq<seq<Phase>>, t: nat, run: seq<Phase>)
    requires t < |runs| == |c.succ|
    ensures TaskWork(c, runs[t := run])
      == TaskWork(c, runs) - WorkLeft(runs[t], |c.succ[t]|) + WorkLeft(run, |c.succ[t]|)
  {
    SumUpdate(WorkOf(c, runs), WorkOf(c, runs[t := run]), |c.succ|, t);
  }

  lemma MeasureIsNatural(c: Config, s: State)
    requires Shape(c, s)
    ensures Measure(c, s) >= 0
  {
    SumNonNegative(WorkOf(c, s.runs), |c.succ|);
  }

  lemma StepShrinks(c: Config, s: State, a: Action)
    requires ValidConfig(c) && Inv(c, s) && Enabled(c, s, a)
    requires a.Scan? && s.cond[s.scan] == 0 ==> Root(c, s.scan)
    ensures Measure(c, Apply(c, s, a)) < Measure(c, s)
  {
    hide TaskWork, Unnotified, Left, Counters, NoEventTwice, Ordered, Logged;
    match a
    case Scan =>
      if s.cond[s.scan] == 0 {
        assert s.runs[s.scan] + [Queued] == [Queued];
        WorkUpdate(c, s.runs, s.scan, [Queued]);
      }
    case Begin(t, k) =>
      WorkUpdate(c, s.runs, t, s.runs[t][0 := Working]);
    case EndWork(t, k) =>
      WorkUpdate(c, s.runs, t, s.runs[t][0 := Notifying(0)]);
    case Notify(t, k) =>
      var i := s.runs[t][0].next;
      var v := c.succ[t][i];
      var mid := s.runs[t := s.runs[t][0 := Notifying(i + 1)]];
      NotifyTargetIsNew(c, s, t);
      WorkUpdate(c, s.runs, t, s.runs[t][0 := Notifying(i + 1)]);
      assert s.runs[v] + [Queued] == [Queued];
      WorkUpdate(c, mid, v, [Queued]);
    case Count(t, k) =>
      WorkUpdate(c, s.runs, t, s.runs[t][0 := Done]);
    case Return =>
  }

  lemma NotifyTargetIsNew(c: Config, s: State, t: nat)
    requires ValidConfig(c) && Inv(c, s) && Enabled(c, s, Notify(t, 0))
    ensures var v := c.succ[t][s.runs[t][0].next];
      v != t && s.cond[v] >= 1 && s.runs[v] == []
  {
    NotifyFacts(c, s, t);
  }

  /** Every run is finite: along it the measure falls with every step. */
  lemma {:induction false} RunsAreShort(c: Config, tr: seq<State>, i: nat)
    requires ValidConfig(c) && SeedingSafe(c) && IsRun(c, tr) && i < |tr|
    ensures i + Measure(c, tr[i]) <= Measure(c, Init(c))
  {
    hide CountInv, LogInv, Measure, Apply, Init;
    if i > 0 {
      RunsAreShort(c, tr, i - 1);
      RunsKeepInv(c, tr, i - 1);
      assert Step(c, tr[i - 1], tr[i - 1 + 1]);
      SafeStepShrinks(c, tr[i - 1], tr[i]);
    }
  }

  lemma SafeStepShrinks(c: Config, s: State, s': State)
    requires ValidConfig(c) && SeedingSafe(c) && Inv(c, s) && Step(c, s, s')
    ensures Measure(c, s') < Measure(c, s)
  {
    hide CountInv, LogInv, Measure, Apply;
    var a :| Enabled(c, s, a) && s' == Apply(c, s, a);
    if a.Scan? && s.cond[s.scan] == 0 {
      ScanFindsRoots(c, s);
    }
    StepShrinks(c, s, a);
  }

  lemma Extend(c: Config, tr: seq<State>, a: Action)
    requires ValidConfig(c) && IsRun(c, tr) && Enabled(c, Last(tr), a)
    ensures IsRun(c, tr + [Apply(c, Last(tr), a)])
  {
    var tr' := tr + [Apply(c, Last(tr), a)];
    forall i | 0 <= i < |tr'| - 1 ensures Step(c, tr'[i], tr'[i + 1]) {
      if i < |tr| - 1 {
        assert tr'[i] == tr[i] && tr'[i + 1] == tr[i + 1];
        assert Step(c, tr[i], tr[i + 1]);
      }
    }
  }

  /**
   * Completion: on an acyclic graph every run ends, and it can only end after `execute()` has
   * returned with every task's work done exactly once.
   */
  lemma RunsComplete(c: Config, tr: seq<State>)
    requires ValidConfig(c) && Acyclic(GraphOf(c)) && SeedingSafe(c) && IsRun(c, tr)
    ensures |tr| <= Measure(c, Init(c)) + 1
    ensures (forall s :: !Step(c, Last(tr), s)) ==>
      && Last(tr).returned && NoEventTwice(Last(tr).log)
      && forall t: nat :: t < |c.succ| ==> Began(t) in Last(tr).log && Ended(t) in Last(tr).log
  {
    RunsAreShort(c, tr, |tr| - 1);
    RunsKeepInv(c, tr, |tr| - 1);
    MeasureIsNatural(c, Last(tr));
    if !Last(tr).returned {
      var a := Progress(c, Last(tr));
      assert Step(c, Last(tr), Apply(c, Last(tr), a));
    }
    ExactlyOnce(c, tr, |tr| - 1);
  }

  /** Only an acyclic graph can be executed to the end. */
  lemma ReturnedIsAcyclic(c: Config, tr: seq<State>)
    requires ValidConfig(c) && SeedingSafe(c) && IsRun(c, tr) && Last(tr).returned
    ensures Acyclic(GraphOf(c))
  {
    hide NoEventTwice;
    GraphIsClosed(c);
    var log := Last(tr).log;
    ExactlyOnce(c, tr, |tr| - 1);
    forall t: nat ensures !Reach(GraphOf(c), t, t) {
      if Reach(GraphOf(c), t, t) {
        ReachInKeys(GraphOf(c), t, t);
        var j: nat :| j < |log| && log[j] == Began(t);
        DependencySafety(c, tr, |tr| - 1, j, t, t);
        EndedOnlyAfter(c, tr, j, t);
      }
    }
  }

  lemma EndedOnlyAfter(c: Config, tr: seq<State>, j: nat, t: nat)
    requires ValidConfig(c) && SeedingSafe(c) && IsRun(c, tr)
    requires j < |Last(tr).log| && Last(tr).log[j] == Began(t)
    ensures Ended(t) !in Last(tr).log[..j]
  {
    hide CountInv;
    RunsKeepInv(c, tr, |tr| - 1);
  }

  ghost predicate IsMaximal(c: Config, tr: seq<State>)
    requires ValidConfig(c)
  {
    IsRun(c, tr) && forall s :: !Step(c, Last(tr), s)
  }

  lemma {:induction false} RunToTheEnd(c: Config, tr: seq<State>) returns (tr': seq<State>)
    requires ValidConfig(c) && SeedingSafe(c) && IsRun(c, tr)
    ensures IsMaximal(c, tr')
    decreases Measure(c, Init(c)) - |tr|
  {
    hide Measure, Init, Apply, Enabled, CountInv, LogInv;
    tr' := tr;
    if s :| Step(c, Last(tr), s) {
      var a :| Enabled(c, Last(tr), a) && s == Apply(c, Last(tr), a);
      Extend(c, tr, a);
      var longer := tr + [s];
      RunsAreShort(c, longer, |longer| - 1);
      RunsKeepInv(c, longer, |longer| - 1);
      InvNatural(c, Last(longer));
      tr' := RunToTheEnd(c, longer);
    }
  }

  /** Completion is exact: all runs that cannot go on have returned if and only if the graph is acyclic. */
  lemma CompletionExact(c: Config)
    requires ValidConfig(c) && SeedingSafe(c)
    ensures Acyclic(GraphOf(c)) <==> forall tr :: IsMaximal(c, tr) ==> Last(tr).returned
  {
    hide Measure, Init;
    if Acyclic(GraphOf(c)) {
      forall tr | IsMaximal(c, tr) ensures Last(tr).returned {
        RunsComplete(c, tr);
      }
    }
    if forall tr :: IsMaximal(c, tr) ==> Last(tr).returned {
      var tr := ScanUpTo(c, 0);
      tr := RunToTheEnd(c, tr);
      ReturnedIsAcyclic(c, tr);
    }
  }

  /** The bound above, spelled out: each task costs its successors and four more steps. */
  lemma MeasureOfInit(c: Config)
    ensures Measure(c, Init(c))
      == SumTo((p: nat) => if p < |c.succ| then |c.succ[p]| + 4 else 0, |c.succ|) + |c.succ| + 1
  {
    SumSame(WorkOf(c, Init(c).runs), (p: nat) => if p < |c.succ| then |c.succ[p]| + 4 else 0, |c.succ|);
  }

  // ----- the seeding race -----------------------------------------------------------------

  /** A run that only scans, up to task `t`. */
  lemma {:induction false} ScanUpTo(c: Config, t: nat) returns (tr: seq<State>)
    requires ValidConfig(c) && t <= |c.succ|
    ensures IsRun(c, tr) && Inv(c, Last(tr)) && Last(tr).scan == t && Last(tr).log == [] && !Last(tr).returned
  {
    hide CountInv, LogInv;
    if t == 0 {
      tr := [Init(c)];
      InitHolds(c);
    } else {
      tr := ScanUpTo(c, t - 1);
      var s := Last(tr);
      EnabledScan(c, s);
      if s.cond[s.scan] == 0 {
        FreshZeroIsRoot(c, s, s.scan);
      }
      StepKeepsInv(c, s, Scan);
      Extend(c, tr, Scan);
      tr := tr + [Apply(c, s, Scan)];
    }
  }

  lemma EnabledScan(c: Config, s: State)
    requires Inv(c, s) && s.scan < |c.succ|
    ensures Enabled(c, s, Scan)
  {
  }

  /** From there, without scanning further, the tasks above `t` can run until `t` is submitted. */
  lemma {:induction false} DriveTo(c: Config, tr: seq<State>, t: nat) returns (tr': seq<State>)
    requires ValidConfig(c) && !Blocked(c, t) && !c.atomicSeed && IsRun(c, tr) && Inv(c, Last(tr))
    requires t < |c.succ| && Last(tr).scan == t && !Root(c, t) && RootsSeeded(c, Last(tr), t)
    ensures IsRun(c, tr') && Inv(c, Last(tr')) && Last(tr').scan == t && Last(tr').runs[t] != []
    ensures Last(tr').returned == Last(tr).returned
    ensures forall e :: e in Last(tr').log ==> e in Last(tr).log || e.task == t || Reach(GraphOf(c), e.task, t)
    decreases Measure(c, Last(tr))
  {
    hide CountInv, LogInv, Measure, Blocked;
    var s := Last(tr);
    InvFits(c, s);
    tr' := tr;
    if s.runs[t] == [] {
      var a := SomethingMoves(c, s, t);
      StepKeepsInv(c, s, a);
      StepShrinks(c, s, a);
      InvNatural(c, s);
      InvNatural(c, Apply(c, s, a));
      Extend(c, tr, a);
      tr' := DriveTo(c, tr + [Apply(c, s, a)], t);
    }
  }

  lemma InvFits(c: Config, s: State)
    requires Inv(c, s)
    ensures Execution.Fits(c, s)
  {
  }

  lemma InvNatural(c: Config, s: State)
    requires Inv(c, s)
    ensures Measure(c, s) >= 0
  {
    MeasureIsNatural(c, s);
  }

  /** If all roots above a dependent task were added before it, the scan can submit that task again. */
  lemma ScanSubmitsTwice(c: Config, t: nat) returns (tr: seq<State>)
    requires ValidConfig(c) && !c.atomicSeed && Unsafe(c, t)
    ensures IsRun(c, tr) && !NoEventTwice(Last(tr).log)
  {
    hide Unnotified, Left;
    tr := ScanUpTo(c, t);
    tr := DriveTo(c, tr, t);
    var s := Last(tr);
    Extend(c, tr, Scan);
    tr := tr + [Apply(c, s, Scan)];
    assert Last(tr).runs[t] == s.runs[t] + [Queued];
    tr := BeginIfQueued(c, tr, t);
    var k := |Last(tr).log|;
    Extend(c, tr, Begin(t, 1));
    var log := Last(tr).log;
    tr := tr + [Apply(c, Last(tr), Begin(t, 1))];
    var j :| 0 <= j < k && log[j] == Began(t);
    assert Last(tr).log[j] == Last(tr).log[k];
  }

  lemma BeginIfQueued(c: Config, tr: seq<State>, t: nat) returns (tr': seq<State>)
    requires ValidConfig(c) && !c.atomicSeed && IsRun(c, tr) && Execution.Fits(c, Last(tr)) && t < |c.succ|
    requires |Last(tr).runs[t]| == 2 && Last(tr).runs[t][1] == Queued
    requires Last(tr).runs[t][0] != Queued ==> Began(t) in Last(tr).log
    ensures IsRun(c, tr') && Execution.Fits(c, Last(tr')) && Began(t) in Last(tr').log
    ensures |Last(tr').runs[t]| == 2 && Last(tr').runs[t][1] == Queued
  {
    tr' := tr;
    if Last(tr).runs[t][0] == Queued {
      Extend(c, tr, Begin(t, 0));
      tr' := tr + [Apply(c, Last(tr), Begin(t, 0))];
    }
  }

  /**
   * Exactly when the scan is safe, for every graph: no run does any work twice if and only if seeding is
   * not interrupted or every task with predecessors was added before some root above it, or waits for itself.
   */
  lemma SeedingExact(c: Config)
    requires ValidConfig(c)
    ensures SeedingSafe(c) <==> forall tr :: IsRun(c, tr) ==> NoEventTwice(Last(tr).log)
  {
    if SeedingSafe(c) {
      forall tr | IsRun(c, tr) ensures NoEventTwice(Last(tr).log) {
        ExactlyOnce(c, tr, |tr| - 1);
      }
    } else {
      var t: nat :| Unsafe(c, t);
      var tr := ScanSubmitsTwice(c, t);
    }
  }
}
