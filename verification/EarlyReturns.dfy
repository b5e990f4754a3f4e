/** When the return of `execute()` means that the work is done. */
module EarlyReturns {
  import opened Graphs
  import opened Execution
  import opened ExecutionRuns
  import opened RacingScan

  ghost predicate AllDone(c: Config, s: State) {
    forall t: nat :: t < |c.succ| ==> Began(t) in s.log && Ended(t) in s.log
  }

  /** Everybody else is above every unsafe task. */
  ghost predicate UnsafeIsLast(c: Config) {
    forall t: nat, x: nat :: Unsafe(c, t) && x < |c.succ| && x != t ==> Reach(GraphOf(c), x, t)
  }

  // ----- otherwise it returns early -------------------------------------------------------

  lemma {:induction false} SinkFrom(c: Config, x: nat) returns (w: nat)
    requires ValidConfig(c) && Acyclic(GraphOf(c)) && x < |c.succ|
    ensures w < |c.succ| && c.succ[w] == [] && (w == x || Reach(GraphOf(c), x, w))
    decreases Below(GraphOf(c), x)
  {
    var g := GraphOf(c);
    w := x;
    if c.succ[x] != [] {
      var y := c.succ[x][0];
      GraphIsClosed(c);
      assert Edge(g, x, y);
      EdgeReaches(g, x, y);
      BelowShrinks(g, x, y);
      w := SinkFrom(c, y);
      if w != y {
        ReachTransitive(g, x, y, w);
      }
    }
  }

  lemma ReturnsBeforeDone(c: Config, t: nat, x: nat) returns (tr: seq<State>)
    requires ValidConfig(c) && Acyclic(GraphOf(c)) && !c.atomicSeed
    requires Unsafe(c, t) && x < |c.succ| && x != t && !Reach(GraphOf(c), x, t)
    ensures IsRun(c, tr) && Last(tr).returned && !AllDone(c, Last(tr))
  {
    hide Unsafe;
    var w := SinkFrom(c, x);
    forall y: nat ensures !Blocked(c, y) {
      FreeOfCycles(c, y);
    }
    tr := EarlyReturn(c, t, w);
  }

  // ----- with one unsafe task below all others --------------------------------------------

  /** `t` has been submitted twice, and everybody else has ended; `b` is `s` without the copy, which is in `ph`. */
  ghost predicate Aside(c: Config, s: State, b: State, t: nat, ph: Phase) {
    && Inv(c, b) && !b.returned && t < b.scan && |s.runs| == |b.runs| && t < |b.runs|
    && s.cond == b.cond && s.scan == b.scan && s.wait == b.wait - (if ph == Done then 1 else 0)
    && |b.runs[t]| == 1 && s.runs[t] == b.runs[t] + [ph]
    && (forall x: nat :: x < |b.runs| && x != t ==> s.runs[x] == b.runs[x] && HasEnded(b.runs[x]))
    && (forall e :: e in b.log ==> e in s.log)
    && (ph != Queued ==> Began(t) in s.log) && (HasEnded([ph]) ==> Ended(t) in s.log)
    && (s.returned ==> AllDone(c, s))
  }

  /** The unsafe task is the last in every way: nobody waits for it, and it is the only one. */
  lemma UnsafeIsSink(c: Config, t: nat)
    requires ValidConfig(c) && Acyclic(GraphOf(c)) && UnsafeIsLast(c) && Unsafe(c, t)
    ensures c.succ[t] == [] && forall u :: Unsafe(c, u) ==> u == t
  {
    hide Unsafe;
    GraphIsClosed(c);
    InRange(c, t);
    if c.succ[t] != [] {
      var v := c.succ[t][0];
      assert Edge(GraphOf(c), t, v);
      EdgeReaches(GraphOf(c), t, v);
      if v != t {
        ReachTransitive(GraphOf(c), t, v, t);
      }
    }
    forall u | Unsafe(c, u) ensures u == t {
      InRange(c, t);
      InRange(c, u);
      if u != t {
        ReachTransitive(GraphOf(c), t, u, t);
      }
    }
  }

  lemma InRange(c: Config, t: nat)
    requires Unsafe(c, t)
    ensures t < |c.succ|
  {
  }

  /** Whoever is above a task whose counter is at zero has ended. */
  lemma AboveHasEnded(c: Config, s: State, x: nat, t: nat)
    requires ValidConfig(c) && Inv(c, s) && t < |c.succ| && s.cond[t] == 0 && Reach(GraphOf(c), x, t)
    ensures x < |c.succ| && HasEnded(s.runs[x])
  {
    hide Unnotified, Left;
    GraphIsClosed(c);
    ReachInKeys(GraphOf(c), x, t);
    var p := LastEdge(GraphOf(c), x, t);
    ZeroMeansEnded(c, s, p, t);
    if p != x {
      var l :| 0 <= l < |s.log| && s.log[l] == Ended(p);
      var j: nat :| j < l && s.log[j] == Began(p);
      var path: seq<nat> :| Joins(GraphOf(c), path, x, p);
      AncestorsEndFirst(c, s.log, path, j);
      assert Ended(x) in s.log;
    }
  }

  /** The scan submits the unsafe task once more. */
  lemma StepsAside(c: Config, s: State)
    requires ValidConfig(c) && Acyclic(GraphOf(c)) && UnsafeIsLast(c) && Inv(c, s) && s.scan < |c.succ|
    requires s.cond[s.scan] == 0 && !Root(c, s.scan)
    ensures Enabled(c, s, Scan) && Aside(c, Apply(c, s, Scan), s.(scan := s.scan + 1), s.scan, Queued)
  {
    hide Inv, Unsafe, Measure;
    var t := s.scan;
    ScanFindsUnsafe(c, s);
    SkipKeepsInv(c, s);
    InvFits(c, s);
    NotReturned(c, s);
    OneAtMost(c, s, t);
    forall x: nat | x < |c.succ| && x != t ensures HasEnded(s.runs[x]) {
      AboveHasEnded(c, s, x, t);
    }
    hide HasEnded;
  }

  lemma NotReturned(c: Config, s: State)
    requires Inv(c, s) && s.scan < |c.succ|
    ensures !s.returned
  {
  }

  lemma NoMoreScan(c: Config, s: State, b: State, t: nat, ph: Phase)
    requires ValidConfig(c) && Acyclic(GraphOf(c)) && UnsafeIsLast(c) && Unsafe(c, t) && Aside(c, s, b, t, ph)
    ensures b.scan == |c.succ|
  {
    InvFits(c, b);
    if b.scan < |c.succ| {
      var u := b.scan;
      UnsafeIsSink(c, t);
      ZeroWhenSubmitted(c, b, u);
      NoRootAfter(c, t, u);
      ScanFindsUnsafe(c, b);
    }
  }

  lemma NoRootAfter(c: Config, t: nat, u: nat)
    requires UnsafeIsLast(c) && Unsafe(c, t) && t < u < |c.succ|
    ensures !Root(c, u)
  {
  }

  /** Everybody else only notifies nobody and counts; the copy takes its own way. */
  lemma AsideStays(c: Config, s: State, b: State, t: nat, ph: Phase, a: Action) returns (b': State, ph': Phase)
    requires ValidConfig(c) && Acyclic(GraphOf(c)) && UnsafeIsLast(c) && Unsafe(c, t)
    requires Aside(c, s, b, t, ph) && Enabled(c, s, a)
    ensures Aside(c, Apply(c, s, a), b', t, ph')
  {
    UnsafeIsSink(c, t);
    NoMoreScan(c, s, b, t, ph);
    InvFits(c, b);
    b', ph' := b, ph;
    match a
    case Scan =>
    case Return => ReturnIsDone(c, s, b, t, ph);
    case _ =>
      if a.t == t && a.k == 1 {
        ph' := CopyStep(c, s, b, t, ph, a);
      } else {
        b' := OtherStep(c, s, b, t, ph, a);
      }
  }

  lemma ReturnIsDone(c: Config, s: State, b: State, t: nat, ph: Phase)
    requires ValidConfig(c) && Aside(c, s, b, t, ph) && s.wait == 0
    ensures AllDone(c, s)
  {
    forall x: nat | x < |c.succ| ensures Began(x) in s.log && Ended(x) in s.log {
      if x == t && ph != Done {
        AllCounted(c, b, t);
      }
      EndedIsLogged(c, b, x);
    }
  }

  lemma EndedIsLogged(c: Config, b: State, x: nat)
    requires Inv(c, b) && x < |c.succ|
    ensures HasEnded(b.runs[x]) ==> Began(x) in b.log && Ended(x) in b.log
  {
    InvFits(c, b);
    hide CountInv, NoEventTwice, Ordered, Quiet;
  }

  lemma CopyStep(c: Config, s: State, b: State, t: nat, ph: Phase, a: Action) returns (ph': Phase)
    requires ValidConfig(c) && Aside(c, s, b, t, ph) && c.succ[t] == []
    requires Enabled(c, s, a) && IsTaskAction(a) && a.t == t && a.k == 1
    ensures Aside(c, Apply(c, s, a), b, t, ph')
  {
    hide Inv;
    assert s.runs[t] == [b.runs[t][0], ph];
    match a
    case Begin(_, _) =>
      ph' := Working;
      assert s.runs[t][1 := ph'] == b.runs[t] + [ph'];
    case EndWork(_, _) =>
      ph' := Notifying(0);
      assert s.runs[t][1 := ph'] == b.runs[t] + [ph'];
    case Notify(_, _) => ph' := ph;
    case Count(_, _) =>
      ph' := Done;
      assert s.runs[t][1 := ph'] == b.runs[t] + [ph'];
  }

  lemma OtherStep(c: Config, s: State, b: State, t: nat, ph: Phase, a: Action) returns (b': State)
    requires ValidConfig(c) && Aside(c, s, b, t, ph) && b.scan == |c.succ|
    requires Enabled(c, s, a) && IsTaskAction(a) && !(a.t == t && a.k == 1)
    ensures Aside(c, Apply(c, s, a), b', t, ph)
  {
    hide Inv, AllDone;
    InvFits(c, b);
    OneAtMost(c, b, a.t);
    DoneStays(c, s, a);
    assert a.k == 0 && s.runs[a.t][0] == b.runs[a.t][0];
    StepKeepsInv(c, b, a);
    b' := Apply(c, b, a);
    if a.Notify? {
      NotifyTargetIsNew(c, b, a.t);
    } else {
      OtherPhase(c, s, b, t, ph, a, if a.Begin? then Working else if a.EndWork? then Notifying(0) else Done);
    }
  }

  lemma OtherPhase(c: Config, s: State, b: State, t: nat, ph: Phase, a: Action, p: Phase)
    requires ValidConfig(c) && Aside(c, s, b, t, ph) && Enabled(c, s, a) && Enabled(c, b, a)
    requires IsTaskAction(a) && !a.Notify? && a.k == 0 && |b.runs[a.t]| == 1 && Inv(c, Apply(c, b, a))
    requires AllDone(c, s) ==> AllDone(c, Apply(c, s, a))
    requires p == if a.Begin? then Working else if a.EndWork? then Notifying(0) else Done
    ensures Aside(c, Apply(c, s, a), Apply(c, b, a), t, ph)
  {
    hide Inv, AllDone;
    var x := a.t;
    assert s.runs[x][0 := p] == b.runs[x][0 := p] + (if x == t then [ph] else []);
  }

  lemma DoneStays(c: Config, s: State, a: Action)
    requires ValidConfig(c) && Enabled(c, s, a) && IsTaskAction(a)
    ensures AllDone(c, s) ==> AllDone(c, Apply(c, s, a))
    ensures Apply(c, s, a).returned == s.returned
  {
  }

  // ----- exactly --------------------------------------------------------------------------

  ghost predicate InvOrAside(c: Config, s: State) {
    Inv(c, s) || exists b, t, ph :: Unsafe(c, t) && Aside(c, s, b, t, ph)
  }

  lemma StepKeepsEither(c: Config, s: State, a: Action)
    requires ValidConfig(c) && Acyclic(GraphOf(c)) && UnsafeIsLast(c) && InvOrAside(c, s) && Enabled(c, s, a)
    ensures InvOrAside(c, Apply(c, s, a))
  {
    hide Inv, Aside, Unsafe, UnsafeIsLast;
    if Inv(c, s) {
      InvFits(c, s);
      if a.Scan? && s.cond[s.scan] == 0 && !Root(c, s.scan) {
        ScanFindsUnsafe(c, s);
        StepsAside(c, s);
      } else {
        StepKeepsInv(c, s, a);
      }
    } else {
      var b, t, ph :| Unsafe(c, t) && Aside(c, s, b, t, ph);
      var b', ph' := AsideStays(c, s, b, t, ph, a);
    }
  }

  lemma {:induction false} RunsKeepEither(c: Config, tr: seq<State>, i: nat)
    requires ValidConfig(c) && Acyclic(GraphOf(c)) && UnsafeIsLast(c) && IsRun(c, tr) && i < |tr|
    ensures InvOrAside(c, tr[i])
  {
    hide InvOrAside, Apply, Enabled, Init, UnsafeIsLast;
    if i == 0 {
      StartsInInv(c);
    } else {
      RunsKeepEither(c, tr, i - 1);
      assert Step(c, tr[i - 1], tr[i - 1 + 1]);
      var a :| Enabled(c, tr[i - 1], a) && tr[i] == Apply(c, tr[i - 1], a);
      StepKeepsEither(c, tr[i - 1], a);
    }
  }

  lemma StartsInInv(c: Config)
    requires ValidConfig(c)
    ensures InvOrAside(c, Init(c))
  {
    InitHolds(c);
  }

  lemma DoneIfReturned(c: Config, s: State)
    requires InvOrAside(c, s) && s.returned
    ensures AllDone(c, s)
  {
    hide Unnotified, Left;
    if Inv(c, s) {
      forall x: nat | x < |c.succ| ensures Began(x) in s.log && Ended(x) in s.log {
        AllCounted(c, s, x);
      }
    }
  }

  /**
   * What the return of `execute()` is worth, for every acyclic graph: it means that all work is done if and
   * only if the scan is safe, or the only task it is unsafe for comes after all the others.
   */
  lemma ReturnMeansDone(c: Config)
    requires ValidConfig(c) && Acyclic(GraphOf(c))
    ensures (forall tr :: IsRun(c, tr) && Last(tr).returned ==> AllDone(c, Last(tr)))
      <==> SeedingSafe(c) || UnsafeIsLast(c)
  {
    hide Unsafe, InvOrAside, AllDone;
    if SeedingSafe(c) {
      forall tr | IsRun(c, tr) && Last(tr).returned ensures AllDone(c, Last(tr)) {
        RunsKeepInv(c, tr, |tr| - 1);
        InvIsEither(c, Last(tr));
        DoneIfReturned(c, Last(tr));
      }
    } else if UnsafeIsLast(c) {
      forall tr | IsRun(c, tr) && Last(tr).returned ensures AllDone(c, Last(tr)) {
        RunsKeepEither(c, tr, |tr| - 1);
        DoneIfReturned(c, Last(tr));
      }
    } else {
      var t: nat, x: nat :| Unsafe(c, t) && x < |c.succ| && x != t && !Reach(GraphOf(c), x, t);
      var tr := ReturnsBeforeDone(c, t, x);
    }
  }

  lemma InvIsEither(c: Config, s: State)
    requires Inv(c, s)
    ensures InvOrAside(c, s)
  {
  }

  // ----- three small graphs ---------------------------------------------------------------

  /** Task 1 waits for task 0, which was added first; `rest` is nothing, or one more task and its successors. */
  function Pair(rest: seq<seq<nat>>): Config {
    Config([[1], []] + rest, false)
  }

  ghost predicate OneMore(rest: seq<seq<nat>>) {
    |rest| <= 1 && (rest != [] ==> rest[0] == [] || rest[0] == [2])
  }

  lemma PairFacts(rest: seq<seq<nat>>)
    requires OneMore(rest)
    ensures var c := Pair(rest);
      ValidConfig(c) && Unsafe(c, 1) && !Blocked(c, 0) && !Blocked(c, 1) && Spares(c, 2)
  {
    var c := Pair(rest);
    var g := GraphOf(c);
    assert c.succ[0] == [1] && c.succ[1] == [] && (rest != [] ==> c.succ[2] == rest[0]);
    PairEdges(c);
    assert Precedes(c, 0, 1);
    forall u: nat ensures !Reach(g, u, 0) && (Reach(g, u, 1) ==> u == 0) {
      if Reach(g, u, 0) {
        var p := LastEdge(g, u, 0);
      }
      if Reach(g, u, 1) {
        var p := LastEdge(g, u, 1);
      }
    }
  }

  lemma PairEdges(c: Config)
    requires 2 <= |c.succ| <= 3 && c.succ[0] == [1] && c.succ[1] == []
    requires |c.succ| == 3 ==> c.succ[2] == [] || c.succ[2] == [2]
    ensures ValidConfig(c)
    ensures forall p: nat, v: nat :: Precedes(c, p, v) ==> (p == 0 && v == 1) || (p == 2 && v == 2)
    ensures forall p: nat, v: nat :: Edge(GraphOf(c), p, v) <==> Precedes(c, p, v)
  {
  }

  /** An acyclic graph on which `execute()` returns before a task has begun: 0 before 1, and 2 on its own. */
  lemma AcyclicReturnsEarly() returns (tr: seq<State>)
    ensures ValidConfig(Pair([[]])) && IsRun(Pair([[]]), tr)
    ensures Last(tr).returned && Began(2) !in Last(tr).log
  {
    PairFacts([[]]);
    tr := EarlyReturn(Pair([[]]), 1, 2);
  }

  /** A cyclic graph on which it returns: 0 before 1, and 2, which waits for itself. */
  lemma CyclicReturns() returns (tr: seq<State>)
    ensures ValidConfig(Pair([[2]])) && Reach(GraphOf(Pair([[2]])), 2, 2) && IsRun(Pair([[2]]), tr)
    ensures Last(tr).returned && Began(2) !in Last(tr).log
  {
    var c := Pair([[2]]);
    PairFacts([[2]]);
    assert c.succ[2] == [2];
    EdgeReaches(GraphOf(c), 2, 2);
    tr := EarlyReturn(c, 1, 2);
  }

  /** Two tasks and one edge on which it never returns: the counter goes from 1 past 0 to -1. */
  lemma PairHangs() returns (tr: seq<State>)
    ensures ValidConfig(Pair([])) && Acyclic(GraphOf(Pair([]))) && IsMaximal(Pair([]), tr)
    ensures !Last(tr).returned && Last(tr).wait < 0
  {
    var c := Pair([]);
    PairFacts([]);
    GraphIsClosed(c);
    forall u: nat ensures !Reach(GraphOf(c), u, u) {
      InTwo(c, u);
    }
    tr := UnsafeHangs(c, 1);
  }

  lemma InTwo(c: Config, u: nat)
    requires ValidConfig(c) && |c.succ| == 2 && !Blocked(c, 0) && !Blocked(c, 1)
    ensures !Reach(GraphOf(c), u, u)
  {
    if Reach(GraphOf(c), u, u) {
      GraphIsClosed(c);
      ReachInKeys(GraphOf(c), u, u);
      assert Blocked(c, u);
    }
  }
}
