/**
 * What an unsafe seeding scan costs. A run in which the scan submits tasks a second time is a run
 * without those submissions, and the copies, queued until the rest is over.
 */
module RacingScan {
  import opened Graphs
  import opened Sums
  import opened Execution
  import opened ExecutionRuns

  /** `s` is `b` with one more submission, still queued, of each task in `d`. */
  ghost predicate Doubled(c: Config, s: State, b: State, d: set<nat>) {
    && |s.runs| == |b.runs| && s == b.(runs := s.runs)
    && (forall u: nat :: u < |b.runs| ==> s.runs[u] == b.runs[u] + (if u in d then [Queued] else []))
    && forall u :: u in d ==> u < b.scan && u < |b.runs| && b.runs[u] != [] && Unsafe(c, u)
  }

  lemma OnlyOne(c: Config, b: State, a: Action)
    requires Inv(c, b) && Enabled(c, b, a) && IsTaskAction(a)
    ensures a.k == 0 && a.t < |c.succ| && |b.runs[a.t]| == 1
  {
  }

  /** What a task does is not affected by copies waiting behind it. */
  lemma LiftStep(c: Config, s: State, b: State, d: set<nat>, a: Action)
    requires ValidConfig(c) && !c.atomicSeed && Inv(c, b) && Doubled(c, s, b, d)
    requires Enabled(c, b, a) && IsTaskAction(a)
    ensures Enabled(c, s, a) && Doubled(c, Apply(c, s, a), Apply(c, b, a), d)
  {
    hide Inv, Unsafe;
    OnlyOne(c, b, a);
    match a
    case Begin(t, k) => LiftPhase(c, s, b, d, t, Working);
    case EndWork(t, k) => LiftPhase(c, s, b, d, t, Notifying(0));
    case Notify(t, k) => LiftNotify(c, s, b, d, t);
    case Count(t, k) => LiftPhase(c, s, b, d, t, Done);
  }

  lemma LiftNotify(c: Config, s: State, b: State, d: set<nat>, t: nat)
    requires ValidConfig(c) && !c.atomicSeed && Inv(c, b) && Doubled(c, s, b, d)
    requires Enabled(c, b, Notify(t, 0)) && |b.runs[t]| == 1
    ensures Enabled(c, s, Notify(t, 0)) && Doubled(c, Apply(c, s, Notify(t, 0)), Apply(c, b, Notify(t, 0)), d)
  {
    hide Inv, Unsafe;
    var i := b.runs[t][0].next;
    var v := c.succ[t][i];
    NotifyTargetIsNew(c, b, t);
    LiftPhase(c, s, b, d, t, Notifying(i + 1));
    if b.cond[v] == 1 {
      LiftSubmit(c, SetPhase(s, t, 0, Notifying(i + 1)), SetPhase(b, t, 0, Notifying(i + 1)), d, v);
    }
  }

  lemma LiftPhase(c: Config, s: State, b: State, d: set<nat>, t: nat, ph: Phase)
    requires Doubled(c, s, b, d) && t < |b.runs| && |b.runs[t]| == 1
    ensures |s.runs[t]| >= 1 && s.runs[t][0] == b.runs[t][0]
    ensures Doubled(c, SetPhase(s, t, 0, ph), SetPhase(b, t, 0, ph), d)
  {
    hide Unsafe;
    assert s.runs[t][0 := ph] == b.runs[t][0 := ph] + (if t in d then [Queued] else []);
  }

  lemma LiftSubmit(c: Config, s: State, b: State, d: set<nat>, v: nat)
    requires Doubled(c, s, b, d) && v < |b.runs| && b.runs[v] == []
    ensures Doubled(c, Submit(s, v), Submit(b, v), d)
  {
    hide Unsafe;
  }

  /** The scan passes over a task that was submitted already: but for the copy nothing has changed. */
  lemma SkipKeepsInv(c: Config, b: State)
    requires Inv(c, b) && b.scan < |c.succ| && b.cond[b.scan] == 0 && !Root(c, b.scan)
    ensures Inv(c, b.(scan := b.scan + 1)) && b.runs[b.scan] != []
    ensures Measure(c, b.(scan := b.scan + 1)) < Measure(c, b)
  {
    hide Unnotified, Left, TaskWork, NoEventTwice, Ordered;
  }

  /** The scan's step without the copy it may make. */
  lemma ScanBase(c: Config, b: State) returns (b': State, copied: bool)
    requires ValidConfig(c) && Inv(c, b) && b.scan < |c.succ|
    ensures Execution.Fits(c, b) && Inv(c, b') && Measure(c, b') < Measure(c, b)
    ensures b' == if b.cond[b.scan] == 0 && !copied then Submit(b.(scan := b.scan + 1), b.scan)
                  else b.(scan := b.scan + 1)
    ensures copied ==> b.cond[b.scan] == 0 && b.runs[b.scan] != [] && Unsafe(c, b.scan)
    ensures b.cond[b.scan] == 0 && !copied ==> b.runs[b.scan] == []
  {
    hide CountInv, LogInv, Measure;
    InvFits(c, b);
    copied := b.cond[b.scan] == 0 && !Root(c, b.scan);
    if copied {
      SkipKeepsInv(c, b);
      ScanFindsUnsafe(c, b);
      b' := b.(scan := b.scan + 1);
    } else {
      if Root(c, b.scan) {
        NotYetScanned(c, b);
      }
      StepKeepsInv(c, b, Scan);
      StepShrinks(c, b, Scan);
      b' := Apply(c, b, Scan);
    }
  }

  lemma LiftScan(c: Config, s: State, b: State, d: set<nat>) returns (b': State, d': set<nat>)
    requires ValidConfig(c) && Inv(c, b) && Doubled(c, s, b, d) && b.scan < |c.succ|
    ensures Enabled(c, s, Scan) && Doubled(c, Apply(c, s, Scan), b', d')
    ensures Inv(c, b') && Measure(c, b') < Measure(c, b) && d <= d'
    ensures b'.log == b.log && b'.returned == b.returned && b'.scan == b.scan + 1
    ensures b.runs[b.scan] != [] && b.cond[b.scan] == 0 ==> b.scan in d'
  {
    hide Inv, Unsafe, Measure;
    var copied;
    b', copied := ScanBase(c, b);
    d' := if copied then d + {b.scan} else d;
  }

  // ----- everybody else runs to the end ---------------------------------------------------

  /** Everybody but `w` can be done without `w`: nobody else waits for it, or for himself. */
  ghost predicate Spares(c: Config, w: int) {
    && (forall x: nat :: x < |c.succ| && x != w ==> !Blocked(c, x))
    && forall p: nat, x: nat :: p == w && Precedes(c, p, x) ==> x == w
  }

  lemma {:induction false} StaysAt(c: Config, w: nat, p: seq<nat>)
    requires ValidConfig(c) && Spares(c, w) && IsPath(GraphOf(c), p) && p[0] == w
    ensures p[|p| - 1] == w
    decreases |p|
  {
    GraphIsClosed(c);
    assert Edge(GraphOf(c), p[0], p[1]);
    assert Precedes(c, p[0], p[1]);
    if |p| > 2 {
      var q := p[1..];
      forall i | 0 <= i < |q| - 1 ensures Edge(GraphOf(c), q[i], q[i + 1]) {
        assert Edge(GraphOf(c), p[i + 1], p[i + 2]);
      }
      StaysAt(c, w, q);
    }
  }

  lemma LeadsNowhere(c: Config, w: nat, x: nat)
    requires ValidConfig(c) && Spares(c, w) && x != w
    ensures !Reach(GraphOf(c), w, x)
  {
    if p: seq<nat> :| Joins(GraphOf(c), p, w, x) {
      StaysAt(c, w, p);
    }
  }

  ghost predicate NotBegun(s: State, w: int) {
    forall e :: e in s.log ==> e.task != w
  }

  /** All scanned and everybody but `w` done. */
  ghost predicate OthersDone(c: Config, b: State, w: int) {
    b.scan == |c.succ| && forall x: nat :: x < |c.succ| && x < |b.runs| && x != w ==> b.runs[x] == [Done]
  }

  ghost predicate Copied(c: Config, tr: seq<State>, b: State, d: set<nat>, w: int)
    requires ValidConfig(c)
  {
    IsRun(c, tr) && Doubled(c, Last(tr), b, d) && Inv(c, b) && !b.returned && NotBegun(b, w)
  }

  lemma ScanOn(c: Config, tr: seq<State>, b: State, d: set<nat>, w: int)
    returns (tr': seq<State>, b': State, d': set<nat>)
    requires ValidConfig(c) && Copied(c, tr, b, d, w) && b.scan < |c.succ|
    ensures Copied(c, tr', b', d', w) && Measure(c, b') < Measure(c, b) && d <= d' && b'.scan == b.scan + 1
    ensures b.runs[b.scan] != [] && b.cond[b.scan] == 0 ==> b.scan in d'
  {
    hide Inv, Doubled, Measure, Enabled, Apply;
    b', d' := LiftScan(c, Last(tr), b, d);
    Extend(c, tr, Scan);
    tr' := tr + [Apply(c, Last(tr), Scan)];
  }

  lemma MoveOn(c: Config, tr: seq<State>, b: State, d: set<nat>, w: int, a: Action)
    returns (tr': seq<State>, b': State)
    requires ValidConfig(c) && !c.atomicSeed && Copied(c, tr, b, d, w)
    requires Enabled(c, b, a) && IsTaskAction(a) && a.t != w
    ensures Copied(c, tr', b', d, w) && Measure(c, b') < Measure(c, b)
  {
    hide Inv, Doubled, Measure;
    LiftStep(c, Last(tr), b, d, a);
    StepKeepsInv(c, b, a);
    StepShrinks(c, b, a);
    Extend(c, tr, a);
    tr', b' := tr + [Apply(c, Last(tr), a)], Apply(c, b, a);
    LogOf(c, b, a);
  }

  lemma LogOf(c: Config, b: State, a: Action)
    requires ValidConfig(c) && Enabled(c, b, a) && IsTaskAction(a)
    ensures Apply(c, b, a).returned == b.returned
    ensures forall e :: e in Apply(c, b, a).log ==> e in b.log || e.task == a.t
  {
  }

  lemma {:induction false} FinishOthers(c: Config, tr: seq<State>, b: State, d: set<nat>, w: int)
    returns (tr': seq<State>, b': State, d': set<nat>)
    requires ValidConfig(c) && !c.atomicSeed && Spares(c, w) && Copied(c, tr, b, d, w)
    ensures Copied(c, tr', b', d', w) && d <= d' && OthersDone(c, b', w)
    decreases Measure(c, b)
  {
    hide Inv, Doubled, Measure, IsRun, Spares, NotBegun, Enabled;
    InvNatural(c, b);
    InvFits(c, b);
    tr', b', d' := tr, b, d;
    if b.scan < |c.succ| {
      tr', b', d' := ScanOn(c, tr, b, d, w);
      InvNatural(c, b');
      tr', b', d' := FinishOthers(c, tr', b', d', w);
    } else if x: nat :| x < |c.succ| && x != w && b.runs[x] != [Done] {
      var a := MoveOfAnother(c, b, x, w);
      tr', b' := MoveOn(c, tr, b, d, w, a);
      InvNatural(c, b');
      tr', b', d' := FinishOthers(c, tr', b', d, w);
    }
  }

  lemma MoveOfAnother(c: Config, b: State, x: nat, w: int) returns (a: Action)
    requires ValidConfig(c) && Spares(c, w) && Inv(c, b) && b.scan == |c.succ|
    requires x < |c.succ| && x != w && b.runs[x] != [Done]
    ensures Enabled(c, b, a) && IsTaskAction(a) && a.t != w
  {
    hide Inv, Blocked;
    a := SomethingMoves(c, b, x);
    if a.t == w {
      LeadsNowhere(c, a.t, x);
    }
  }

  /** Task `t` is submitted before the scan comes to it, and by the scan once more. */
  lemma CopyTask(c: Config, t: nat, w: int) returns (tr: seq<State>, b: State, d: set<nat>)
    requires ValidConfig(c) && !c.atomicSeed && Unsafe(c, t) && w != t
    requires forall x: nat :: x == w ==> !Reach(GraphOf(c), x, t)
    ensures Copied(c, tr, b, d, w) && t in d
  {
    hide Inv, Measure, Blocked, Enabled, Apply;
    tr := ScanUpTo(c, t);
    RootsBefore(c, Last(tr), t);
    tr := DriveTo(c, tr, t);
    b, d := Last(tr), {};
    ZeroWhenSubmitted(c, b, t);
    NothingCopied(c, b);
    tr, b, d := ScanOn(c, tr, b, {}, w);
  }

  lemma RootsBefore(c: Config, s: State, t: nat)
    requires Unsafe(c, t) && s.scan == t
    ensures RootsSeeded(c, s, t)
  {
  }

  lemma ZeroWhenSubmitted(c: Config, b: State, t: nat)
    requires Inv(c, b) && t < |c.succ| && b.runs[t] != []
    ensures b.cond[t] == 0
  {
    hide Unnotified, Left;
  }

  lemma NothingCopied(c: Config, b: State)
    ensures Doubled(c, b, b, {})
  {
    assert forall u: nat :: u < |b.runs| ==> b.runs[u] == b.runs[u] + [];
  }

  // ----- then a copy runs -----------------------------------------------------------------

  /** No counter can pass through zero any more. */
  ghost predicate Spent(s: State) {
    forall v :: 0 <= v < |s.cond| ==> s.cond[v] <= 0
  }

  /** After the scan, with the copy of `t` in phase `ph`. */
  ghost predicate AtCopy(c: Config, tr: seq<State>, t: nat, ph: Phase)
    requires ValidConfig(c)
  {
    && IsRun(c, tr) && Execution.Fits(c, Last(tr)) && Last(tr).scan == |c.succ| && !Last(tr).returned
    && t < |c.succ| && t !in c.succ[t] && Last(tr).runs[t] == [Done, ph]
  }

  /** Nothing but the copy of `t` and the counters has changed, if no counter can pass through zero. */
  ghost predicate OnlyCopy(s: State, s': State, t: nat) {
    Spent(s) ==>
      && Spent(s') && |s'.runs| == |s.runs|
      && forall u :: 0 <= u < |s.runs| && u != t ==> s'.runs[u] == s.runs[u]
  }

  lemma TakeCopy(c: Config, tr: seq<State>, t: nat, ph: Phase, a: Action, ph': Phase) returns (tr': seq<State>)
    requires ValidConfig(c) && AtCopy(c, tr, t, ph)
    requires match a
      case Begin(u, k) => u == t && k == 1 && ph == Queued && ph' == Working
      case EndWork(u, k) => u == t && k == 1 && ph == Working && ph' == Notifying(0)
      case Count(u, k) => u == t && k == 1 && ph == Notifying(|c.succ[t]|) && ph' == Done
      case _ => false
    ensures AtCopy(c, tr', t, ph') && OnlyCopy(Last(tr), Last(tr'), t)
    ensures var s, s' := Last(tr), Last(tr');
      && s'.wait == (if a.Count? then s.wait - 1 else s.wait)
      && s'.log == s.log + (if a.Begin? then [Began(t)] else if a.EndWork? then [Ended(t)] else [])
  {
    var s := Last(tr);
    assert s.runs[t][1 := ph'] == [Done, ph'];
    Extend(c, tr, a);
    tr' := tr + [Apply(c, s, a)];
  }

  lemma OneNotified(c: Config, tr: seq<State>, t: nat, i: nat) returns (tr': seq<State>)
    requires ValidConfig(c) && AtCopy(c, tr, t, Notifying(i)) && i < |c.succ[t]|
    ensures AtCopy(c, tr', t, Notifying(i + 1)) && OnlyCopy(Last(tr), Last(tr'), t)
    ensures Last(tr').wait == Last(tr).wait && Last(tr').log == Last(tr).log
  {
    var s := Last(tr);
    assert c.succ[t][i] in c.succ[t];
    assert s.runs[t][1 := Notifying(i + 1)] == [Done, Notifying(i + 1)];
    Extend(c, tr, Notify(t, 1));
    tr' := tr + [Apply(c, s, Notify(t, 1))];
  }

  lemma {:induction false} AllNotified(c: Config, tr: seq<State>, t: nat, i: nat) returns (tr': seq<State>)
    requires ValidConfig(c) && AtCopy(c, tr, t, Notifying(i)) && i <= |c.succ[t]|
    ensures AtCopy(c, tr', t, Notifying(|c.succ[t]|)) && OnlyCopy(Last(tr), Last(tr'), t)
    ensures Last(tr').wait == Last(tr).wait && Last(tr').log == Last(tr).log
    decreases |c.succ[t]| - i
  {
    tr' := tr;
    if i < |c.succ[t]| {
      tr' := OneNotified(c, tr, t, i);
      hide AtCopy;
      tr' := AllNotified(c, tr', t, i + 1);
    }
  }

  lemma RunCopy(c: Config, tr: seq<State>, t: nat) returns (tr': seq<State>)
    requires ValidConfig(c) && AtCopy(c, tr, t, Queued)
    ensures AtCopy(c, tr', t, Done) && OnlyCopy(Last(tr), Last(tr'), t)
    ensures Last(tr').wait == Last(tr).wait - 1 && Last(tr').log == Last(tr).log + [Began(t), Ended(t)]
  {
    tr' := TakeCopy(c, tr, t, Queued, Begin(t, 1), Working);
    tr' := TakeCopy(c, tr', t, Working, EndWork(t, 1), Notifying(0));
    tr' := AllNotified(c, tr', t, 0);
    tr' := TakeCopy(c, tr', t, Notifying(|c.succ[t]|), Count(t, 1), Done);
  }

  // ----- `execute()` returns too early ----------------------------------------------------

  /** With everybody but `w` done and `w` not begun one completion is missing. */
  lemma OneMissing(c: Config, b: State, w: nat)
    requires Inv(c, b) && w < |c.succ| && OthersDone(c, b, w) && NotBegun(b, w)
    ensures b.wait == 1
  {
    hide Unnotified;
    assert Began(w) !in b.log;
    var runs := b.runs[w := [Done]];
    LeftUpdate(c, b.runs, w, [Done]);
    SumConstant(Open(runs), |c.succ|, 0);
  }

  lemma NoSelfEdge(c: Config, t: nat)
    requires ValidConfig(c) && Unsafe(c, t)
    ensures t !in c.succ[t]
  {
    GraphIsClosed(c);
    if t in c.succ[t] {
      assert Precedes(c, t, t);
      EdgeReaches(GraphOf(c), t, t);
    }
  }

  lemma CopyIsReady(c: Config, tr: seq<State>, b: State, d: set<nat>, w: int, t: nat)
    requires ValidConfig(c) && Copied(c, tr, b, d, w) && OthersDone(c, b, w) && t in d && t != w
    ensures AtCopy(c, tr, t, Queued)
  {
    NoSelfEdge(c, t);
    InvFits(c, b);
    hide Inv, Unsafe;
  }

  /**
   * The copy stands in for `w`: `execute()` returns with the work of `w` not even begun. Here `w` may be any
   * task that leads to nobody else, on a cycle with itself or not.
   */
  lemma EarlyReturn(c: Config, t: nat, w: nat) returns (tr: seq<State>)
    requires ValidConfig(c) && !c.atomicSeed && Unsafe(c, t) && w < |c.succ| && w != t && Spares(c, w)
    ensures IsRun(c, tr) && Last(tr).returned && Began(w) !in Last(tr).log
  {
    hide Inv, Unsafe, Enabled, Spares, Apply;
    LeadsNowhere(c, w, t);
    var b, d;
    tr, b, d := CopyTask(c, t, w);
    tr, b, d := FinishOthers(c, tr, b, d, w);
    OneMissing(c, b, w);
    CopyIsReady(c, tr, b, d, w, t);
    tr := RunCopy(c, tr, t);
    tr := TakeReturn(c, tr);
  }

  lemma TakeReturn(c: Config, tr: seq<State>) returns (tr': seq<State>)
    requires ValidConfig(c) && IsRun(c, tr) && Execution.Fits(c, Last(tr)) && Last(tr).scan == |c.succ|
    requires Last(tr).wait == 0 && !Last(tr).returned
    ensures IsRun(c, tr') && Last(tr').returned && Last(tr').log == Last(tr).log
  {
    Extend(c, tr, Return);
    tr' := tr + [Apply(c, Last(tr), Return)];
  }

  // ----- or never -------------------------------------------------------------------------

  /** All is done but the copies of the tasks in `left`. */
  ghost predicate OnlyCopies(c: Config, tr: seq<State>, left: set<nat>)
    requires ValidConfig(c)
  {
    && IsRun(c, tr) && Execution.Fits(c, Last(tr)) && Last(tr).scan == |c.succ| && !Last(tr).returned && Spent(Last(tr))
    && (forall u :: u in left ==> u < |c.succ| && u !in c.succ[u])
    && forall u: nat :: u < |c.succ| ==>
      if u in left then Last(tr).runs[u] == [Done, Queued]
      else Last(tr).runs[u] == [Done] || Last(tr).runs[u] == [Done, Done]
  }

  lemma {:induction false} RunCopies(c: Config, tr: seq<State>, left: set<nat>) returns (tr': seq<State>)
    requires ValidConfig(c) && OnlyCopies(c, tr, left)
    ensures OnlyCopies(c, tr', {}) && Last(tr').wait == Last(tr).wait - |left|
    decreases |left|
  {
    tr' := tr;
    if t :| t in left {
      tr' := RunCopy(c, tr, t);
      tr' := RunCopies(c, tr', left - {t});
    }
  }

  /** With the completion counter past zero and every phase over, no thread can step, the caller included. */
  lemma NothingMoves(c: Config, tr: seq<State>, s: State)
    requires ValidConfig(c) && OnlyCopies(c, tr, {}) && Last(tr).wait < 0
    ensures !Step(c, Last(tr), s)
  {
    forall a ensures !Enabled(c, Last(tr), a) {
      if IsTaskAction(a) && a.t < |c.succ| {
        assert Last(tr).runs[a.t] == [Done] || Last(tr).runs[a.t] == [Done, Done];
      }
    }
  }

  lemma CopiesLeft(c: Config, tr: seq<State>, b: State, d: set<nat>)
    requires ValidConfig(c) && Copied(c, tr, b, d, -1) && OthersDone(c, b, -1)
    ensures OnlyCopies(c, tr, d) && Last(tr).wait == 0
  {
    hide Inv, Unsafe, NotBegun, Doubled, Spent;
    InvFits(c, b);
    CountedOut(c, b);
    CopiedRuns(c, Last(tr), b, d);
    forall u | u in d ensures u !in c.succ[u] {
      NoSelfEdge(c, u);
    }
  }

  lemma CopiedRuns(c: Config, s: State, b: State, d: set<nat>)
    requires Doubled(c, s, b, d) && Execution.Fits(c, b) && OthersDone(c, b, -1) && Spent(b)
    ensures Execution.Fits(c, s) && s.scan == |c.succ| && s.returned == b.returned && s.wait == b.wait && Spent(s)
    ensures forall u :: u in d ==> u < |c.succ| && Unsafe(c, u)
    ensures forall u: nat :: u < |c.succ| ==> s.runs[u] == if u in d then [Done, Queued] else [Done]
  {
    hide Unsafe;
  }

  lemma CountedOut(c: Config, b: State)
    requires Inv(c, b) && OthersDone(c, b, -1)
    ensures b.wait == 0 && Spent(b)
  {
    hide Unnotified;
    SumConstant(Open(b.runs), |c.succ|, 0);
    forall v: nat | v < |b.cond| ensures b.cond[v] <= 0 {
      ZeroWhenSubmitted(c, b, v);
    }
  }

  /** With one unsafe task there is a run that gets stuck: the counter has gone past zero unseen. */
  lemma UnsafeHangs(c: Config, t: nat) returns (tr: seq<State>)
    requires ValidConfig(c) && !c.atomicSeed && Acyclic(GraphOf(c)) && Unsafe(c, t)
    ensures IsMaximal(c, tr) && !Last(tr).returned && Last(tr).wait < 0
  {
    hide Inv, Unsafe, Enabled, Apply, OthersDone;
    forall x: nat ensures !Blocked(c, x) {
      FreeOfCycles(c, x);
    }
    var b, d;
    tr, b, d := CopyTask(c, t, -1);
    tr, b, d := FinishOthers(c, tr, b, d, -1);
    CopiesLeft(c, tr, b, d);
    tr := RunCopies(c, tr, d);
    assert |d| >= 1;
    forall s ensures !Step(c, Last(tr), s) {
      NothingMoves(c, tr, s);
    }
  }

  // ----- when runs complete ---------------------------------------------------------------

  /** A run whose scan was not interrupted is a run. */
  lemma {:induction false} AtomicRun(c: Config, tr: seq<State>)
    requires ValidConfig(c) && IsMaximal(c.(atomicSeed := true), tr)
    requires Execution.Fits(c, Last(tr))
    ensures IsMaximal(c, tr)
  {
    var d := c.(atomicSeed := true);
    SameInit(c);
    forall i | 0 <= i < |tr| - 1 ensures Step(c, tr[i], tr[i + 1]) {
      assert Step(d, tr[i], tr[i + 1]);
      var a :| Enabled(d, tr[i], a) && tr[i + 1] == Apply(d, tr[i], a);
      SameStep(c, tr[i], a);
    }
    forall s ensures !Step(c, Last(tr), s) {
      if a :| Enabled(c, Last(tr), a) && s == Apply(c, Last(tr), a) {
        if Last(tr).scan < |c.succ| {
          assert Step(d, Last(tr), Apply(d, Last(tr), Scan));
        } else {
          SameStep(c, Last(tr), a);
          assert Step(d, Last(tr), s);
        }
      }
    }
  }

  lemma SameInit(c: Config)
    ensures Init(c.(atomicSeed := true)) == Init(c)
  {
    var d := c.(atomicSeed := true);
    var none: seq<seq<Phase>> := seq(|c.succ|, _ => []);
    forall t: nat | t < |c.succ| ensures InDegree(d, t) == InDegree(c, t) {
      SumSame(PendingFrom(d, none, t), PendingFrom(c, none, t), |c.succ|);
    }
  }

  lemma SameStep(c: Config, s: State, a: Action)
    requires ValidConfig(c)
    ensures var d := c.(atomicSeed := true);
      && (Enabled(d, s, a) ==> Enabled(c, s, a) && Apply(d, s, a) == Apply(c, s, a))
      && (Enabled(c, s, a) && s.scan == |c.succ| ==> Enabled(d, s, a) && Apply(d, s, a) == Apply(c, s, a))
  {
  }

  lemma CycleHangs(c: Config) returns (tr: seq<State>)
    requires ValidConfig(c) && !Acyclic(GraphOf(c))
    ensures IsMaximal(c, tr) && !Last(tr).returned
  {
    var d := c.(atomicSeed := true);
    assert GraphOf(d) == GraphOf(c);
    ExecutionRuns.CompletionExact(d);
    tr :| IsMaximal(d, tr) && !Last(tr).returned;
    RunsKeepInv(d, tr, |tr| - 1);
    InvFits(d, Last(tr));
    AtomicRun(c, tr);
  }

  /**
   * Completion, for every graph and every order of adding its tasks: all runs that cannot go on have
   * returned if and only if the graph is acyclic and the scan is safe.
   */
  lemma CompletionExact(c: Config)
    requires ValidConfig(c)
    ensures Acyclic(GraphOf(c)) && SeedingSafe(c) <==> forall tr :: IsMaximal(c, tr) ==> Last(tr).returned
  {
    hide IsMaximal;
    if !Acyclic(GraphOf(c)) {
      var tr := CycleHangs(c);
    } else if !SeedingSafe(c) {
      var t: nat :| Unsafe(c, t);
      var tr := UnsafeHangs(c, t);
    } else {
      ExecutionRuns.CompletionExact(c);
    }
  }
}
