/**
 * One `Scheduler::execute()` as a transition system: the seeding scan, the executor's threads
 * running tasks and notifying successors, and the caller waiting for the completion counter.
 */
module Execution {
  import opened Graphs
  import opened Sums

  /**
   * `succ[t]` lists the successors of task `t` in the order `set_precede` appended them, duplicates
   * included. With `atomicSeed` nothing else happens until the seeding scan is over.
   */
  datatype Config = Config(succ: seq<seq<nat>>, atomicSeed: bool)

  ghost predicate ValidConfig(c: Config) {
    forall t, i :: 0 <= t < |c.succ| && 0 <= i < |c.succ[t]| ==> c.succ[t][i] < |c.succ|
  }

  /** One submission of a task: waiting in the executor, in `work()`, or in `post_run_()`. */
  datatype Phase = Queued | Working | Notifying(next: nat) | Done

  datatype Event = Began(task: nat) | Ended(task: nat)

  /** `runs[t]` holds one phase for every time task `t` was submitted; `log` records the work done. */
  datatype State = State(cond: seq<int>, scan: nat, runs: seq<seq<Phase>>, wait: int, returned: bool, log: seq<Event>)

  datatype Action = Scan | Begin(t: nat, k: nat) | EndWork(t: nat, k: nat) | Notify(t: nat, k: nat)
    | Count(t: nat, k: nat) | Return

  ghost predicate HasPhase(s: State, t: nat, k: nat, ph: Phase) {
    t < |s.runs| && k < |s.runs[t]| && s.runs[t][k] == ph
  }

  ghost predicate PastSeeding(c: Config, s: State) {
    c.atomicSeed ==> s.scan == |c.succ|
  }

  ghost predicate Fits(c: Config, s: State) {
    |s.cond| == |s.runs| == |c.succ| && s.scan <= |c.succ|
  }

  ghost predicate Enabled(c: Config, s: State, a: Action) {
    Fits(c, s) &&
    match a
    case Scan => s.scan < |c.succ|
    case Begin(t, k) => PastSeeding(c, s) && HasPhase(s, t, k, Queued)
    case EndWork(t, k) => PastSeeding(c, s) && HasPhase(s, t, k, Working)
    case Notify(t, k) =>
      PastSeeding(c, s) && t < |s.runs| && k < |s.runs[t]| && s.runs[t][k].Notifying? && s.runs[t][k].next < |c.succ[t]|
    case Count(t, k) => PastSeeding(c, s) && t < |c.succ| && HasPhase(s, t, k, Notifying(|c.succ[t]|))
    case Return => s.scan == |c.succ| && s.wait == 0 && !s.returned
  }

  ghost function SetPhase(s: State, t: nat, k: nat, ph: Phase): State
    requires t < |s.runs| && k < |s.runs[t]|
  {
    s.(runs := s.runs[t := s.runs[t][k := ph]])
  }

  ghost function Submit(s: State, t: nat): State
    requires t < |s.runs|
  {
    s.(runs := s.runs[t := s.runs[t] + [Queued]])
  }

  ghost function Apply(c: Config, s: State, a: Action): State
    requires ValidConfig(c) && Enabled(c, s, a)
  {
    match a
    case Scan =>
      var s' := s.(scan := s.scan + 1);
      if s.cond[s.scan] == 0 then Submit(s', s.scan) else s'
    case Begin(t, k) => SetPhase(s, t, k, Working).(log := s.log + [Began(t)])
    case EndWork(t, k) => SetPhase(s, t, k, Notifying(0)).(log := s.log + [Ended(t)])
    case Notify(t, k) =>
      var i := s.runs[t][k].next;
      var v := c.succ[t][i];
      var s' := SetPhase(s, t, k, Notifying(i + 1)).(cond := s.cond[v := s.cond[v] - 1]);
      if s.cond[v] - 1 == 0 then Submit(s', v) else s'
    case Count(t, k) => SetPhase(s, t, k, Done).(wait := s.wait - 1)
    case Return => s.(returned := true)
  }

  ghost predicate Step(c: Config, s: State, s': State)
    requires ValidConfig(c)
  {
    exists a :: Enabled(c, s, a) && s' == Apply(c, s, a)
  }

  // ----- the graph and its counters -------------------------------------------------------

  ghost function GraphOf(c: Config): Graph<nat> {
    map t: nat | t < |c.succ| :: c.succ[t]
  }

  ghost predicate Precedes(c: Config, p: nat, t: nat) {
    p < |c.succ| && t in c.succ[p]
  }

  ghost predicate Root(c: Config, t: nat) {
    forall p: nat :: !Precedes(c, p, t)
  }

  /** How often `t` occurs in a successor list from position `i` on. */
  function CountFrom(succ: seq<nat>, t: nat, i: nat): nat
    decreases |succ| - i
  {
    if i >= |succ| then 0 else (if succ[i] == t then 1 else 0) + CountFrom(succ, t, i + 1)
  }

  /** How many successors a task has notified, by the phase of its first submission. */
  function Notified(run: seq<Phase>, all: nat): nat {
    if run == [] then 0
    else match run[0]
      case Notifying(i) => i
      case Done => all
      case _ => 0
  }

  ghost function PendingFrom(c: Config, runs: seq<seq<Phase>>, t: nat): nat -> int {
    (p: nat) => if p < |c.succ| && p < |runs| then CountFrom(c.succ[p], t, Notified(runs[p], |c.succ[p]|)) else 0
  }

  /** The number of edges into `t`, duplicates counted, that have not been notified yet. */
  ghost function Unnotified(c: Config, runs: seq<seq<Phase>>, t: nat): int {
    SumTo(PendingFrom(c, runs, t), |c.succ|)
  }

  ghost function Open(runs: seq<seq<Phase>>): nat -> int {
    (p: nat) => if p < |runs| && runs[p] != [] && runs[p][0] == Done then 0 else 1
  }

  /** The number of tasks not counted yet. */
  ghost function Left(c: Config, runs: seq<seq<Phase>>): int {
    SumTo(Open(runs), |c.succ|)
  }

  ghost function InDegree(c: Config, t: nat): int {
    Unnotified(c, seq(|c.succ|, _ => []), t)
  }

  ghost function Init(c: Config): State {
    State(seq(|c.succ|, t requires 0 <= t => InDegree(c, t)), 0, seq(|c.succ|, _ => []), |c.succ|, false, [])
  }

  ghost predicate IsRun(c: Config, tr: seq<State>)
    requires ValidConfig(c)
  {
    |tr| > 0 && tr[0] == Init(c) && forall i :: 0 <= i < |tr| - 1 ==> Step(c, tr[i], tr[i + 1])
  }

  ghost function Last(tr: seq<State>): State
    requires |tr| > 0
  {
    tr[|tr| - 1]
  }

  // ----- the invariant --------------------------------------------------------------------

  ghost predicate Shape(c: Config, s: State) {
    && Fits(c, s)
    && forall t :: 0 <= t < |s.runs| ==>
      |s.runs[t]| <= 1 && (s.runs[t] != [] && s.runs[t][0].Notifying? ==> s.runs[t][0].next <= |c.succ[t]|)
  }

  ghost predicate Counters(c: Config, s: State) {
    forall t: nat :: t < |s.cond| ==> s.cond[t] == Unnotified(c, s.runs, t)
  }

  /** Submitted are the roots the scan has passed and the other tasks with nothing left to wait for. */
  ghost predicate Submitted(c: Config, s: State)
    requires Fits(c, s)
  {
    forall t: nat :: t < |s.runs| ==> (s.runs[t] != [] <==> s.cond[t] == 0 && (t < s.scan || !Root(c, t)))
  }

  ghost predicate HasBegun(run: seq<Phase>) {
    run != [] && run[0] != Queued
  }

  ghost predicate HasEnded(run: seq<Phase>) {
    run != [] && (run[0].Notifying? || run[0] == Done)
  }

  ghost predicate Logged(s: State) {
    && (forall t: nat :: Began(t) in s.log <==> t < |s.runs| && HasBegun(s.runs[t]))
    && forall t: nat :: Ended(t) in s.log <==> t < |s.runs| && HasEnded(s.runs[t])
  }

  ghost predicate NoEventTwice(log: seq<Event>) {
    forall i, j :: 0 <= i < j < |log| ==> log[i] != log[j]
  }

  /** Work ends after it began, and begins after the work of every direct predecessor ended. */
  ghost predicate Ordered(c: Config, log: seq<Event>) {
    && (forall i :: 0 <= i < |log| && log[i].Ended? ==> Began(log[i].task) in log[..i])
    && forall i, p :: 0 <= i < |log| && log[i].Began? && Precedes(c, p, log[i].task) ==> Ended(p) in log[..i]
  }

  ghost predicate Quiet(c: Config, s: State) {
    && (s.returned ==> s.scan == |c.succ| && s.wait == 0)
    && (c.atomicSeed && s.scan < |c.succ| ==> s.log == [])
  }

  ghost predicate CountInv(c: Config, s: State) {
    Shape(c, s) && Counters(c, s) && Submitted(c, s) && s.wait == Left(c, s.runs)
  }

  ghost predicate LogInv(c: Config, s: State) {
    Logged(s) && NoEventTwice(s.log) && Ordered(c, s.log) && Quiet(c, s)
  }

  ghost predicate Inv(c: Config, s: State) {
    CountInv(c, s) && LogInv(c, s)
  }

  // ----- counting lemmas ------------------------------------------------------------------

  lemma {:induction false} CountFromZero(succ: seq<nat>, t: nat, i: nat)
    ensures CountFrom(succ, t, i) == 0 <==> forall j :: i <= j < |succ| ==> succ[j] != t
    decreases |succ| - i
  {
    if i < |succ| {
      CountFromZero(succ, t, i + 1);
    }
  }

  lemma InitCounts(c: Config)
    ensures Left(c, seq(|c.succ|, _ => [])) == |c.succ|
  {
    SumConstant(Open(seq(|c.succ|, _ => [])), |c.succ|, 1);
  }

  /** Replacing the submissions of one task changes each counter by that task's share. */
  lemma UnnotifiedUpdate(c: Config, runs: seq<seq<Phase>>, p: nat, run: seq<Phase>, t: nat)
    requires p < |runs| == |c.succ|
    ensures Unnotified(c, runs[p := run], t) == Unnotified(c, runs, t)
      - CountFrom(c.succ[p], t, Notified(runs[p], |c.succ[p]|)) + CountFrom(c.succ[p], t, Notified(run, |c.succ[p]|))
  {
    SumUpdate(PendingFrom(c, runs, t), PendingFrom(c, runs[p := run], t), |c.succ|, p);
  }

  lemma LeftUpdate(c: Config, runs: seq<seq<Phase>>, p: nat, run: seq<Phase>)
    requires p < |runs| == |c.succ|
    ensures Left(c, runs[p := run]) == Left(c, runs) - Open(runs)(p) + Open(runs[p := run])(p)
  {
    SumUpdate(Open(runs), Open(runs[p := run]), |c.succ|, p);
  }

  lemma OpenIsLeft(c: Config, runs: seq<seq<Phase>>, t: nat)
    requires t < |runs| == |c.succ| && Open(runs)(t) == 1
    ensures Left(c, runs) >= 1
  {
    SumBounds(Open(runs), |c.succ|, t);
  }

  /** An edge not yet notified keeps its target's counter positive. */
  lemma PendingBlocks(c: Config, runs: seq<seq<Phase>>, p: nat, t: nat)
    requires p < |runs| == |c.succ|
    ensures CountFrom(c.succ[p], t, Notified(runs[p], |c.succ[p]|)) <= Unnotified(c, runs, t)
  {
    SumBounds(PendingFrom(c, runs, t), |c.succ|, p);
  }

  /** A counter at zero means that every direct predecessor has ended its work. */
  lemma ZeroMeansEnded(c: Config, s: State, p: nat, t: nat)
    requires Shape(c, s) && Precedes(c, p, t) && Unnotified(c, s.runs, t) == 0
    ensures HasEnded(s.runs[p])
  {
    PendingBlocks(c, s.runs, p, t);
    CountFromZero(c.succ[p], t, Notified(s.runs[p], |c.succ[p]|));
  }

  /** A task that has not started notifying holds back every successor. */
  lemma UnstartedBlocks(c: Config, s: State, p: nat, t: nat)
    requires Shape(c, s) && Precedes(c, p, t) && Notified(s.runs[p], |c.succ[p]|) == 0
    ensures Unnotified(c, s.runs, t) >= 1
  {
    PendingBlocks(c, s.runs, p, t);
    CountFromZero(c.succ[p], t, 0);
  }

  lemma RootsWaitForNobody(c: Config, runs: seq<seq<Phase>>, t: nat)
    requires Root(c, t)
    ensures Unnotified(c, runs, t) == 0
  {
    forall p: nat | p < |c.succ| ensures PendingFrom(c, runs, t)(p) == 0 {
      if p < |runs| {
        assert !Precedes(c, p, t);
        CountFromZero(c.succ[p], t, Notified(runs[p], |c.succ[p]|));
      }
    }
    SumConstant(PendingFrom(c, runs, t), |c.succ|, 0);
  }

  // ----- every step keeps the invariant ---------------------------------------------------

  lemma InitHolds(c: Config)
    requires ValidConfig(c)
    ensures Inv(c, Init(c))
  {
    var s := Init(c);
    InitCounts(c);
    forall t: nat | t < |c.succ| && s.cond[t] == 0 ensures Root(c, t) {
      forall p: nat ensures !Precedes(c, p, t) {
        if Precedes(c, p, t) {
          UnstartedBlocks(c, s, p, t);
        }
      }
    }
  }

  lemma LogGrows(c: Config, log: seq<Event>, e: Event)
    requires NoEventTwice(log) && Ordered(c, log) && e !in log
    requires e.Ended? ==> Began(e.task) in log
    requires e.Began? ==> forall p :: Precedes(c, p, e.task) ==> Ended(p) in log
    ensures NoEventTwice(log + [e]) && Ordered(c, log + [e])
  {
    var l := log + [e];
    assert l[..|log|] == log;
    assert forall i :: 0 <= i < |log| ==> l[..i] == log[..i];
  }

  lemma ScanKeepsInv(c: Config, s: State)
    requires ValidConfig(c) && Inv(c, s) && Enabled(c, s, Scan)
    requires s.cond[s.scan] == 0 ==> Root(c, s.scan)
    ensures Inv(c, Apply(c, s, Scan))
  {
    hide Unnotified, Left;
    var s' := Apply(c, s, Scan);
    var t := s.scan;
    if Root(c, t) {
      RootsWaitForNobody(c, s.runs, t);
      assert s.runs[t] == [] && s.runs[t] + [Queued] == [Queued];
      assert s'.runs == s.runs[t := [Queued]];
      forall u ensures Unnotified(c, s'.runs, u) == Unnotified(c, s.runs, u) {
        UnnotifiedUpdate(c, s.runs, t, [Queued], u);
      }
      LeftUpdate(c, s.runs, t, [Queued]);
    }
  }

  lemma BeginKeepsInv(c: Config, s: State, t: nat)
    requires ValidConfig(c) && Inv(c, s) && Enabled(c, s, Begin(t, 0))
    ensures Inv(c, Apply(c, s, Begin(t, 0)))
  {
    hide Unnotified, Left;
    var s' := Apply(c, s, Begin(t, 0));
    assert s.runs[t][0 := Working] == [Working];
    assert s'.runs == s.runs[t := [Working]];
    forall u ensures Unnotified(c, s'.runs, u) == Unnotified(c, s.runs, u) {
      UnnotifiedUpdate(c, s.runs, t, [Working], u);
    }
    LeftUpdate(c, s.runs, t, [Working]);
    forall p | Precedes(c, p, t) ensures Ended(p) in s.log {
      ZeroMeansEnded(c, s, p, t);
    }
    LogGrows(c, s.log, Began(t));
  }

  lemma EndKeepsInv(c: Config, s: State, t: nat)
    requires ValidConfig(c) && Inv(c, s) && Enabled(c, s, EndWork(t, 0))
    ensures Inv(c, Apply(c, s, EndWork(t, 0)))
  {
    hide Unnotified, Left;
    var s' := Apply(c, s, EndWork(t, 0));
    assert s.runs[t][0 := Notifying(0)] == [Notifying(0)];
    assert s'.runs == s.runs[t := [Notifying(0)]];
    forall u ensures Unnotified(c, s'.runs, u) == Unnotified(c, s.runs, u) {
      UnnotifiedUpdate(c, s.runs, t, [Notifying(0)], u);
    }
    LeftUpdate(c, s.runs, t, [Notifying(0)]);
    assert HasBegun(s.runs[t]);
    LogGrows(c, s.log, Ended(t));
  }

  lemma CountKeepsCounts(c: Config, s: State, t: nat, s': State)
    requires ValidConfig(c) && CountInv(c, s) && t < |c.succ| && HasPhase(s, t, 0, Notifying(|c.succ[t]|))
    requires s' == s.(runs := s.runs[t := [Done]], wait := s.wait - 1)
    ensures CountInv(c, s') && s.wait >= 1
  {
    hide Unnotified, Left;
    forall u: nat ensures Unnotified(c, s'.runs, u) == Unnotified(c, s.runs, u) {
      UnnotifiedUpdate(c, s.runs, t, [Done], u);
    }
    LeftUpdate(c, s.runs, t, [Done]);
    OpenIsLeft(c, s.runs, t);
  }

  lemma CountKeepsInv(c: Config, s: State, t: nat)
    requires ValidConfig(c) && Inv(c, s) && Enabled(c, s, Count(t, 0))
    ensures Inv(c, Apply(c, s, Count(t, 0)))
  {
    hide Unnotified, Left;
    var s' := Apply(c, s, Count(t, 0));
    assert s.runs[t][0 := Done] == [Done];
    CountKeepsCounts(c, s, t, s');
  }

  lemma NotifyFacts(c: Config, s: State, t: nat)
    requires ValidConfig(c) && Inv(c, s) && Enabled(c, s, Notify(t, 0))
    ensures var i := s.runs[t][0].next;
      var v := c.succ[t][i];
      var mid := s.runs[t := [Notifying(i + 1)]];
      && v != t && s.cond[v] >= 1 && s.runs[v] == [] && Precedes(c, t, v)
      && Left(c, mid) == s.wait
      && (forall u: nat :: Unnotified(c, mid, u) == Unnotified(c, s.runs, u) - (if u == v then 1 else 0))
      && (forall u: nat :: Unnotified(c, mid[v := [Queued]], u) == Unnotified(c, mid, u))
      && Left(c, mid[v := [Queued]]) == s.wait
  {
    hide Unnotified, Left, NoEventTwice, Ordered, Logged;
    var i := s.runs[t][0].next;
    var v := c.succ[t][i];
    var mid := s.runs[t := [Notifying(i + 1)]];
    assert v in c.succ[t];
    PendingBlocks(c, s.runs, t, v);
    forall u: nat ensures Unnotified(c, mid, u) == Unnotified(c, s.runs, u) - (if u == v then 1 else 0) {
      UnnotifiedUpdate(c, s.runs, t, [Notifying(i + 1)], u);
    }
    LeftUpdate(c, s.runs, t, [Notifying(i + 1)]);
    forall u: nat ensures Unnotified(c, mid[v := [Queued]], u) == Unnotified(c, mid, u) {
      UnnotifiedUpdate(c, mid, v, [Queued], u);
    }
    LeftUpdate(c, mid, v, [Queued]);
  }

  lemma NotifyKeepsCounts(c: Config, s: State, t: nat, i: nat, v: nat, s': State)
    requires ValidConfig(c) && Inv(c, s) && Enabled(c, s, Notify(t, 0))
    requires i == s.runs[t][0].next && v == c.succ[t][i]
    requires var mid := s.runs[t := [Notifying(i + 1)]];
      s' == s.(cond := s.cond[v := s.cond[v] - 1], runs := if s.cond[v] == 1 then mid[v := [Queued]] else mid)
    ensures CountInv(c, s')
  {
    hide Unnotified, Left;
    NotifyFacts(c, s, t);
    assert !Root(c, v);
  }

  lemma NotifyKeepsInv(c: Config, s: State, t: nat)
    requires ValidConfig(c) && Inv(c, s) && Enabled(c, s, Notify(t, 0))
    ensures Inv(c, Apply(c, s, Notify(t, 0)))
  {
    hide Unnotified, Left, Counters, NoEventTwice, Ordered;
    var s' := Apply(c, s, Notify(t, 0));
    var i := s.runs[t][0].next;
    var v := c.succ[t][i];
    NotifyFacts(c, s, t);
    assert s.runs[t][0 := Notifying(i + 1)] == [Notifying(i + 1)];
    assert s.runs[v] + [Queued] == [Queued];
    NotifyKeepsCounts(c, s, t, i, v, s');
    assert LogInv(c, s');
  }

  lemma StepKeepsInv(c: Config, s: State, a: Action)
    requires ValidConfig(c) && Inv(c, s) && Enabled(c, s, a)
    requires a.Scan? && s.cond[s.scan] == 0 ==> Root(c, s.scan)
    ensures Inv(c, Apply(c, s, a))
  {
    hide Unnotified, Left;
    match a
    case Scan => ScanKeepsInv(c, s);
    case Begin(t, k) => BeginKeepsInv(c, s, t);
    case EndWork(t, k) => EndKeepsInv(c, s, t);
    case Notify(t, k) => NotifyKeepsInv(c, s, t);
    case Count(t, k) => CountKeepsInv(c, s, t);
    case Return =>
  }
}
