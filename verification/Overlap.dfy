/**
 * What overlapping works leave behind: each reads the data when it begins, and what it writes
 * shows when it ends, while the works of other tasks begin and end in between.
 */
module Overlap {
  import opened Graphs
  import opened Confluence
  import opened Schedules
  import opened Replays
  import opened Pipeline
  import G = GenerateDag
  import S = SimplifyNodeDep
  import E = Execution
  import ER = ExecutionRuns

  /** The data now, and what each task that has begun found. */
  datatype Flight = Flight(data: Data, found: map<nat, Data>)

  /** The write-back of one node: only the data it may write. */
  ghost function WriteBack(nd: G.NodeData, n: string, data: Data, out: Data): Data {
    map d | d in data :: if MayWrite(nd, n, d) && d in out then out[d] else data[d]
  }

  ghost function After(nd: G.NodeData, act: Behaviour, names: seq<string>, f: Flight, e: E.Event): Flight {
    if e.task >= |names| then f
    else match e
      case Began(t) => f.(found := f.found[t := f.data])
      case Ended(t) =>
        if t in f.found then f.(data := WriteBack(nd, names[t], f.data, act(names[t], f.found[t]))) else f
  }

  ghost function Fly(nd: G.NodeData, act: Behaviour, names: seq<string>, log: seq<E.Event>, s: Data): Flight {
    if log == [] then Flight(s, map[])
    else After(nd, act, names, Fly(nd, act, names, log[..|log| - 1], s), log[|log| - 1])
  }

  /** The work of `t` has begun and not ended. */
  ghost predicate InWork(log: seq<E.Event>, t: nat) {
    E.Began(t) in log && E.Ended(t) !in log
  }

  /** The work of `t` is going on when the event `i`, the end of another work, happens. */
  ghost predicate Overlaps(log: seq<E.Event>, i: nat, t: nat)
    requires i < |log|
  {
    log[i].Ended? && InWork(log[..i + 1], t)
  }

  ghost predicate WellFormed(names: seq<string>, log: seq<E.Event>) {
    && E.NoEventTwice(log)
    && forall i :: 0 <= i < |log| ==>
      log[i].task < |names| && (log[i].Ended? ==> E.Began(log[i].task) in log[..i])
  }

  /** Tasks whose works overlap have independent nodes. */
  ghost predicate OverlapsIndependent(nd: G.NodeData, names: seq<string>, log: seq<E.Event>) {
    forall i: nat, t: nat :: i < |log| && Overlaps(log, i, t) && log[i].task < |names| && t < |names| ==>
      Independent(nd, names[log[i].task], names[t])
  }

  /** So far the data are those of running the nodes one by one, and nobody in work has been disturbed. */
  ghost predicate Undisturbed(nd: G.NodeData, act: Behaviour, names: seq<string>, log: seq<E.Event>, s: Data, f: Flight)
  {
    && (forall t :: t in EndOrder(log) ==> t < |names|)
    && f.data == Run(act, NamesOf(names, EndOrder(log)), s)
    && forall t: nat :: t < |names| && InWork(log, t) ==>
      t in f.found && AgreeOn(nd, names[t], f.found[t], f.data)
  }

  lemma BeginStep(nd: G.NodeData, act: Behaviour, names: seq<string>, front: seq<E.Event>, t: nat, s: Data, f: Flight)
    requires t < |names| && WellFormed(names, front) && WellFormed(names, front + [E.Began(t)])
    requires Undisturbed(nd, act, names, front, s, f)
    ensures Undisturbed(nd, act, names, front + [E.Began(t)], s, After(nd, act, names, f, E.Began(t)))
  {
    hide AgreeOn, WellFormed, Run;
    var log := front + [E.Began(t)];
    assert log[..|log| - 1] == front;
    assert EndOrder(log) == EndOrder(front) + [] == EndOrder(front);
    SelfAgrees(nd, names[t], f.data);
    var f' := After(nd, act, names, f, E.Began(t));
    forall u: nat | u < |names| && InWork(log, u) ensures u in f'.found && AgreeOn(nd, names[u], f'.found[u], f'.data) {
      if u != t {
        assert E.Began(u) in front && InWork(front, u);
      }
    }
  }

  lemma SelfAgrees(nd: G.NodeData, n: string, data: Data)
    ensures AgreeOn(nd, n, data, data)
  {
  }

  /** Whoever ends writes back what running alone on the present data would have. */
  lemma AsIfAlone(nd: G.NodeData, act: Behaviour, n: string, found: Data, data: Data)
    requires WellBehaved(nd, act) && AgreeOn(nd, n, found, data)
    ensures WriteBack(nd, n, data, act(n, found)) == act(n, data)
  {
    var out, alone := act(n, found), act(n, data);
    assert AgreeOn(nd, n, out, alone);
    forall d | d in data ensures WriteBack(nd, n, data, out)[d] == alone[d] {
      if MayWrite(nd, n, d) {
        assert Declares(nd, n, d);
      }
    }
  }

  /** And leaves alone everything an independent node declares. */
  lemma OthersUndisturbed(nd: G.NodeData, n: string, m: string, found: Data, data: Data, out: Data)
    requires Independent(nd, n, m) && AgreeOn(nd, m, found, data)
    ensures AgreeOn(nd, m, found, WriteBack(nd, n, data, out))
  {
    forall d | d in data && Declares(nd, m, d) ensures !MayWrite(nd, n, d) {
      var g :| G.Holds(nd, m, d, g);
    }
  }

  lemma EndStep(nd: G.NodeData, act: Behaviour, names: seq<string>, front: seq<E.Event>, t: nat, s: Data, f: Flight)
    requires WellBehaved(nd, act) && t < |names|
    requires WellFormed(names, front) && WellFormed(names, front + [E.Ended(t)])
    requires OverlapsIndependent(nd, names, front + [E.Ended(t)])
    requires Undisturbed(nd, act, names, front, s, f)
    ensures Undisturbed(nd, act, names, front + [E.Ended(t)], s, After(nd, act, names, f, E.Ended(t)))
  {
    hide AgreeOn, WellBehaved, Run, Independent, WellFormed, WriteBack, OverlapsIndependent, InWork;
    var log := front + [E.Ended(t)];
    EndsInWork(names, front, t);
    var data := WriteBack(nd, names[t], f.data, act(names[t], f.found[t]));
    EndExtends(nd, act, names, front, t, s, f);
    forall u: nat | u < |names| && InWork(log, u) ensures u in f.found && AgreeOn(nd, names[u], f.found[u], data) {
      StillInWork(front, t, u);
      OverlapApplies(nd, names, front, t, u);
      OthersUndisturbed(nd, names[t], names[u], f.found[u], f.data, act(names[t], f.found[t]));
    }
  }

  lemma StillInWork(front: seq<E.Event>, t: nat, u: nat)
    requires InWork(front + [E.Ended(t)], u)
    ensures InWork(front, u) && u != t
  {
    var log := front + [E.Ended(t)];
    assert log[|front|] == E.Ended(t);
  }

  lemma OverlapApplies(nd: G.NodeData, names: seq<string>, front: seq<E.Event>, t: nat, u: nat)
    requires OverlapsIndependent(nd, names, front + [E.Ended(t)])
    requires t < |names| && u < |names| && InWork(front + [E.Ended(t)], u)
    ensures Independent(nd, names[t], names[u])
  {
    hide Independent, InWork;
    var log := front + [E.Ended(t)];
    assert log[..|front| + 1] == log && log[|front|].task == t;
  }

  lemma EndExtends(nd: G.NodeData, act: Behaviour, names: seq<string>, front: seq<E.Event>, t: nat, s: Data, f: Flight)
    requires WellBehaved(nd, act) && t < |names| && InWork(front, t) && Undisturbed(nd, act, names, front, s, f)
    ensures var order := EndOrder(front + [E.Ended(t)]);
      && (forall u :: u in order ==> u < |names|)
      && WriteBack(nd, names[t], f.data, act(names[t], f.found[t])) == Run(act, NamesOf(names, order), s)
  {
    AsIfAlone(nd, act, names[t], f.found[t], f.data);
    hide AgreeOn, WellBehaved, Run, WriteBack, InWork, EndOrder, NamesOf;
    EndOrderGrows(front, t);
    OneMoreRun(act, names, EndOrder(front), t, s);
  }

  lemma EndOrderGrows(front: seq<E.Event>, t: nat)
    ensures EndOrder(front + [E.Ended(t)]) == EndOrder(front) + [t]
  {
    var log := front + [E.Ended(t)];
    assert log[..|log| - 1] == front;
  }

  /** Running one more node. */
  lemma OneMoreRun(act: Behaviour, names: seq<string>, order: seq<nat>, t: nat, s: Data)
    requires t < |names| && forall u :: u in order ==> u < |names|
    ensures (forall u :: u in order + [t] ==> u < |names|)
    ensures Run(act, NamesOf(names, order + [t]), s) == act(names[t], Run(act, NamesOf(names, order), s))
  {
    NamesGrow(names, order, t);
    hide Run, NamesOf;
    RunSplit(act, NamesOf(names, order), [names[t]], s);
    RunOne(act, names[t], Run(act, NamesOf(names, order), s));
  }

  lemma NamesGrow(names: seq<string>, order: seq<nat>, t: nat)
    requires t < |names| && forall u :: u in order ==> u < |names|
    ensures (forall u :: u in order + [t] ==> u < |names|)
    ensures NamesOf(names, order + [t]) == NamesOf(names, order) + [names[t]]
  {
    assert forall u :: u in order + [t] ==> u in order || u == t;
    var longer := NamesOf(names, order + [t]);
    assert |longer| == |order| + 1 && longer[|order|] == names[t];
    assert longer[..|order|] == NamesOf(names, order);
  }

  lemma RunOne(act: Behaviour, n: string, s: Data)
    ensures Run(act, [n], s) == act(n, s)
  {
    assert Run(act, [n], s) == Run(act, [n][1..], act(n, s));
  }

  lemma EndsInWork(names: seq<string>, front: seq<E.Event>, t: nat)
    requires WellFormed(names, front + [E.Ended(t)])
    ensures InWork(front, t)
  {
    var log := front + [E.Ended(t)];
    var n := |front|;
    assert log[n].Ended? && log[n].task == t && log[..n] == front;
    OnlyOnce(log);
  }

  lemma Prefix(nd: G.NodeData, names: seq<string>, log: seq<E.Event>, k: nat)
    requires WellFormed(names, log) && k <= |log|
    ensures WellFormed(names, log[..k])
    ensures OverlapsIndependent(nd, names, log) ==> OverlapsIndependent(nd, names, log[..k])
  {
    hide Independent;
    assert forall i :: 0 <= i <= k ==> log[..k][..i] == log[..i];
    if OverlapsIndependent(nd, names, log) {
      PrefixOverlaps(nd, names, log, k);
    }
  }

  lemma PrefixOverlaps(nd: G.NodeData, names: seq<string>, log: seq<E.Event>, k: nat)
    requires OverlapsIndependent(nd, names, log) && k <= |log|
    ensures OverlapsIndependent(nd, names, log[..k])
  {
    hide Independent, InWork;
    forall i: nat, t: nat | i < k && Overlaps(log[..k], i, t) ensures Overlaps(log, i, t) {
      assert log[..k][..i + 1] == log[..i + 1];
    }
  }

  /** If overlapping works are independent, overlapping leaves what running one by one leaves. */
  lemma {:induction false} OverlapIsHarmless(nd: G.NodeData, act: Behaviour, names: seq<string>, log: seq<E.Event>,
                                             s: Data)
    requires WellBehaved(nd, act) && WellFormed(names, log) && OverlapsIndependent(nd, names, log)
    ensures Undisturbed(nd, act, names, log, s, Fly(nd, act, names, log, s))
  {
    hide WellBehaved, WellFormed, OverlapsIndependent;
    if log == [] {
      assert NamesOf(names, EndOrder(log)) == [];
    } else {
      var k := |log| - 1;
      Prefix(nd, names, log, k);
      OverlapIsHarmless(nd, act, names, log[..k], s);
      var f := Fly(nd, act, names, log[..k], s);
      assert log == log[..k] + [log[k]];
      TaskInRange(names, log);
      match log[k]
      case Began(t) => BeginStep(nd, act, names, log[..k], t, s, f);
      case Ended(t) => EndStep(nd, act, names, log[..k], t, s, f);
    }
  }

  lemma TaskInRange(names: seq<string>, log: seq<E.Event>)
    requires WellFormed(names, log) && log != []
    ensures log[|log| - 1].task < |names|
  {
  }

  // ----- overlapping works are independent ------------------------------------------------

  /** Of two tasks whose works overlap neither waits for the other. */
  lemma OverlapIsUnordered(c: E.Config, log: seq<E.Event>, i: nat, t: nat)
    requires E.ValidConfig(c) && E.Ordered(c, log) && E.NoEventTwice(log)
    requires i < |log| && Overlaps(log, i, t)
    ensures !Reach(E.GraphOf(c), t, log[i].task) && !Reach(E.GraphOf(c), log[i].task, t)
  {
    var u := log[i].task;
    var b: nat :| b < i && log[b] == E.Began(u);
    var k: nat :| k <= i && log[k] == E.Began(t);
    Nested(log, b, i + 1);
    if Reach(E.GraphOf(c), t, u) {
      var p: seq<nat> :| Joins(E.GraphOf(c), p, t, u);
      ER.AncestorsEndFirst(c, log, p, b);
    }
    if Reach(E.GraphOf(c), u, t) {
      var p: seq<nat> :| Joins(E.GraphOf(c), p, u, t);
      ER.AncestorsEndFirst(c, log, p, k);
    }
  }

  lemma Nested(log: seq<E.Event>, b: nat, k: nat)
    requires b <= k <= |log|
    ensures forall e :: e in log[..b] ==> e in log[..k]
  {
  }

  lemma OverlapsAreIndependent(nd: G.NodeData, dep: NodeDep, reduced: NodeDep, c: E.Config, names: seq<string>,
                               log: seq<E.Event>)
    requires G.AllServed(nd) && G.Fits(nd, dep) && Acyclic(dep)
    requires S.IsReduction(dep, reduced) && CoWritersOrdered(nd, dep)
    requires Realises(c, reduced, names) && E.Ordered(c, log) && E.NoEventTwice(log)
    ensures OverlapsIndependent(nd, names, log)
  {
    hide G.AllServed, G.Fits, S.IsReduction, CoWritersOrdered, E.Ordered, E.NoEventTwice, Independent, InWork;
    forall i: nat, t: nat | i < |log| && Overlaps(log, i, t) && log[i].task < |names| && t < |names|
      ensures Independent(nd, names[log[i].task], names[t])
    {
      OverlapIsUnordered(c, log, i, t);
      NotTheSame(log, i, t);
      UnorderedTasks(nd, dep, reduced, c, names, log[i].task, t);
    }
  }

  lemma NotTheSame(log: seq<E.Event>, i: nat, t: nat)
    requires i < |log| && Overlaps(log, i, t)
    ensures log[i].task != t
  {
    assert log[..i + 1][i] == log[i];
  }

  lemma UnorderedTasks(nd: G.NodeData, dep: NodeDep, reduced: NodeDep, c: E.Config, names: seq<string>, u: nat, t: nat)
    requires G.AllServed(nd) && G.Fits(nd, dep) && Acyclic(dep)
    requires S.IsReduction(dep, reduced) && CoWritersOrdered(nd, dep)
    requires Realises(c, reduced, names) && u < |names| && t < |names| && u != t
    requires !Reach(E.GraphOf(c), t, u) && !Reach(E.GraphOf(c), u, t)
    ensures Independent(nd, names[u], names[t])
  {
    hide G.AllServed, CoWritersOrdered, Independent;
    G.FitsIsClosed(nd, dep);
    S.ReachabilityPreserved(dep, reduced, names[u], names[t]);
    S.ReachabilityPreserved(dep, reduced, names[t], names[u]);
    if Reach(reduced, names[u], names[t]) {
      var path :| Joins(reduced, path, names[u], names[t]);
      PathReversed(c, reduced, names, path, u, t);
    }
    if Reach(reduced, names[t], names[u]) {
      var path :| Joins(reduced, path, names[t], names[u]);
      PathReversed(c, reduced, names, path, t, u);
    }
    UnorderedAreIndependent(nd, dep, names[u], names[t]);
  }

  // ----- what a run leaves ----------------------------------------------------------------

  ghost predicate Returns(c: E.Config, tr: seq<E.State>)
    requires E.ValidConfig(c)
  {
    E.IsRun(c, tr) && E.Last(tr).returned
  }

  /** The data a run leaves. */
  ghost function Leaves(nd: G.NodeData, act: Behaviour, names: seq<string>, tr: seq<E.State>, s: Data): Data
    requires |tr| > 0
  {
    Fly(nd, act, names, E.Last(tr).log, s).data
  }

  lemma LogIsWellFormed(c: E.Config, names: seq<string>, log: seq<E.Event>)
    requires |names| == |c.succ| && E.Ordered(c, log) && E.NoEventTwice(log)
    requires forall t: nat :: E.Ended(t) in log <==> t < |c.succ|
    requires forall t: nat :: E.Began(t) in log ==> t < |c.succ|
    ensures WellFormed(names, log)
  {
    forall i | 0 <= i < |log| ensures log[i].task < |names| {
      assert log[i] in log;
      assert log[i] == E.Began(log[i].task) || log[i] == E.Ended(log[i].task);
    }
  }

  lemma OnlyTasksBegin(c: E.Config, tr: seq<E.State>)
    requires E.ValidConfig(c) && ER.SeedingSafe(c) && Returns(c, tr)
    ensures forall t: nat :: E.Began(t) in E.Last(tr).log ==> t < |c.succ|
  {
    hide E.CountInv, E.Ordered, E.NoEventTwice, E.Quiet;
    ER.RunsKeepInv(c, tr, |tr| - 1);
    RunsFit(c, tr);
  }

  /** With ordered co-writers a run leaves what running the nodes one by one, as they ended, would leave. */
  lemma RunLeavesSequential(nd: G.NodeData, dep: NodeDep, reduced: NodeDep, c: E.Config, names: seq<string>,
                            act: Behaviour, tr: seq<E.State>, s: Data)
    requires G.AllServed(nd) && G.Fits(nd, dep) && Acyclic(dep) && S.IsReduction(dep, reduced)
    requires WellBehaved(nd, act) && CoWritersOrdered(nd, dep)
    requires Realises(c, reduced, names) && ER.SeedingSafe(c) && Returns(c, tr)
    ensures var order := EndOrder(E.Last(tr).log);
      && (forall t :: t in order ==> t < |names|)
      && G.IsSchedule(nd, NamesOf(names, order)) && G.Respects(dep, NamesOf(names, order))
      && Leaves(nd, act, names, tr, s) == Run(act, NamesOf(names, order), s)
  {
    hide G.AllServed, G.Fits, S.IsReduction, CoWritersOrdered, WellBehaved, E.Ordered, E.NoEventTwice, G.IsSchedule;
    var log := E.Last(tr).log;
    RunIsSchedule(nd, dep, reduced, c, names, tr);
    RunFacts(c, tr);
    OnlyTasksBegin(c, tr);
    LogIsWellFormed(c, names, log);
    OverlapsAreIndependent(nd, dep, reduced, c, names, log);
    OverlapIsHarmless(nd, act, names, log, s);
  }

  /**
   * From heights to results: whatever the interleaving, a run that returns leaves what running the nodes
   * one by one leaves, in any order at all that has the holders of each datum in height order.
   */
  lemma RunsDoAsHeightsSay(nd: G.NodeData, dep: NodeDep, reduced: NodeDep, c: E.Config, names: seq<string>,
                           act: Behaviour, tr: seq<E.State>, p: seq<string>, s: Data)
    requires G.AllServed(nd) && G.Fits(nd, dep) && S.IsReduction(dep, reduced)
    requires WellBehaved(nd, act) && CoWritersOrdered(nd, dep)
    requires Realises(c, reduced, names) && ER.SeedingSafe(c) && Returns(c, tr)
    requires G.IsSchedule(nd, p) && G.HeightOrdered(nd, p)
    ensures Leaves(nd, act, names, tr, s) == Run(act, p, s)
  {
    hide G.AllServed, G.Fits, S.IsReduction, CoWritersOrdered, WellBehaved, Realises;
    AcyclicExactly(nd, dep);
    G.ExactSchedules(nd, dep, p);
    RunLeavesSequential(nd, dep, reduced, c, names, act, tr, s);
    SchedulesAgree(nd, dep, act, p, NamesOf(names, EndOrder(E.Last(tr).log)), s);
  }

  // ----- the condition is exact -----------------------------------------------------------

  ghost function TaskOf(names: seq<string>, n: string): nat
    requires n in names
  {
    var k: nat :| k < |names| && names[k] == n;
    k
  }

  ghost function TasksOf(names: seq<string>, p: seq<string>): seq<nat>
    requires forall n :: n in p ==> n in names
  {
    seq(|p|, i requires 0 <= i < |p| => assert p[i] in p; TaskOf(names, p[i]))
  }

  lemma TasksInOrder(nd: G.NodeData, dep: NodeDep, reduced: NodeDep, c: E.Config, names: seq<string>, p: seq<string>)
    requires S.IsReduction(dep, reduced) && Realises(c, reduced, names)
    requires ListsOnce(p, reduced.Keys) && G.Respects(dep, p)
    ensures IsOrder(c, TasksOf(names, p))
    ensures forall t :: t in TasksOf(names, p) ==> t < |names|
    ensures NamesOf(names, TasksOf(names, p)) == p
  {
    var order := TasksOf(names, p);
    forall i | 0 <= i < |p| ensures order[i] < |names| && names[order[i]] == p[i] {
      assert p[i] in p;
    }
    forall t: nat | t < |names| ensures t in order {
      assert names[t] in names;
      var i :| 0 <= i < |p| && p[i] == names[t];
      assert order[i] == t;
    }
    forall i, j | 0 <= i < |order| && 0 <= j < |order| && E.Precedes(c, order[j], order[i]) ensures j < i {
      assert Edge(reduced, p[i], p[j]);
      assert Edge(dep, p[i], p[j]);
    }
  }

  /** Where nothing overlaps, what is left is what running the nodes one by one leaves. */
  lemma {:induction false} OneByOneLeaves(nd: G.NodeData, act: Behaviour, names: seq<string>, order: seq<nat>, s: Data)
    requires WellBehaved(nd, act) && forall t :: t in order ==> t < |names|
    ensures Fly(nd, act, names, OneByOne(order), s).data == Run(act, NamesOf(names, order), s)
  {
    hide WellBehaved, WriteBack, Run, AgreeOn;
    if order == [] {
      assert NamesOf(names, order) == [];
      RunNothing(act, s);
    } else {
      var k := |order| - 1;
      var front, t := order[..k], order[k];
      assert order == front + [t];
      assert t in order && forall u :: u in front ==> u in order;
      OneByOneLeaves(nd, act, names, front, s);
      var data := Fly(nd, act, names, OneByOne(front), s).data;
      hide Fly, NamesOf;
      FlyOne(nd, act, names, OneByOne(front), t, s);
      SelfAgrees(nd, names[t], data);
      AsIfAlone(nd, act, names[t], data, data);
      OneMoreRun(act, names, front, t, s);
    }
  }

  /** A work that begins and ends with nothing in between. */
  lemma FlyOne(nd: G.NodeData, act: Behaviour, names: seq<string>, log: seq<E.Event>, t: nat, s: Data)
    requires t < |names|
    ensures var data := Fly(nd, act, names, log, s).data;
      Fly(nd, act, names, log + [E.Began(t), E.Ended(t)], s).data
        == WriteBack(nd, names[t], data, act(names[t], data))
  {
    hide WriteBack;
    var begun := log + [E.Began(t)];
    assert begun[..|begun| - 1] == log;
    var ended := log + [E.Began(t), E.Ended(t)];
    assert ended[..|ended| - 1] == begun;
  }

  lemma RunNothing(act: Behaviour, s: Data)
    ensures Run(act, [], s) == s
  {
  }

  /** Every order the dependencies allow is the order of a run, and that run leaves its result. */
  lemma ScheduleRuns(nd: G.NodeData, dep: NodeDep, reduced: NodeDep, c: E.Config, names: seq<string>,
                     act: Behaviour, p: seq<string>, s: Data) returns (tr: seq<E.State>)
    requires G.Fits(nd, dep) && S.IsReduction(dep, reduced) && Realises(c, reduced, names) && WellBehaved(nd, act)
    requires G.IsSchedule(nd, p) && G.Respects(dep, p)
    ensures Returns(c, tr) && Leaves(nd, act, names, tr, s) == Run(act, p, s)
  {
    hide WellBehaved;
    TasksInOrder(nd, dep, reduced, c, names, p);
    tr := EveryOrderRuns(c, TasksOf(names, p));
    OneByOneLeaves(nd, act, names, TasksOf(names, p), s);
  }

  /** Any two runs of any well-behaved nodes leave the same data. */
  ghost predicate Deterministic(nd: G.NodeData, c: E.Config, names: seq<string>)
    requires E.ValidConfig(c)
  {
    forall act, tr, ts, s :: WellBehaved(nd, act) && Returns(c, tr) && Returns(c, ts) ==>
      Leaves(nd, act, names, tr, s) == Leaves(nd, act, names, ts, s)
  }

  /** The pipeline is deterministic exactly if co-writers of one height are ordered by other data. */
  lemma DeterministicExactly(nd: G.NodeData, dep: NodeDep, reduced: NodeDep, c: E.Config, names: seq<string>)
    requires G.AllServed(nd) && G.Fits(nd, dep) && Acyclic(dep) && S.IsReduction(dep, reduced)
    requires Realises(c, reduced, names) && ER.SeedingSafe(c)
    ensures Deterministic(nd, c, names) <==> CoWritersOrdered(nd, dep)
  {
    hide G.AllServed, G.Fits, S.IsReduction, CoWritersOrdered, WellBehaved, Realises, Leaves;
    RealisesValid(c, reduced, names);
    if CoWritersOrdered(nd, dep) {
      var p := ScheduleExists(nd, dep);
      G.ExactSchedules(nd, dep, p);
      forall act, tr, ts, s | WellBehaved(nd, act) && Returns(c, tr) && Returns(c, ts)
        ensures Leaves(nd, act, names, tr, s) == Leaves(nd, act, names, ts, s)
      {
        RunsDoAsHeightsSay(nd, dep, reduced, c, names, act, tr, p, s);
        RunsDoAsHeightsSay(nd, dep, reduced, c, names, act, ts, p, s);
      }
    } else {
      var act, p, q, s := UnorderedWritersDisagree(nd, dep);
      var tr := ScheduleRuns(nd, dep, reduced, c, names, act, p, s);
      var ts := ScheduleRuns(nd, dep, reduced, c, names, act, q, s);
      assert Leaves(nd, act, names, tr, s) != Leaves(nd, act, names, ts, s);
    }
  }

  lemma RealisesValid(c: E.Config, reduced: NodeDep, names: seq<string>)
    requires Realises(c, reduced, names)
    ensures E.ValidConfig(c)
  {
  }
}
