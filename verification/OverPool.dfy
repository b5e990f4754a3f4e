/** What the heights say of runs over the bounded pool: each of them is a run of the scheduler. */
module OverPool {
  import opened Graphs
  import opened Confluence
  import opened Schedules
  import opened Pipeline
  import opened Overlap
  import G = GenerateDag
  import S = SimplifyNodeDep
  import E = Execution
  import ER = ExecutionRuns
  import PB = PoolBounds
  import PR = PoolRuns
  import opened EndToEnd
  import EE = EndToEndRuns

  /** A step over the pool is a step of the scheduler, or nothing to it. */
  lemma StepProjects(c: E.Config, s: System, a: Action)
    requires E.ValidConfig(c) && Enabled(c, s, a)
    ensures Apply(c, s, a).exec == s.exec || E.Step(c, s.exec, Apply(c, s, a).exec)
  {
    hide E.Apply, E.Enabled;
  }

  /** Whatever the pool does, drops included, what the scheduler goes through is one of its own runs. */
  lemma {:induction false} RunProjects(c: E.Config, o: PR.Setup, tr: seq<System>, i: nat) returns (etr: seq<E.State>)
    requires E.ValidConfig(c) && EE.IsRun(c, o, tr) && i < |tr|
    ensures E.IsRun(c, etr) && E.Last(etr) == tr[i].exec
  {
    hide Apply, Enabled, E.Step;
    if i == 0 {
      etr := [tr[0].exec];
    } else {
      etr := RunProjects(c, o, tr, i - 1);
      assert Step(c, tr[i - 1], tr[i - 1 + 1]);
      var a :| Enabled(c, tr[i - 1], a) && tr[i] == Apply(c, tr[i - 1], a);
      StepProjects(c, tr[i - 1], a);
      if tr[i].exec != tr[i - 1].exec {
        Grows(c, etr, tr[i].exec);
        etr := etr + [tr[i].exec];
      }
    }
  }

  lemma Grows(c: E.Config, etr: seq<E.State>, s: E.State)
    requires E.ValidConfig(c) && E.IsRun(c, etr) && E.Step(c, E.Last(etr), s)
    ensures E.IsRun(c, etr + [s])
  {
    hide E.Step;
    var longer := etr + [s];
    forall i | 0 <= i < |longer| - 1 ensures E.Step(c, longer[i], longer[i + 1]) {
      if i < |etr| - 1 {
        assert E.Step(c, etr[i], etr[i + 1]);
      }
    }
  }

  /** Over a pool of any size, too, a node begins only after every node of lower rank on one of its data has ended. */
  lemma HeightsGovernPoolRuns(nd: G.NodeData, dep: NodeDep, reduced: NodeDep, c: E.Config, names: seq<string>,
                              o: PR.Setup, tr: seq<System>, i: nat, j: nat, d: string, t: nat, h: int, p: nat, g: int)
    requires G.AllServed(nd) && G.Fits(nd, dep) && Acyclic(dep) && S.IsReduction(dep, reduced)
    requires Realises(c, reduced, names) && ER.SeedingSafe(c) && EE.IsRun(c, o, tr) && i < |tr|
    requires t < |names| && p < |names| && t != p
    requires G.Holds(nd, names[t], d, h) && G.Holds(nd, names[p], d, g) && G.Rank(g) < G.Rank(h)
    requires j < |tr[i].exec.log| && tr[i].exec.log[j] == E.Began(t)
    ensures E.Ended(p) in tr[i].exec.log[..j]
  {
    hide G.AllServed, G.Fits, S.IsReduction, Realises, E.IsRun, ER.SeedingSafe;
    RealisesValid(c, reduced, names);
    var etr := RunProjects(c, o, tr, i);
    RunIsNotEmpty(c, etr);
    HeightsGovernRuns(nd, dep, reduced, c, names, etr, |etr| - 1, j, d, t, h, p, g);
  }

  lemma RunIsNotEmpty(c: E.Config, etr: seq<E.State>)
    requires E.ValidConfig(c) && E.IsRun(c, etr)
    ensures |etr| > 0
  {
  }

  /** The data a run over the pool leaves. */
  ghost function LeavesOver(nd: G.NodeData, act: Behaviour, names: seq<string>, tr: seq<System>, s: Data): Data
    requires |tr| > 0
  {
    Fly(nd, act, names, tr[|tr| - 1].exec.log, s).data
  }

  /**
   * From heights to results, over the bounded pool: a run that returns leaves what running the nodes one by
   * one leaves, in any order at all that has the holders of each datum in height order.
   */
  lemma PoolRunsDoAsHeightsSay(nd: G.NodeData, dep: NodeDep, reduced: NodeDep, c: E.Config, names: seq<string>,
                               o: PR.Setup, act: Behaviour, tr: seq<System>, p: seq<string>, s: Data)
    requires G.AllServed(nd) && G.Fits(nd, dep) && S.IsReduction(dep, reduced)
    requires WellBehaved(nd, act) && CoWritersOrdered(nd, dep)
    requires Realises(c, reduced, names) && ER.SeedingSafe(c) && EE.IsRun(c, o, tr) && tr[|tr| - 1].exec.returned
    requires G.IsSchedule(nd, p) && G.HeightOrdered(nd, p)
    ensures LeavesOver(nd, act, names, tr, s) == Run(act, p, s)
  {
    hide G.AllServed, G.Fits, S.IsReduction, CoWritersOrdered, WellBehaved, Realises, ER.SeedingSafe;
    RealisesValid(c, reduced, names);
    var etr := RunProjects(c, o, tr, |tr| - 1);
    RunsDoAsHeightsSay(nd, dep, reduced, c, names, act, etr, p, s);
  }

  /**
   * The whole service, for no more nodes than the pool is sure to take: every run over the pool ends, within
   * a stated number of steps, and it can only end after `execute()` has returned and left what the heights say.
   */
  lemma PoolDelivers(nd: G.NodeData, dep: NodeDep, reduced: NodeDep, c: E.Config, names: seq<string>,
                     o: PR.Setup, act: Behaviour, tr: seq<System>, p: seq<string>, s: Data)
    requires G.AllServed(nd) && G.Fits(nd, dep) && S.IsReduction(dep, reduced)
    requires WellBehaved(nd, act) && CoWritersOrdered(nd, dep) && Realises(c, reduced, names)
    requires ER.SeedingSafe(c) && o.start < o.workers && |names| <= PB.Capacity(o.workers, o.limit, o.atomic)
    requires G.IsSchedule(nd, p) && G.HeightOrdered(nd, p) && EE.IsRun(c, o, tr)
    ensures |tr| <= 6 * ER.Measure(c, E.Init(c)) + 4 * o.workers + 1
    ensures var last := tr[|tr| - 1];
      (forall s' :: !Step(c, last, s')) ==>
        last.exec.returned && LeavesOver(nd, act, names, tr, s) == Run(act, p, s)
  {
    hide G.AllServed, G.Fits, S.IsReduction, CoWritersOrdered, WellBehaved, ER.SeedingSafe, ER.Measure;
    AcyclicExactly(nd, dep);
    G.FitsIsClosed(nd, dep);
    ReductionIsAcyclic(dep, reduced);
    RealisedIsAcyclic(c, reduced, names);
    EE.RunsComplete(c, o, tr);
    if tr[|tr| - 1].exec.returned {
      PoolRunsDoAsHeightsSay(nd, dep, reduced, c, names, o, act, tr, p, s);
    }
  }
}
