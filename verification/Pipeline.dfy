/**
 * The three components together: heights become dependencies, the dependencies are reduced, and a
 * scheduler built on the reduced ones runs the nodes in height order.
 */
module Pipeline {
  import opened Graphs
  import G = GenerateDag
  import S = SimplifyNodeDep
  import E = Execution
  import ER = ExecutionRuns

  lemma ReachGoesBack(dep: NodeDep, order: seq<string>, i: nat, j: nat)
    requires Closed(dep) && ListsOnce(order, dep.Keys) && G.Respects(dep, order)
    requires i < |order| && j < |order| && Reach(dep, order[i], order[j])
    ensures j < i
  {
    var p :| Joins(dep, p, order[i], order[j]);
    forall k | 0 <= k < |p| ensures p[k] in order {
      if k > 0 {
        assert Edge(dep, p[k - 1], p[k]);
      }
    }
    G.PathGoesBack(dep, order, p, i, j);
  }

  /** The reduced dependencies allow exactly the same node orders as the generated ones. */
  lemma SameSchedules(dep: NodeDep, reduced: NodeDep, order: seq<string>)
    requires Closed(dep) && Acyclic(dep) && S.IsReduction(dep, reduced) && ListsOnce(order, dep.Keys)
    ensures G.Respects(reduced, order) <==> G.Respects(dep, order)
  {
    if G.Respects(reduced, order) {
      forall i, j | 0 <= i < |order| && 0 <= j < |order| && Edge(dep, order[i], order[j]) ensures j < i {
        EdgeReaches(dep, order[i], order[j]);
        S.ReachabilityPreserved(dep, reduced, order[i], order[j]);
        ReachGoesBack(reduced, order, i, j);
      }
    }
    if G.Respects(dep, order) {
      forall i, j | 0 <= i < |order| && 0 <= j < |order| && Edge(reduced, order[i], order[j]) ensures j < i {
        assert Edge(dep, order[i], order[j]);
      }
    }
  }

  /** Through both steps: the reduced dependencies allow exactly the orders the heights ask for. */
  lemma ReducedSchedulesExact(nd: G.NodeData, dep: NodeDep, reduced: NodeDep, order: seq<string>)
    requires G.AllServed(nd) && G.Fits(nd, dep) && Acyclic(dep) && S.IsReduction(dep, reduced)
    requires G.IsSchedule(nd, order)
    ensures G.Respects(reduced, order) <==> G.HeightOrdered(nd, order)
  {
    G.FitsIsClosed(nd, dep);
    SameSchedules(dep, reduced, order);
    G.ExactSchedules(nd, dep, order);
  }

  // ----- the scheduler built on the dependencies ------------------------------------------

  /** Task `t` stands for node `names[t]` and was made to wait for the tasks of the nodes it depends on. */
  ghost predicate Realises(c: E.Config, dep: NodeDep, names: seq<string>) {
    && E.ValidConfig(c) && |names| == |c.succ| && ListsOnce(names, dep.Keys)
    && forall p: nat, t: nat :: p < |names| && t < |names| ==> (E.Precedes(c, p, t) <==> Edge(dep, names[t], names[p]))
  }

  /** The tasks below `k` that wait for task `p`. */
  function Followers(dep: NodeDep, names: seq<string>, p: nat, k: nat): (ts: seq<nat>)
    requires p < |names| && k <= |names|
    ensures forall t: nat :: t in ts <==> t < k && names[t] in dep && names[p] in dep[names[t]]
  {
    if k == 0 then []
    else
      var t := k - 1;
      Followers(dep, names, p, t) + (if names[t] in dep && names[p] in dep[names[t]] then [t] else [])
  }

  /** Whatever the dependencies and the order of `add_task`, there is such a scheduler. */
  lemma RealisationExists(dep: NodeDep, names: seq<string>, atomicSeed: bool) returns (c: E.Config)
    requires ListsOnce(names, dep.Keys)
    ensures Realises(c, dep, names) && c.atomicSeed == atomicSeed
  {
    c := E.Config(seq(|names|, p requires 0 <= p < |names| => Followers(dep, names, p, |names|)), atomicSeed);
    forall t, i | 0 <= t < |c.succ| && 0 <= i < |c.succ[t]| ensures c.succ[t][i] < |c.succ| {
      assert c.succ[t][i] in Followers(dep, names, t, |names|);
    }
  }

  lemma {:induction false} PathReversed(c: E.Config, dep: NodeDep, names: seq<string>, path: seq<string>, t: nat,
                                        p: nat)
    requires Closed(dep) && Realises(c, dep, names) && t < |names| && p < |names|
    requires Joins(dep, path, names[t], names[p])
    ensures Reach(E.GraphOf(c), p, t)
    decreases |path|
  {
    ER.GraphIsClosed(c);
    assert Edge(dep, path[0], path[1]);
    assert path[1] in dep[path[0]] && path[1] in names;
    var k :| 0 <= k < |names| && names[k] == path[1];
    var m: nat := k;
    assert E.Precedes(c, m, t);
    EdgeReaches(E.GraphOf(c), m, t);
    if |path| == 2 {
      assert m == p;
    } else {
      var rest := path[1..];
      forall i | 0 <= i < |rest| - 1 ensures Edge(dep, rest[i], rest[i + 1]) {
        assert Edge(dep, path[i + 1], path[i + 2]);
      }
      PathReversed(c, dep, names, rest, m, p);
      ReachTransitive(E.GraphOf(c), p, m, t);
    }
  }

  lemma {:induction false} PathForward(c: E.Config, dep: NodeDep, names: seq<string>, path: seq<nat>, p: nat, t: nat)
    requires Closed(dep) && Realises(c, dep, names) && p < |names| && Joins(E.GraphOf(c), path, p, t)
    ensures t < |names| && Reach(dep, names[t], names[p])
    decreases |path|
  {
    ER.GraphIsClosed(c);
    var m := path[1];
    assert Edge(E.GraphOf(c), path[0], path[1]);
    assert E.Precedes(c, p, m);
    EdgeReaches(dep, names[m], names[p]);
    if |path| > 2 {
      var rest := path[1..];
      forall i | 0 <= i < |rest| - 1 ensures Edge(E.GraphOf(c), rest[i], rest[i + 1]) {
        assert Edge(E.GraphOf(c), path[i + 1], path[i + 2]);
      }
      PathForward(c, dep, names, rest, m, t);
      ReachTransitive(dep, names[t], names[m], names[p]);
    }
  }

  /** An acyclic result gives an acyclic task graph, so what is proved of runs to completion applies. */
  lemma RealisedIsAcyclic(c: E.Config, dep: NodeDep, names: seq<string>)
    requires Closed(dep) && Acyclic(dep) && Realises(c, dep, names)
    ensures Acyclic(E.GraphOf(c))
  {
    ER.GraphIsClosed(c);
    forall t: nat ensures !Reach(E.GraphOf(c), t, t) {
      if Reach(E.GraphOf(c), t, t) {
        var path :| Joins(E.GraphOf(c), path, t, t);
        assert Edge(E.GraphOf(c), path[0], path[1]);
        PathForward(c, dep, names, path, t, t);
      }
    }
  }

  /**
   * From heights to runs: in every run of a scheduler built on the reduced dependencies, a node's work
   * begins only after the work of every node of lower rank on one of its data has ended.
   */
  lemma HeightsGovernRuns(nd: G.NodeData, dep: NodeDep, reduced: NodeDep, c: E.Config, names: seq<string>,
                          tr: seq<E.State>, i: nat, j: nat, d: string, t: nat, h: int, p: nat, g: int)
    requires G.AllServed(nd) && G.Fits(nd, dep) && Acyclic(dep) && S.IsReduction(dep, reduced)
    requires Realises(c, reduced, names) && ER.SeedingSafe(c) && E.IsRun(c, tr) && i < |tr|
    requires t < |names| && p < |names| && t != p
    requires G.Holds(nd, names[t], d, h) && G.Holds(nd, names[p], d, g) && G.Rank(g) < G.Rank(h)
    requires j < |tr[i].log| && tr[i].log[j] == E.Began(t)
    ensures E.Ended(p) in tr[i].log[..j]
  {
    G.FitsIsClosed(nd, dep);
    G.DatumChain(nd, dep, d, names[t], h, names[p], g);
    S.ReachabilityPreserved(dep, reduced, names[t], names[p]);
    var path :| Joins(reduced, path, names[t], names[p]);
    PathReversed(c, reduced, names, path, t, p);
    ER.DependencySafety(c, tr, i, j, p, t);
  }

  // ----- from runs to results -------------------------------------------------------------

  /** The tasks in the order in which their work ended. */
  ghost function EndOrder(log: seq<E.Event>): seq<nat> {
    if log == [] then []
    else
      var e := log[|log| - 1];
      EndOrder(log[..|log| - 1]) + (if e.Ended? then [e.task] else [])
  }

  lemma {:induction false} EndOrderMembers(log: seq<E.Event>, t: nat)
    ensures t in EndOrder(log) <==> E.Ended(t) in log
  {
    if log != [] {
      EndOrderMembers(log[..|log| - 1], t);
      assert log == log[..|log| - 1] + [log[|log| - 1]];
    }
  }

  ghost predicate EndsInOrder(c: E.Config, order: seq<nat>) {
    && (forall i, j :: 0 <= i < j < |order| ==> order[i] != order[j])
    && forall i, j :: 0 <= i < |order| && 0 <= j < |order| && E.Precedes(c, order[j], order[i]) ==> j < i
  }

  lemma {:induction false} EndOrderRespects(c: E.Config, log: seq<E.Event>)
    requires E.ValidConfig(c) && Acyclic(E.GraphOf(c)) && E.Ordered(c, log) && E.NoEventTwice(log)
    ensures EndsInOrder(c, EndOrder(log))
  {
    if log != [] {
      var n := |log| - 1;
      var front, e := log[..n], log[n];
      assert forall i :: 0 <= i < n ==> front[..i] == log[..i];
      EndOrderRespects(c, front);
      if e.Ended? {
        EndComesLast(c, log);
      }
    }
  }

  lemma EndComesLast(c: E.Config, log: seq<E.Event>)
    requires E.ValidConfig(c) && Acyclic(E.GraphOf(c)) && E.Ordered(c, log) && E.NoEventTwice(log)
    requires log != [] && log[|log| - 1].Ended? && EndsInOrder(c, EndOrder(log[..|log| - 1]))
    ensures EndsInOrder(c, EndOrder(log))
  {
    hide E.Ordered, E.NoEventTwice;
    var n := |log| - 1;
    var before, t := EndOrder(log[..n]), log[n].task;
    EndOrderMembers(log[..n], t);
    ER.GraphIsClosed(c);
    if E.Precedes(c, t, t) {
      EdgeReaches(E.GraphOf(c), t, t);
    }
    assert t !in before by {
      OnlyOnce(log);
    }
    forall i | 0 <= i < |before| ensures !E.Precedes(c, t, before[i]) {
      EndOrderMembers(log[..n], before[i]);
      StillToEnd(c, log, t, before[i]);
    }
  }

  lemma OnlyOnce(log: seq<E.Event>)
    requires E.NoEventTwice(log) && log != []
    ensures log[|log| - 1] !in log[..|log| - 1]
  {
  }

  /** Whoever waits for `t` cannot have ended before `t` did. */
  lemma StillToEnd(c: E.Config, log: seq<E.Event>, t: nat, u: nat)
    requires E.Ordered(c, log) && E.NoEventTwice(log) && log != [] && log[|log| - 1] == E.Ended(t)
    requires E.Ended(u) in log[..|log| - 1]
    ensures !E.Precedes(c, t, u)
  {
    var k :| 0 <= k < |log| - 1 && log[k] == E.Ended(u);
    var b :| 0 <= b < k && log[b] == E.Began(u);
    assert log[b].task == u;
  }

  ghost function NamesOf(names: seq<string>, tasks: seq<nat>): seq<string>
    requires forall t :: t in tasks ==> t < |names|
  {
    seq(|tasks|, i requires 0 <= i < |tasks| => assert tasks[i] in tasks; names[tasks[i]])
  }

  /** A run that has returned has ended the nodes in an order the dependencies allow. */
  lemma RunIsSchedule(nd: G.NodeData, dep: NodeDep, reduced: NodeDep, c: E.Config, names: seq<string>, tr: seq<E.State>)
    requires G.Fits(nd, dep) && Acyclic(dep) && S.IsReduction(dep, reduced)
    requires Realises(c, reduced, names) && ER.SeedingSafe(c) && E.IsRun(c, tr) && E.Last(tr).returned
    ensures var order := EndOrder(E.Last(tr).log);
      && (forall t :: t in order ==> t < |names|)
      && G.IsSchedule(nd, NamesOf(names, order)) && G.Respects(dep, NamesOf(names, order))
  {
    var log := E.Last(tr).log;
    var order := EndOrder(log);
    G.FitsIsClosed(nd, dep);
    ReductionIsAcyclic(dep, reduced);
    RealisedIsAcyclic(c, reduced, names);
    RunFacts(c, tr);
    EndOrderRespects(c, log);
    forall t: nat ensures t in order <==> t < |names| {
      EndOrderMembers(log, t);
    }
    OrderedNames(nd, reduced, c, names, order);
    SameSchedules(dep, reduced, NamesOf(names, order));
  }

  lemma ReductionIsAcyclic(dep: NodeDep, reduced: NodeDep)
    requires Closed(dep) && Acyclic(dep) && S.IsReduction(dep, reduced)
    ensures Closed(reduced) && Acyclic(reduced)
  {
    forall n ensures !Reach(reduced, n, n) {
      S.ReachabilityPreserved(dep, reduced, n, n);
    }
  }

  lemma RunFacts(c: E.Config, tr: seq<E.State>)
    requires E.ValidConfig(c) && ER.SeedingSafe(c) && E.IsRun(c, tr) && E.Last(tr).returned
    ensures var log := E.Last(tr).log;
      E.Ordered(c, log) && E.NoEventTwice(log) && forall t: nat :: E.Ended(t) in log <==> t < |c.succ|
  {
    hide E.CountInv, E.Ordered, E.NoEventTwice, E.Quiet;
    ER.RunsKeepInv(c, tr, |tr| - 1);
    ER.ExactlyOnce(c, tr, |tr| - 1);
    RunsFit(c, tr);
  }

  lemma RunsFit(c: E.Config, tr: seq<E.State>)
    requires E.ValidConfig(c) && ER.SeedingSafe(c) && E.IsRun(c, tr)
    ensures |E.Last(tr).runs| == |c.succ|
  {
    hide E.LogInv, E.Counters, E.Submitted, E.Left;
    ER.RunsKeepInv(c, tr, |tr| - 1);
  }

  lemma OrderedNames(nd: G.NodeData, reduced: NodeDep, c: E.Config, names: seq<string>, order: seq<nat>)
    requires Realises(c, reduced, names) && EndsInOrder(c, order) && forall t: nat :: t in order <==> t < |names|
    requires forall n :: n in reduced <==> G.IsNode(nd, n)
    ensures G.IsSchedule(nd, NamesOf(names, order)) && ListsOnce(NamesOf(names, order), reduced.Keys)
    ensures G.Respects(reduced, NamesOf(names, order))
  {
    var o := NamesOf(names, order);
    forall i, j | 0 <= i < j < |o| ensures o[i] != o[j] {
      assert order[i] in order && order[j] in order;
    }
    forall n ensures n in o <==> n in names {
      if n in names {
        var t :| 0 <= t < |names| && names[t] == n;
        var k: nat := t;
        assert k in order;
        var i :| 0 <= i < |order| && order[i] == k;
        assert o[i] == n;
      }
      if n in o {
        var i :| 0 <= i < |o| && o[i] == n;
        assert order[i] in order;
      }
    }
    forall i, j | 0 <= i < |o| && 0 <= j < |o| && Edge(reduced, o[i], o[j]) ensures j < i {
      assert order[i] in order && order[j] in order;
      assert E.Precedes(c, order[j], order[i]);
    }
  }
}
