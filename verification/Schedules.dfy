/** Node orders that respect the dependencies: when there are any, and how freely they can be chosen. */
module Schedules {
  import opened Graphs
  import opened GenerateDag

  ghost predicate Comparable(dep: NodeDep, n: string, m: string) {
    Reach(dep, n, m) || Reach(dep, m, n)
  }

  /** A set of nodes that contains everything its members depend on. */
  ghost predicate DownClosed(dep: NodeDep, s: set<string>) {
    s <= dep.Keys && forall n, m :: n in s && Reach(dep, n, m) ==> m in s
  }

  ghost predicate OrdersSet(dep: NodeDep, order: seq<string>, s: set<string>) {
    ListsOnce(order, s) && ReachOrdered(dep, order)
  }

  lemma Append(dep: NodeDep, order: seq<string>, s: set<string>, n: string)
    requires Closed(dep) && Acyclic(dep) && DownClosed(dep, s) && OrdersSet(dep, order, s)
    requires n in dep && n !in s && Below(dep, n) <= s
    ensures DownClosed(dep, s + {n}) && OrdersSet(dep, order + [n], s + {n})
  {
    forall m | Reach(dep, n, m) ensures m in s {
      ReachInKeys(dep, n, m);
      assert m in Below(dep, n);
    }
    var o := order + [n];
    forall i, j | 0 <= i < |o| && 0 <= j < |o| && Reach(dep, o[i], o[j]) ensures j < i {
      if i < |order| {
        assert o[i] in s && o[j] in s;
      }
    }
  }

  /** Any down-closed start of a schedule extends to any larger down-closed set. */
  lemma {:induction false} Extend(dep: NodeDep, order: seq<string>, s: set<string>, t: set<string>)
    returns (longer: seq<string>)
    requires Closed(dep) && Acyclic(dep) && DownClosed(dep, s) && DownClosed(dep, t) && s <= t
    requires OrdersSet(dep, order, s)
    ensures OrdersSet(dep, longer, t) && order <= longer
    decreases |t - s|
  {
    longer := order;
    if s != t {
      assert !(t <= s);
      var n :| n in t && n !in s;
      n := LowestOutside(dep, s, t, n);
      Append(dep, order, s, n);
      assert t - (s + {n}) == (t - s) - {n};
      longer := Extend(dep, order + [n], s + {n}, t);
      assert order <= order + [n];
    }
  }

  lemma {:induction false} LowestOutside(dep: NodeDep, s: set<string>, t: set<string>, n: string) returns (low: string)
    requires Closed(dep) && Acyclic(dep) && DownClosed(dep, t) && n in t - s
    ensures low in t - s && Below(dep, low) <= s
    decreases Below(dep, n)
  {
    if Below(dep, n) <= s {
      low := n;
    } else {
      var m :| m in Below(dep, n) && m !in s;
      BelowShrinks(dep, n, m);
      low := LowestOutside(dep, s, t, m);
    }
  }

  /** Every acyclic result has a schedule. */
  lemma ScheduleExists(nd: NodeData, dep: NodeDep) returns (order: seq<string>)
    requires Fits(nd, dep) && Acyclic(dep)
    ensures IsSchedule(nd, order) && Respects(dep, order)
  {
    FitsIsClosed(nd, dep);
    KeysAreDownClosed(dep);
    order := Extend(dep, [], {}, dep.Keys);
    WholeOrder(nd, dep, order);
  }

  lemma KeysAreDownClosed(dep: NodeDep)
    requires Closed(dep)
    ensures DownClosed(dep, dep.Keys)
  {
    forall a, b | Reach(dep, a, b) ensures b in dep {
      ReachInKeys(dep, a, b);
    }
  }

  lemma WholeOrder(nd: NodeData, dep: NodeDep, order: seq<string>)
    requires Fits(nd, dep) && OrdersSet(dep, order, dep.Keys)
    ensures IsSchedule(nd, order) && Respects(dep, order)
  {
    forall i, j | 0 <= i < |order| && 0 <= j < |order| && Edge(dep, order[i], order[j]) ensures j < i {
      EdgeReaches(dep, order[i], order[j]);
    }
  }

  lemma RespectedIsAcyclic(nd: NodeData, dep: NodeDep, order: seq<string>)
    requires Fits(nd, dep) && IsSchedule(nd, order) && Respects(dep, order)
    ensures Acyclic(dep)
  {
    RespectsReach(nd, dep, order);
    FitsIsClosed(nd, dep);
    forall n ensures !Reach(dep, n, n) {
      CyclesInKeys(dep, n);
      if n in dep {
        var i :| 0 <= i < |order| && order[i] == n;
      }
    }
  }

  lemma CyclesInKeys(dep: NodeDep, n: string)
    requires Closed(dep)
    ensures Reach(dep, n, n) ==> n in dep
  {
    if Reach(dep, n, n) {
      ReachInKeys(dep, n, n);
    }
  }

  /**
   * `generate_dag` does not look for cycles. Its result has none exactly if the nodes can be put
   * in one order in which the holders of every datum come in height order.
   */
  lemma AcyclicExactly(nd: NodeData, dep: NodeDep)
    requires AllServed(nd) && Fits(nd, dep)
    ensures Acyclic(dep) <==> exists order :: IsSchedule(nd, order) && HeightOrdered(nd, order)
  {
    if Acyclic(dep) {
      var order := ScheduleExists(nd, dep);
      ExactSchedules(nd, dep, order);
    }
    if order :| IsSchedule(nd, order) && HeightOrdered(nd, order) {
      ExactSchedules(nd, dep, order);
      RespectedIsAcyclic(nd, dep, order);
    }
  }

  /** In an acyclic result two incomparable nodes may come right after each other, in either order. */
  lemma EitherOrder(nd: NodeData, dep: NodeDep, n: string, m: string)
    returns (before: seq<string>, p: seq<string>, q: seq<string>)
    requires Fits(nd, dep) && Acyclic(dep) && IsNode(nd, n) && IsNode(nd, m)
    requires n != m && !Comparable(dep, n, m)
    ensures IsSchedule(nd, p) && Respects(dep, p) && before + [n, m] <= p
    ensures IsSchedule(nd, q) && Respects(dep, q) && before + [m, n] <= q
  {
    FitsIsClosed(nd, dep);
    var s := Below(dep, n) + Below(dep, m);
    assert DownClosed(dep, s) by {
      forall a, b | a in s && Reach(dep, a, b) ensures b in s {
        ReachInKeys(dep, a, b);
        if a in Below(dep, n) {
          ReachTransitive(dep, n, a, b);
        } else {
          ReachTransitive(dep, m, a, b);
        }
      }
    }
    assert OrdersSet(dep, [], {});
    before := Extend(dep, [], {}, s);
    p := InThisOrder(nd, dep, before, s, n, m);
    q := InThisOrder(nd, dep, before, s, m, n);
  }

  lemma InThisOrder(nd: NodeData, dep: NodeDep, before: seq<string>, s: set<string>, n: string, m: string)
    returns (p: seq<string>)
    requires Fits(nd, dep) && Closed(dep) && Acyclic(dep) && DownClosed(dep, s) && OrdersSet(dep, before, s)
    requires n in dep && m in dep && n != m && n !in s && m !in s && Below(dep, n) + Below(dep, m) <= s
    ensures IsSchedule(nd, p) && Respects(dep, p) && before + [n, m] <= p
  {
    Append(dep, before, s, n);
    Append(dep, before + [n], s + {n}, m);
    assert before + [n] + [m] == before + [n, m];
    KeysAreDownClosed(dep);
    p := Extend(dep, before + [n, m], s + {n} + {m}, dep.Keys);
    WholeOrder(nd, dep, p);
  }

  /** `n` ranks below `m` for the datum. */
  ghost predicate RanksBelow(nd: NodeData, n: string, m: string, d: string) {
    exists h, g :: Rank(h) < Rank(g) && Holds(nd, n, d, h) && Holds(nd, m, d, g)
  }

  /** Each of the two ranks above the other for some datum. */
  ghost predicate Crossed(nd: NodeData, n: string, m: string) {
    n != m && (exists d :: RanksBelow(nd, n, m, d)) && exists e :: RanksBelow(nd, m, n, e)
  }

  lemma NoOrderCrosses(nd: NodeData, order: seq<string>, n: string, m: string)
    requires Crossed(nd, n, m) && IsSchedule(nd, order)
    ensures !HeightOrdered(nd, order)
  {
    assert IsNode(nd, n) && IsNode(nd, m);
    var i, j :| 0 <= i < |order| && 0 <= j < |order| && order[i] == n && order[j] == m;
  }

  /** Crossed nodes generate a cycle. */
  lemma CrossedIsCyclic(nd: NodeData, dep: NodeDep, n: string, m: string)
    requires AllServed(nd) && Fits(nd, dep) && Crossed(nd, n, m)
    ensures !Acyclic(dep)
  {
    AcyclicExactly(nd, dep);
    forall order | IsSchedule(nd, order) ensures !HeightOrdered(nd, order) {
      NoOrderCrosses(nd, order, n, m);
    }
  }

  /** So nothing makes the dependencies acyclic across data: this generates without error. */
  lemma MayBeCyclic()
    ensures
      var nd := [Entry("a", [Holding("x", 0), Holding("y", 1)]), Entry("b", [Holding("x", 1), Holding("y", 0)])];
      IsDict(nd) && AllServed(nd) && forall dep :: Fits(nd, dep) ==> !Acyclic(dep)
  {
    var a, b := Entry("a", [Holding("x", 0), Holding("y", 1)]), Entry("b", [Holding("x", 1), Holding("y", 0)]);
    var nd := [a, b];
    assert HoldsAt(nd, 0, 0, "a", "x", 0) && HoldsAt(nd, 0, 1, "a", "y", 1);
    assert HoldsAt(nd, 1, 0, "b", "x", 1) && HoldsAt(nd, 1, 1, "b", "y", 0);
    assert Holds(nd, "a", "x", 0) && Holds(nd, "b", "x", 1) && Holds(nd, "b", "y", 0) && Holds(nd, "a", "y", 1);
    forall n, d, h | Asks(nd, n, d, h) ensures OthersHold(nd, n, d, Source(nd, n, d, h)) {
      assert h == 1 && Source(nd, n, d, h) == 0;
    }
    assert RanksBelow(nd, "a", "b", "x") && RanksBelow(nd, "b", "a", "y");
    forall dep | Fits(nd, dep) ensures !Acyclic(dep) {
      CrossedIsCyclic(nd, dep, "a", "b");
    }
  }
}
