/** What the generated order is for: nodes that respect it leave the same data, whatever the interleaving. */
module Confluence {
  import opened Graphs
  import opened GenerateDag
  import opened Schedules

  /** The request's data, and what running a node does to them. */
  type Data = map<string, int>
  type Behaviour = (string, Data) -> Data

  ghost predicate Declares(nd: NodeData, n: string, d: string) {
    exists h :: Holds(nd, n, d, h)
  }

  /** A non-negative height makes its holder a writer of the datum. */
  ghost predicate MayWrite(nd: NodeData, n: string, d: string) {
    exists h :: h >= 0 && Holds(nd, n, d, h)
  }

  ghost predicate AgreeOn(nd: NodeData, n: string, s: Data, t: Data) {
    s.Keys == t.Keys && forall d :: d in s && Declares(nd, n, d) ==> s[d] == t[d]
  }

  /** A node changes only what it may write, and what it writes depends only on what it declares. */
  ghost predicate WellBehaved(nd: NodeData, act: Behaviour) {
    && (forall n, s :: act(n, s).Keys == s.Keys)
    && (forall n, s, d :: d in s && !MayWrite(nd, n, d) ==> act(n, s)[d] == s[d])
    && forall n, s, t :: AgreeOn(nd, n, s, t) ==> AgreeOn(nd, n, act(n, s), act(n, t))
  }

  ghost function Run(act: Behaviour, order: seq<string>, s: Data): Data {
    if order == [] then s else Run(act, order[1..], act(order[0], s))
  }

  /** Two different nodes with the same writing height of the same datum. */
  ghost predicate CoWriters(nd: NodeData, n: string, m: string) {
    n != m && exists d, h :: h >= 0 && Holds(nd, n, d, h) && Holds(nd, m, d, h)
  }

  /** Every two holders of one writing height are ordered through some other datum. */
  ghost predicate CoWritersOrdered(nd: NodeData, dep: NodeDep) {
    forall n, m :: CoWriters(nd, n, m) ==> Comparable(dep, n, m)
  }

  /** The first promise of `check_height`'s comment: a non-negative height appears only once. */
  ghost predicate OneWriterPerHeight(nd: NodeData) {
    forall n, m :: !CoWriters(nd, n, m)
  }

  ghost predicate Independent(nd: NodeData, n: string, m: string) {
    forall d, h, g :: Holds(nd, n, d, h) && Holds(nd, m, d, g) ==> h == g < 0
  }

  lemma UnorderedAreIndependent(nd: NodeData, dep: NodeDep, n: string, m: string)
    requires AllServed(nd) && Fits(nd, dep) && CoWritersOrdered(nd, dep)
    requires n != m && !Comparable(dep, n, m)
    ensures Independent(nd, n, m)
  {
    forall d, h, g | Holds(nd, n, d, h) && Holds(nd, m, d, g) ensures h == g < 0 {
      if Rank(g) < Rank(h) {
        DatumChain(nd, dep, d, n, h, m, g);
      } else if Rank(h) < Rank(g) {
        DatumChain(nd, dep, d, m, g, n, h);
      } else {
        assert h == g;
        assert !CoWriters(nd, n, m);
      }
    }
  }

  lemma IndependentCommute(nd: NodeData, act: Behaviour, n: string, m: string, s: Data)
    requires WellBehaved(nd, act) && Independent(nd, n, m)
    ensures act(m, act(n, s)) == act(n, act(m, s))
  {
    var sn, sm := act(n, s), act(m, s);
    assert AgreeOn(nd, n, s, sm) by {
      forall d | d in s && Declares(nd, n, d) ensures s[d] == sm[d] {
        assert !MayWrite(nd, m, d);
      }
    }
    assert AgreeOn(nd, m, s, sn) by {
      forall d | d in s && Declares(nd, m, d) ensures s[d] == sn[d] {
        assert !MayWrite(nd, n, d);
      }
    }
    assert AgreeOn(nd, n, sn, act(n, sm)) && AgreeOn(nd, m, sm, act(m, sn));
    forall d | d in s ensures act(m, sn)[d] == act(n, sm)[d] {
      if MayWrite(nd, n, d) {
        assert Declares(nd, n, d);
        assert !MayWrite(nd, m, d);
        assert act(m, sn)[d] == sn[d] == act(n, sm)[d];
      } else if MayWrite(nd, m, d) {
        assert Declares(nd, m, d);
        assert act(n, sm)[d] == sm[d] == act(m, sn)[d];
      }
    }
  }

  /** A node that is independent of everything before it may as well run first. */
  lemma {:induction false} MoveToFront(nd: NodeData, act: Behaviour, order: seq<string>, k: nat, s: Data)
    requires WellBehaved(nd, act) && k < |order|
    requires forall i :: 0 <= i < k ==> Independent(nd, order[i], order[k])
    ensures Run(act, order, s) == Run(act, order[..k] + order[k + 1..], act(order[k], s))
  {
    if k == 0 {
      assert order[..0] + order[1..] == order[1..];
    } else {
      var x, rest := order[0], order[1..];
      assert rest[k - 1] == order[k];
      MoveToFront(nd, act, rest, k - 1, act(x, s));
      IndependentCommute(nd, act, x, order[k], s);
      var others := order[..k] + order[k + 1..];
      assert others[1..] == rest[..k - 1] + rest[k..];
    }
  }

  lemma TakeOut(order: seq<string>, k: nat)
    requires Distinct(order) && k < |order|
    ensures var rest := order[..k] + order[k + 1..];
      Distinct(rest) && forall m :: m in rest <==> m in order && m != order[k]
  {
    assert order == order[..k] + [order[k]] + order[k + 1..];
  }

  lemma {:induction false} SameResult(nd: NodeData, dep: NodeDep, act: Behaviour, p: seq<string>, q: seq<string>,
                                      s: Data)
    requires AllServed(nd) && Fits(nd, dep) && CoWritersOrdered(nd, dep) && WellBehaved(nd, act)
    requires Distinct(p) && Distinct(q) && forall n :: n in p <==> n in q
    requires ReachOrdered(dep, p) && ReachOrdered(dep, q)
    ensures Run(act, p, s) == Run(act, q, s)
    decreases |p|
  {
    hide AllServed, Fits, CoWritersOrdered, WellBehaved, Independent;
    if p == [] {
      HeadIn(q);
    } else {
      assert p[0] in p;
      var k :| 0 <= k < |q| && q[k] == p[0];
      BeforeIsIndependent(nd, dep, p, q, k);
      MoveToFront(nd, act, q, k, s);
      TakeOut(p, 0);
      TakeOut(q, k);
      assert p[..0] + p[1..] == p[1..];
      OrderedRest(dep, p, 0);
      OrderedRest(dep, q, k);
      SameResult(nd, dep, act, p[1..], q[..k] + q[k + 1..], act(p[0], s));
    }
  }

  /** What comes before the first node of one order in the other is incomparable with it. */
  lemma BeforeIsIndependent(nd: NodeData, dep: NodeDep, p: seq<string>, q: seq<string>, k: nat)
    requires AllServed(nd) && Fits(nd, dep) && CoWritersOrdered(nd, dep)
    requires p != [] && k < |q| && q[k] == p[0] && Distinct(q) && forall n :: n in q ==> n in p
    requires ReachOrdered(dep, p) && ReachOrdered(dep, q)
    ensures forall i :: 0 <= i < k ==> Independent(nd, q[i], q[k])
  {
    hide AllServed, Fits, CoWritersOrdered, Independent, Reach;
    forall i | 0 <= i < k ensures Independent(nd, q[i], q[k]) {
      assert q[i] in q;
      var j :| 0 <= j < |p| && p[j] == q[i];
      UnorderedAreIndependent(nd, dep, q[i], q[k]);
    }
  }

  lemma OrderedRest(dep: NodeDep, order: seq<string>, k: nat)
    requires ReachOrdered(dep, order) && k < |order|
    ensures ReachOrdered(dep, order[..k] + order[k + 1..])
  {
    hide Reach;
  }

  /** Confluence: any two node orders that respect the dependencies leave the same data. */
  lemma SchedulesAgree(nd: NodeData, dep: NodeDep, act: Behaviour, p: seq<string>, q: seq<string>, s: Data)
    requires AllServed(nd) && Fits(nd, dep) && WellBehaved(nd, act)
    requires CoWritersOrdered(nd, dep)
    requires IsSchedule(nd, p) && IsSchedule(nd, q) && Respects(dep, p) && Respects(dep, q)
    ensures Run(act, p, s) == Run(act, q, s)
  {
    RespectsReach(nd, dep, p);
    RespectsReach(nd, dep, q);
    SameResult(nd, dep, act, p, q, s);
  }

  // ----- the condition is exact -----------------------------------------------------------

  /** Each of the two nodes writes its own constant; nobody else does anything. */
  ghost function TwoWriters(n: string, m: string, d: string): Behaviour {
    (k: string, s: Data) =>
      if k == n && d in s then s[d := 1] else if k == m && d in s then s[d := 2] else s
  }

  lemma TwoWritersBehave(nd: NodeData, n: string, m: string, d: string)
    requires MayWrite(nd, n, d) && MayWrite(nd, m, d)
    ensures WellBehaved(nd, TwoWriters(n, m, d))
  {
  }

  lemma {:induction false} OthersLeave(n: string, m: string, d: string, order: seq<string>, s: Data)
    requires d in s && n !in order && m !in order
    ensures Run(TwoWriters(n, m, d), order, s) == s
  {
    if order != [] {
      assert order[0] in order;
      OthersLeave(n, m, d, order[1..], s);
    }
  }

  lemma {:induction false} RunSplit(act: Behaviour, p: seq<string>, q: seq<string>, s: Data)
    ensures Run(act, p + q, s) == Run(act, q, Run(act, p, s))
  {
    if p == [] {
      assert p + q == q;
    } else {
      assert (p + q)[1..] == p[1..] + q;
      RunSplit(act, p[1..], q, act(p[0], s));
    }
  }

  /** In a duplicate-free order the two nodes at a split occur nowhere else. */
  lemma OnlyThere(before: seq<string>, x: string, y: string, after: seq<string>)
    requires Distinct(before + [x, y] + after)
    ensures x !in before && y !in before && x !in after && y !in after
  {
    var p, k := before + [x, y] + after, |before|;
    assert p[k] == x && p[k + 1] == y;
    forall z | z in before ensures z != x && z != y {
      var i :| 0 <= i < k && before[i] == z;
      assert p[i] == z;
    }
    forall z | z in after ensures z != x && z != y {
      var i :| 0 <= i < |after| && after[i] == z;
      assert p[k + 2 + i] == z;
    }
  }

  /** Where `x` and then `y` write, and nobody after them, `y` has the last word. */
  lemma LastWriterWins(n: string, m: string, d: string, before: seq<string>, x: string, y: string, p: seq<string>)
    requires Distinct(p) && before + [x, y] <= p && n != m && ((x == n && y == m) || (x == m && y == n))
    ensures Run(TwoWriters(n, m, d), p, map[d := 0]) == map[d := if y == m then 2 else 1]
  {
    var act, after := TwoWriters(n, m, d), p[|before| + 2..];
    var s: Data := map[d := 0];
    assert p == before + [x, y] + after;
    OnlyThere(before, x, y, after);
    assert p == before + ([x, y] + after);
    RunSplit(act, before, [x, y] + after, s);
    RunSplit(act, [x, y], after, s);
    OthersLeave(n, m, d, before, s);
    RunTwo(act, x, y, s);
    OthersLeave(n, m, d, after, act(y, act(x, s)));
  }

  lemma RunTwo(act: Behaviour, x: string, y: string, s: Data)
    ensures Run(act, [x, y], s) == act(y, act(x, s))
  {
    var t := act(x, s);
    assert [x, y][1..] == [y] && [y][1..] == [];
    assert Run(act, [x, y], s) == Run(act, [y], t) && Run(act, [y], t) == Run(act, [], act(y, t));
  }

  /** Without the condition confluence fails: two orders, one well-behaved behaviour, two results. */
  lemma UnorderedWritersDisagree(nd: NodeData, dep: NodeDep)
    returns (act: Behaviour, p: seq<string>, q: seq<string>, s: Data)
    requires AllServed(nd) && Fits(nd, dep) && Acyclic(dep)
    requires !CoWritersOrdered(nd, dep)
    ensures WellBehaved(nd, act)
    ensures IsSchedule(nd, p) && IsSchedule(nd, q) && Respects(dep, p) && Respects(dep, q)
    ensures Run(act, p, s) != Run(act, q, s)
  {
    var n, m :| CoWriters(nd, n, m) && !Comparable(dep, n, m);
    var d, h :| h >= 0 && Holds(nd, n, d, h) && Holds(nd, m, d, h);
    act, s := TwoWriters(n, m, d), map[d := 0];
    TwoWritersBehave(nd, n, m, d);
    var before;
    before, p, q := EitherOrder(nd, dep, n, m);
    LastWriterWins(n, m, d, before, n, m, p);
    LastWriterWins(n, m, d, before, m, n, q);
    assert Run(act, p, s)[d] == 2 && Run(act, q, s)[d] == 1;
  }
}
