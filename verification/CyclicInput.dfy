/** Heights that pass every step of the configurator and still lose a dependency. */
module CyclicInput {
  import opened Graphs
  import opened GenerateDag
  import opened CheckHeight
  import S = SimplifyNodeDep

  function InA(): seq<Holding> { [Holding("x", 1), Holding("y", 0), Holding("z", 1)] }
  function InB(): seq<Holding> { [Holding("x", 0), Holding("y", 1)] }
  function InC(): seq<Holding> { [Holding("z", 0)] }

  /** `a` comes after `b` for `x`, before it for `y`, and after `c` for `z`. */
  function Input(): NodeData {
    [Entry("a", InA()), Entry("b", InB()), Entry("c", InC())]
  }

  predicate Listed(n: string, d: string, h: int) {
    || (n == "a" && ((d == "x" && h == 1) || (d == "y" && h == 0) || (d == "z" && h == 1)))
    || (n == "b" && ((d == "x" && h == 0) || (d == "y" && h == 1)))
    || (n == "c" && d == "z" && h == 0)
  }

  lemma WhoHolds()
    ensures forall n, d, h :: Holds(Input(), n, d, h) <==> Listed(n, d, h)
  {
    var nd := Input();
    assert HoldsAt(nd, 0, 0, "a", "x", 1) && HoldsAt(nd, 0, 1, "a", "y", 0) && HoldsAt(nd, 0, 2, "a", "z", 1);
    assert HoldsAt(nd, 1, 0, "b", "x", 0) && HoldsAt(nd, 1, 1, "b", "y", 1) && HoldsAt(nd, 2, 0, "c", "z", 0);
  }

  /** Every datum is held at 0 and at 1, once each. */
  lemma EachTwice(d: string)
    ensures var s := HeightsIn(Input(), d);
      s == (if d == "x" then [1, 0] else if d == "y" then [0, 1] else if d == "z" then [1, 0] else [])
  {
    var nd := Input();
    assert nd[..2] == [Entry("a", InA()), Entry("b", InB())];
    assert nd[..2][..1] == [Entry("a", InA())] && nd[..1][..0] == [];
    HeightsSplit(nd, d);
    HeightsSplit(nd[..2], d);
    HeightsSplit(nd[..1], d);
    assert nd[..2][..1] == nd[..1];
    assert HeightsIn(nd[..0], d) == [];
    OfA(d);
    OfB(d);
    OfC(d);
  }

  lemma OfA(d: string)
    ensures Heights(InA(), d) == (if d == "x" || d == "z" then [1] else if d == "y" then [0] else [])
  {
    var s := InA();
    assert s[..2][..1] == s[..1] && s[..1][..0] == [] && Heights([], d) == [];
    assert Heights(s[..1], d) == if d == "x" then [1] else [];
    assert Heights(s[..2], d) == if d == "x" then [1] else if d == "y" then [0] else [];
  }

  lemma OfB(d: string)
    ensures Heights(InB(), d) == (if d == "x" then [0] else if d == "y" then [1] else [])
  {
    var s := InB();
    assert s[..1][..0] == [] && Heights([], d) == [];
    assert Heights(s[..1], d) == if d == "x" then [0] else [];
  }

  lemma OfC(d: string)
    ensures Heights(InC(), d) == (if d == "z" then [0] else [])
  {
    assert InC()[..0] == [] && Heights([], d) == [];
  }

  lemma InputPasses()
    ensures IsDict(Input()) && SingleHeight(Input()) && Accepts(Input()) && AllServed(Input())
  {
    OneHeightEach();
    forall d | HeightsIn(Input(), d) != [] ensures exists lo, hi :: Contiguous(HeightsIn(Input(), d), lo, hi) {
      EachTwice(d);
      ZeroAndOne(HeightsIn(Input(), d));
    }
    hide HeightsIn, Contiguous, Accepts, AllServed, SingleHeight;
    ContiguousHeightsSucceed(Input());
  }

  lemma OneHeightEach()
    ensures SingleHeight(Input())
  {
    hide Holds;
    WhoHolds();
  }

  lemma WhoWaits(n: string, m: string)
    ensures Waits(Input(), n, m) <==> (n == "a" && (m == "b" || m == "c")) || (n == "b" && m == "a")
  {
    hide Holds, Input;
    WhoHolds();
    if n == "a" && m == "b" {
      assert WaitsVia(Input(), n, m, "x", 1);
    }
    if n == "a" && m == "c" {
      assert WaitsVia(Input(), n, m, "z", 1);
    }
    if n == "b" && m == "a" {
      assert WaitsVia(Input(), n, m, "y", 1);
    }
  }

  lemma TrapEdges(n: string, m: string)
    ensures Edge(S.Trap(), n, m) <==> (n == "a" && (m == "b" || m == "c")) || (n == "b" && m == "a")
  {
  }

  lemma InputNodes(n: string)
    ensures IsNode(Input(), n) <==> n in S.Trap()
  {
    var nd := Input();
    assert nd[0].node == "a" && nd[1].node == "b" && nd[2].node == "c";
  }

  lemma InputGivesTrap(dep: NodeDep)
    requires Fits(Input(), dep)
    ensures S.SameEdges(S.Trap(), dep)
  {
    hide IsNode, Waits, Input, S.Trap;
    forall n ensures n in dep <==> n in S.Trap() {
      InputNodes(n);
    }
    forall n, m | n in dep ensures m in dep[n] <==> m in S.Trap()[n] {
      WhoWaits(n, m);
      TrapEdges(n, m);
      assert Edge(dep, n, m) <==> Edge(S.Trap(), n, m);
    }
  }

  /**
   * Accepted, generated, and reduced without an error: the dependencies of `a` lead to `c` before
   * the reduction and not after it.
   */
  lemma AcceptedLosesDependency(dep: NodeDep, unique: NodeDep, reduced: NodeDep, limit: nat)
    requires Fits(Input(), dep) && S.SameEdges(dep, unique) && (forall n :: n in unique ==> Distinct(unique[n]))
    requires limit >= 2 && S.IsReduction(dep, reduced)
    ensures IsDict(Input()) && Accepts(Input()) && AllServed(Input())
    ensures S.AllAnswered(unique, limit) && Reach(dep, "a", "c") && !Reach(reduced, "a", "c")
  {
    hide IsDict, Accepts, AllServed, Fits, S.IsReduction, S.Trap, S.AllAnswered, SingleHeight;
    InputPasses();
    InputGivesTrap(dep);
    S.ReductionOfSame(S.Trap(), dep, reduced);
    SameTwice(S.Trap(), dep, unique);
    S.CycleLosesReachability(unique, reduced, limit);
    S.SameEdgesSameReach(S.Trap(), dep, "a", "c");
  }

  lemma SameTwice(f: NodeDep, g: NodeDep, h: NodeDep)
    requires S.SameEdges(f, g) && S.SameEdges(g, h)
    ensures S.SameEdges(f, h)
  {
  }
}
