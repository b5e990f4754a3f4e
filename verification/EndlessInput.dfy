/** Heights that pass the check and the generation, and on which the reduction never comes to an end. */
module EndlessInput {
  import opened Graphs
  import opened GenerateDag
  import opened CheckHeight
  import S = SimplifyNodeDep

  function InP(): seq<Holding> { [Holding("z", 1), Holding("v", 1)] }
  function InQ(): seq<Holding> { [Holding("x", 0), Holding("y", 1), Holding("z", 0)] }
  function InR(): seq<Holding> { [Holding("v", 0)] }
  function InS(): seq<Holding> { [Holding("x", 1), Holding("y", 0)] }

  /** `q` and `s` come after each other for `y` and `x`; `p` comes after `q` for `z` and after `r` for `v`. */
  function Input(): NodeData {
    [Entry("p", InP()), Entry("q", InQ()), Entry("r", InR()), Entry("s", InS())]
  }

  predicate Listed(n: string, d: string, h: int) {
    || (n == "p" && (d == "z" || d == "v") && h == 1)
    || (n == "q" && (((d == "x" || d == "z") && h == 0) || (d == "y" && h == 1)))
    || (n == "r" && d == "v" && h == 0)
    || (n == "s" && ((d == "x" && h == 1) || (d == "y" && h == 0)))
  }

  lemma WhoHolds()
    ensures forall n, d, h :: Holds(Input(), n, d, h) <==> Listed(n, d, h)
  {
    var nd := Input();
    assert HoldsAt(nd, 0, 0, "p", "z", 1) && HoldsAt(nd, 0, 1, "p", "v", 1);
    assert HoldsAt(nd, 1, 0, "q", "x", 0) && HoldsAt(nd, 1, 1, "q", "y", 1) && HoldsAt(nd, 1, 2, "q", "z", 0);
    assert HoldsAt(nd, 2, 0, "r", "v", 0) && HoldsAt(nd, 3, 0, "s", "x", 1) && HoldsAt(nd, 3, 1, "s", "y", 0);
  }

  lemma OneHeld(x: Holding, d: string)
    ensures Heights([x], d) == if x.datum == d then [x.height] else []
  {
    assert [x][..0] == [] && Heights([], d) == [];
  }

  lemma TwoHeld(x: Holding, y: Holding, d: string)
    ensures Heights([x, y], d) == Heights([x], d) + Heights([y], d)
  {
    HeightsConcat([x], [y], d);
    assert [x, y] == [x] + [y];
  }

  lemma InEach(d: string)
    ensures Heights(InP(), d) == if d == "z" || d == "v" then [1] else []
    ensures Heights(InQ(), d) == if d == "x" || d == "z" then [0] else if d == "y" then [1] else []
    ensures Heights(InR(), d) == if d == "v" then [0] else []
    ensures Heights(InS(), d) == if d == "x" then [1] else if d == "y" then [0] else []
  {
    hide Heights;
    TwoHeld(Holding("z", 1), Holding("v", 1), d);
    TwoHeld(Holding("x", 0), Holding("y", 1), d);
    TwoHeld(Holding("x", 1), Holding("y", 0), d);
    OneHeld(Holding("z", 1), d);
    OneHeld(Holding("v", 1), d);
    OneHeld(Holding("x", 0), d);
    OneHeld(Holding("y", 1), d);
    OneHeld(Holding("z", 0), d);
    OneHeld(Holding("v", 0), d);
    OneHeld(Holding("x", 1), d);
    OneHeld(Holding("y", 0), d);
    HeightsConcat([Holding("x", 0), Holding("y", 1)], [Holding("z", 0)], d);
    assert InQ() == [Holding("x", 0), Holding("y", 1)] + [Holding("z", 0)];
  }

  lemma OneNodeMore(nd: NodeData, e: Entry, d: string)
    ensures HeightsIn(nd + [e], d) == HeightsIn(nd, d) + Heights(e.data, d)
  {
    HeightsSplit(nd + [e], d);
    assert (nd + [e])[..|nd|] == nd;
  }

  lemma FourNodes(p: Entry, q: Entry, r: Entry, s: Entry, d: string)
    ensures HeightsIn([p, q, r, s], d)
      == Heights(p.data, d) + Heights(q.data, d) + Heights(r.data, d) + Heights(s.data, d)
  {
    assert HeightsIn([], d) == [];
    hide HeightsIn, Heights;
    OneNodeMore([], p, d);
    OneNodeMore([p], q, d);
    OneNodeMore([p, q], r, d);
    OneNodeMore([p, q, r], s, d);
    assert [] + [p] == [p] && [p] + [q] == [p, q] && [p, q] + [r] == [p, q, r] && [p, q, r] + [s] == [p, q, r, s];
  }

  /** Every datum is held at 0 and at 1, once each. */
  lemma EachTwice(d: string)
    ensures var s := HeightsIn(Input(), d); s == [] || s == [0, 1] || s == [1, 0]
  {
    hide HeightsIn, InP, InQ, InR, InS, Heights;
    FourNodes(Entry("p", InP()), Entry("q", InQ()), Entry("r", InR()), Entry("s", InS()), d);
    InEach(d);
    if d == "v" {
      assert [1] + [] + [0] + [] == [1, 0];
    } else if d == "x" {
      assert [] + [0] + [] + [1] == [0, 1];
    } else if d == "y" {
      assert [] + [1] + [] + [0] == [1, 0];
    } else if d == "z" {
      assert [1] + [0] + [] + [] == [1, 0];
    }
  }

  lemma OneHeightEach()
    ensures SingleHeight(Input())
  {
    hide Holds, Input;
    WhoHolds();
  }

  lemma InputPasses()
    ensures IsDict(Input()) && Accepts(Input()) && AllServed(Input())
  {
    OneHeightEach();
    hide HeightsIn, Contiguous, Accepts, AllServed, SingleHeight;
    forall d | HeightsIn(Input(), d) != [] ensures exists lo, hi :: Contiguous(HeightsIn(Input(), d), lo, hi) {
      EachTwice(d);
      ZeroAndOne(HeightsIn(Input(), d));
    }
    ContiguousHeightsSucceed(Input());
  }

  lemma WhoWaits(n: string, m: string)
    ensures Waits(Input(), n, m) <==>
      (n == "p" && (m == "q" || m == "r")) || (n == "q" && m == "s") || (n == "s" && m == "q")
  {
    hide Holds, Input;
    WhoHolds();
    if n == "p" && m == "q" {
      assert WaitsVia(Input(), n, m, "z", 1);
    }
    if n == "p" && m == "r" {
      assert WaitsVia(Input(), n, m, "v", 1);
    }
    if n == "q" && m == "s" {
      assert WaitsVia(Input(), n, m, "y", 1);
    }
    if n == "s" && m == "q" {
      assert WaitsVia(Input(), n, m, "x", 1);
    }
  }

  lemma InputNodes()
    ensures IsNode(Input(), "p") && IsNode(Input(), "q") && IsNode(Input(), "s")
  {
    var nd := Input();
    assert nd[0].node == "p" && nd[1].node == "q" && nd[3].node == "s";
  }

  /** The search for `r` goes from `q` to `s` and back until the stack is exhausted. */
  lemma {:induction false} BackAndForth(u: NodeDep, x: string, depth: nat)
    requires "q" in u && "s" in u && (forall m :: m in u["q"] <==> m == "s") && (forall m :: m in u["s"] <==> m == "q")
    requires x == "q" || x == "s"
    ensures S.Dfs(u, "r", u[x], depth) == S.TooDeep
    decreases depth
  {
    var y := if x == "q" then "s" else "q";
    assert y in u[x];
    assert u[x][0] in u[x];
    if depth > 0 {
      BackAndForth(u, y, depth - 1);
      assert S.Branches(u, "r", u[x], 0, depth) == S.TooDeep;
    }
  }

  /**
   * Accepted and generated without an error, and then no order of the lists and no stack is enough: the
   * reduction raises.
   */
  lemma AcceptedNeverEnds(dep: NodeDep, unique: NodeDep, limit: nat)
    requires Fits(Input(), dep) && S.SameEdges(dep, unique)
    ensures IsDict(Input()) && Accepts(Input()) && AllServed(Input())
    ensures !S.AllAnswered(unique, limit)
  {
    hide Input, Accepts, AllServed, Waits, IsDict, IsNode;
    InputPasses();
    InputNodes();
    forall n, m ensures Edge(unique, n, m) <==> Waits(Input(), n, m) {
      assert Edge(unique, n, m) <==> Edge(dep, n, m);
    }
    ListsAre(unique);
    hide S.Dfs;
    BackAndForth(unique, "q", limit);
    assert !S.ListAnswered(unique, unique["p"], limit);
  }

  lemma ListsAre(unique: NodeDep)
    requires "p" in unique && "q" in unique && "s" in unique
    requires forall n, m :: Edge(unique, n, m) <==> Waits(Input(), n, m)
    ensures "q" in unique["p"] && "r" in unique["p"]
    ensures (forall m :: m in unique["q"] <==> m == "s") && (forall m :: m in unique["s"] <==> m == "q")
  {
    hide Waits, Input;
    forall n, m ensures Edge(unique, n, m) <==>
      (n == "p" && (m == "q" || m == "r")) || (n == "q" && m == "s") || (n == "s" && m == "q")
    {
      WhoWaits(n, m);
    }
    assert Edge(unique, "p", "q") && Edge(unique, "p", "r");
    forall m ensures m in unique["q"] <==> m == "s" {
      assert Edge(unique, "q", m) <==> m in unique["q"];
    }
    forall m ensures m in unique["s"] <==> m == "q" {
      assert Edge(unique, "s", m) <==> m in unique["s"];
    }
  }
}
