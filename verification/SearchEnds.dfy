/** For which graphs the search of `simplify_node_dep` comes to an end, whatever the order of its lists. */
module SearchEnds {
  import opened Graphs
  import opened SimplifyNodeDep

  /** The nodes the search for `b` goes on from: those whose lists lack `b`. */
  ghost function Lacking(g: NodeDep, b: string): NodeDep {
    map n | n in g && b !in g[n] :: g[n]
  }

  /** From `c`, through nodes whose lists lack `b`, there is a way into a cycle of such nodes. */
  ghost predicate LoopsFrom(g: NodeDep, b: string, c: string) {
    exists x :: (x == c || Reach(Lacking(g, b), c, x)) && Reach(Lacking(g, b), x, x)
  }

  /** No search the function makes can be led into a cycle: `b` and `c` are dependencies of one node. */
  ghost predicate NoLoops(g: NodeDep) {
    forall n, b, c :: n in g && b in g[n] && c in g[n] && b != c ==> !LoopsFrom(g, b, c)
  }

  /** What `list(set(..))` may make of the lists. */
  ghost predicate ListsOf(g: NodeDep, unique: NodeDep) {
    SameEdges(g, unique) && forall n :: n in unique ==> Distinct(unique[n])
  }

  lemma LackingIsPart(g: NodeDep, b: string, x: string, y: string)
    ensures Reach(Lacking(g, b), x, y) ==> Reach(g, x, y)
  {
    if p :| Joins(Lacking(g, b), p, x, y) {
      forall i | 0 <= i < |p| - 1 ensures Edge(g, p[i], p[i + 1]) {
        assert Edge(Lacking(g, b), p[i], p[i + 1]);
      }
      assert Joins(g, p, x, y);
    }
  }

  lemma AcyclicHasNoLoops(g: NodeDep)
    requires Acyclic(g)
    ensures NoLoops(g)
  {
    forall b, x ensures !Reach(Lacking(g, b), x, x) {
      LackingIsPart(g, b, x, x);
    }
  }

  // ----- without a loop the search answers ------------------------------------------------

  ghost function Ahead(g: NodeDep, b: string, x: string): set<string> {
    set m | m in g && Reach(Lacking(g, b), x, m)
  }

  lemma AheadShrinks(g: NodeDep, b: string, x: string, y: string)
    requires x in g && b !in g[x] && y in g[x] && y in g && !LoopsFrom(g, b, x)
    ensures |Ahead(g, b, y)| < |Ahead(g, b, x)| && !LoopsFrom(g, b, y)
  {
    var l := Lacking(g, b);
    assert Edge(l, x, y);
    EdgeReaches(l, x, y);
    forall m | Reach(l, y, m) ensures Reach(l, x, m) {
      ReachTransitive(l, x, y, m);
    }
    assert y in Ahead(g, b, x) && y !in Ahead(g, b, y);
    SmallerSet(Ahead(g, b, y), Ahead(g, b, x));
  }

  lemma {:induction false} DfsEnds(g: NodeDep, b: string, x: string, depth: nat)
    requires Closed(g) && x in g && !LoopsFrom(g, b, x) && depth > |Ahead(g, b, x)|
    ensures Answered(Dfs(g, b, g[x], depth))
    decreases depth, |g[x]| + 1
  {
    if b !in g[x] {
      BranchesEnd(g, b, x, 0, depth);
    }
  }

  lemma {:induction false} BranchesEnd(g: NodeDep, b: string, x: string, i: nat, depth: nat)
    requires Closed(g) && x in g && b !in g[x] && !LoopsFrom(g, b, x) && depth > |Ahead(g, b, x)| && i <= |g[x]|
    ensures Answered(Branches(g, b, g[x], i, depth))
    decreases depth, |g[x]| - i
  {
    if i < |g[x]| {
      AheadShrinks(g, b, x, g[x][i]);
      DfsEnds(g, b, g[x][i], depth - 1);
      BranchesEnd(g, b, x, i + 1, depth);
    }
  }

  lemma NoLoopsAnswers(g: NodeDep, limit: nat)
    requires Closed(g) && NoLoops(g) && limit > |g|
    ensures AllAnswered(g, limit)
  {
    forall n, b, c | n in g && b in g[n] && c in g[n] && b != c ensures c in g && Answered(Dfs(g, b, g[c], limit)) {
      SubsetSize(Ahead(g, b, c), g.Keys);
      DfsEnds(g, b, c, limit);
    }
  }

  lemma SameLoops(g: NodeDep, u: NodeDep)
    requires SameEdges(g, u) && NoLoops(g)
    ensures NoLoops(u)
  {
    forall b, c ensures LoopsFrom(u, b, c) ==> LoopsFrom(g, b, c) {
      assert SameEdges(Lacking(g, b), Lacking(u, b));
      forall x, y ensures Reach(Lacking(g, b), x, y) <==> Reach(Lacking(u, b), x, y) {
        SameEdgesSameReach(Lacking(g, b), Lacking(u, b), x, y);
      }
    }
  }

  // ----- with one it may not --------------------------------------------------------------

  ghost function SeqOf(s: set<string>): (r: seq<string>)
    ensures Distinct(r) && forall n :: n in r <==> n in s
  {
    if s == {} then [] else var x :| x in s; [x] + SeqOf(s - {x})
  }

  ghost function FirstThen(s: set<string>, first: string): (r: seq<string>)
    requires first in s
    ensures Distinct(r) && r != [] && r[0] == first && forall n :: n in r <==> n in s
  {
    [first] + SeqOf(s - {first})
  }

  function Names(deps: seq<string>): set<string> {
    set d | d in deps
  }

  /** The nodes from which the search for `b` can be led into a cycle. */
  ghost function Trapped(g: NodeDep, b: string): set<string> {
    set x | x in g && LoopsFrom(g, b, x)
  }

  /** Each of them lacks `b` and has another one of them in its list. */
  lemma TrappedGoesOn(g: NodeDep, b: string, x: string) returns (y: string)
    requires LoopsFrom(g, b, x)
    ensures x in g && b !in g[x] && y in g[x] && y in Trapped(g, b)
  {
    var l := Lacking(g, b);
    var z :| (z == x || Reach(l, x, z)) && Reach(l, z, z);
    y := FirstEdge(l, x, z);
    if y == z {
      var back := FirstEdge(l, z, z);
    } else {
      var on := FirstEdge(l, y, z);
    }
  }

  ghost function Onto(g: NodeDep, b: string, x: string): (y: string)
    requires LoopsFrom(g, b, x)
    ensures x in g && b !in g[x] && y in g[x] && y in Trapped(g, b)
  {
    TrappedExists(g, b, x);
    var y :| x in g && y in g[x] && y in Trapped(g, b);
    y
  }

  lemma TrappedExists(g: NodeDep, b: string, x: string)
    requires LoopsFrom(g, b, x)
    ensures x in g && b !in g[x] && exists y :: y in g[x] && y in Trapped(g, b)
  {
    var y := TrappedGoesOn(g, b, x);
  }

  /** The lists in an order that leads the search for `b` into a cycle where there is one. */
  ghost function Misleading(g: NodeDep, b: string): NodeDep {
    map n | n in g ::
      if LoopsFrom(g, b, n) then FirstThen(Names(g[n]), Onto(g, b, n)) else SeqOf(Names(g[n]))
  }

  lemma {:induction false} NeverAnswers(g: NodeDep, b: string, x: string, depth: nat)
    requires LoopsFrom(g, b, x)
    ensures x in Misleading(g, b) && Dfs(Misleading(g, b), b, Misleading(g, b)[x], depth) == TooDeep
    decreases depth
  {
    var u := Misleading(g, b);
    var y := Onto(g, b, x);
    assert u[x][0] == y && b !in u[x];
    if depth > 0 {
      NeverAnswers(g, b, y, depth - 1);
      assert Branches(u, b, u[x], 0, depth) == TooDeep;
    }
  }

  lemma EndsWithoutLoops(g: NodeDep, unique: NodeDep, limit: nat)
    requires Closed(g) && NoLoops(g) && ListsOf(g, unique) && limit > |g|
    ensures AllAnswered(unique, limit)
  {
    hide NoLoops, AllAnswered;
    SameLoops(g, unique);
    SameEdgesKeepShape(g, unique);
    NoLoopsAnswers(unique, limit);
  }

  lemma LoopsNeverEnd(g: NodeDep) returns (unique: NodeDep)
    requires !NoLoops(g)
    ensures ListsOf(g, unique) && forall limit: nat :: !AllAnswered(unique, limit)
  {
    hide AllAnswered, LoopsFrom;
    var n, b, c :| n in g && b in g[n] && c in g[n] && b != c && LoopsFrom(g, b, c);
    unique := Misleading(g, b);
    forall limit: nat ensures !AllAnswered(unique, limit) {
      NeverAnswers(g, b, c, limit);
      SameMembers(g, b, n);
      Unanswered(unique, n, b, c, limit);
    }
    IsListsOf(g, b);
  }

  lemma SameMembers(g: NodeDep, b: string, n: string)
    requires n in g
    ensures forall m :: m in Misleading(g, b)[n] <==> m in g[n]
  {
  }

  lemma IsListsOf(g: NodeDep, b: string)
    ensures ListsOf(g, Misleading(g, b))
  {
    forall n | n in g ensures Distinct(Misleading(g, b)[n]) {
    }
    forall n, m | n in g ensures m in g[n] <==> m in Misleading(g, b)[n] {
      SameMembers(g, b, n);
    }
  }

  lemma Unanswered(u: NodeDep, n: string, b: string, c: string, limit: nat)
    requires n in u && b in u[n] && c in u[n] && b != c && c in u && Dfs(u, b, u[c], limit) == TooDeep
    ensures !AllAnswered(u, limit)
  {
    hide Dfs;
    assert !ListAnswered(u, u[n], limit);
  }

  /**
   * For every closed graph: the search ends for every order of the lists, with one stack frame more than
   * there are nodes, if and only if it cannot be led into a cycle; otherwise some order exhausts any stack.
   */
  lemma EndsExactly(g: NodeDep)
    requires Closed(g)
    ensures NoLoops(g) <==>
      forall unique, limit: nat :: ListsOf(g, unique) && limit > |g| ==> AllAnswered(unique, limit)
    ensures !NoLoops(g) ==> exists unique :: ListsOf(g, unique) && forall limit: nat :: !AllAnswered(unique, limit)
  {
    hide NoLoops, AllAnswered, ListsOf, Closed;
    if NoLoops(g) {
      forall unique, limit: nat | ListsOf(g, unique) && limit > |g| ensures AllAnswered(unique, limit) {
        EndsWithoutLoops(g, unique, limit);
      }
    } else {
      var unique := LoopsNeverEnd(g);
      assert !AllAnswered(unique, |g| + 1);
    }
  }
}
