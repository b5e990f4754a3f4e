/** The transitive reduction of `simplify_node_dep`, over dependency lists keyed by node name. */
module SimplifyNodeDep {
  import opened Graphs

  // ----- the inner search -----------------------------------------------------------------

  /** `TooDeep` and `NoKey` stand for the exceptions of a call stack at its limit and of a missing key. */
  datatype Answer = Found | NotFound | TooDeep | NoKey

  /** The inner recursive search, with `depth` frames left on the call stack. */
  function Dfs(g: NodeDep, target: string, deps: seq<string>, depth: nat): Answer
    decreases depth, |deps| + 1
  {
    if depth == 0 then TooDeep
    else if target in deps then Found
    else Branches(g, target, deps, 0, depth)
  }

  /** Its loop, from position `i` on: the first branch that finds the target, or raises, ends it. */
  function Branches(g: NodeDep, target: string, deps: seq<string>, i: nat, depth: nat): Answer
    requires i <= |deps| && depth > 0
    decreases depth, |deps| - i
  {
    if i == |deps| then NotFound
    else if deps[i] !in g then NoKey
    else
      match Dfs(g, target, g[deps[i]], depth - 1)
      case NotFound => Branches(g, target, deps, i + 1, depth)
      case r => r
  }

  predicate Answered(r: Answer) {
    r == Found || r == NotFound
  }

  /** What the search has to decide: the target is listed, or lies below something listed. */
  ghost predicate Leads(g: NodeDep, deps: seq<string>, target: string) {
    exists d :: d in deps && (d == target || Reach(g, d, target))
  }

  lemma ReachIsLeads(g: NodeDep, a: string, b: string)
    ensures Reach(g, a, b) <==> a in g && Leads(g, g[a], b)
  {
    if Reach(g, a, b) {
      var c := FirstEdge(g, a, b);
    }
    if a in g && Leads(g, g[a], b) {
      var d :| d in g[a] && (d == b || Reach(g, d, b));
      EdgeReaches(g, a, d);
      if d != b {
        ReachTransitive(g, a, d, b);
      }
    }
  }

  /** On every graph, cyclic or not, an answer of the search is right. */
  lemma {:induction false} DfsDecidesReachability(g: NodeDep, target: string, deps: seq<string>, depth: nat)
    ensures Dfs(g, target, deps, depth) == Found ==> Leads(g, deps, target)
    ensures Dfs(g, target, deps, depth) == NotFound ==> !Leads(g, deps, target)
    decreases depth, |deps| + 1
  {
    if depth > 0 && target !in deps {
      BranchesDecide(g, target, deps, 0, depth);
    }
  }

  lemma {:induction false} BranchesDecide(g: NodeDep, target: string, deps: seq<string>, i: nat, depth: nat)
    requires i <= |deps| && depth > 0
    ensures Branches(g, target, deps, i, depth) == Found ==> exists j :: i <= j < |deps| && Reach(g, deps[j], target)
    ensures Branches(g, target, deps, i, depth) == NotFound ==>
      forall j :: i <= j < |deps| ==> !Reach(g, deps[j], target)
    decreases depth, |deps| - i
  {
    if i < |deps| && deps[i] in g {
      ReachIsLeads(g, deps[i], target);
      DfsDecidesReachability(g, target, g[deps[i]], depth - 1);
      if Dfs(g, target, g[deps[i]], depth - 1) == NotFound {
        BranchesDecide(g, target, deps, i + 1, depth);
      }
    }
  }

  ghost function Under(g: NodeDep, deps: seq<string>): set<string> {
    set m | m in g && Leads(g, deps, m)
  }

  lemma UnderShrinks(g: NodeDep, deps: seq<string>, dep: string)
    requires Closed(g) && Acyclic(g) && dep in deps && dep in g
    ensures Under(g, g[dep]) < Under(g, deps)
  {
    forall m | m in Under(g, g[dep]) ensures m in Under(g, deps) && m != dep {
      ReachIsLeads(g, dep, m);
    }
    assert dep in Under(g, deps);
  }

  lemma SmallerSet<T>(a: set<T>, b: set<T>)
    requires a < b
    ensures |a| < |b|
  {
    var x :| x in b && x !in a;
    SubsetSize(a, b - {x});
  }

  lemma {:induction false} SubsetSize<T>(a: set<T>, b: set<T>)
    requires a <= b
    ensures |a| <= |b|
    decreases |a|
  {
    if x :| x in a {
      SubsetSize(a - {x}, b - {x});
    }
  }

  /** On a closed acyclic graph the search answers, if the stack has one frame more than there are nodes. */
  lemma DfsAnswers(g: NodeDep, target: string, deps: seq<string>, depth: nat)
    requires Closed(g) && Acyclic(g) && (forall d :: d in deps ==> d in g) && depth > |g|
    ensures Answered(Dfs(g, target, deps, depth))
  {
    SubsetSize(Under(g, deps), g.Keys);
    DfsGoesDown(g, target, deps, depth);
  }

  lemma {:induction false} DfsGoesDown(g: NodeDep, target: string, deps: seq<string>, depth: nat)
    requires Closed(g) && Acyclic(g) && (forall d :: d in deps ==> d in g) && depth > |Under(g, deps)|
    ensures Answered(Dfs(g, target, deps, depth))
    decreases depth, |deps| + 1
  {
    if target !in deps {
      BranchesGoDown(g, target, deps, 0, depth);
    }
  }

  lemma {:induction false} BranchesGoDown(g: NodeDep, target: string, deps: seq<string>, i: nat, depth: nat)
    requires Closed(g) && Acyclic(g) && (forall d :: d in deps ==> d in g) && depth > |Under(g, deps)| && i <= |deps|
    ensures Answered(Branches(g, target, deps, i, depth))
    decreases depth, |deps| - i
  {
    if i < |deps| {
      UnderShrinks(g, deps, deps[i]);
      SmallerSet(Under(g, g[deps[i]]), Under(g, deps));
      DfsGoesDown(g, target, g[deps[i]], depth - 1);
      BranchesGoDown(g, target, deps, i + 1, depth);
    }
  }

  lemma {:induction false} ClosedHasKeys(g: NodeDep, target: string, deps: seq<string>, depth: nat)
    requires Closed(g) && forall d :: d in deps ==> d in g
    ensures Dfs(g, target, deps, depth) != NoKey
    decreases depth, |deps| + 1
  {
    if depth > 0 && target !in deps {
      BranchesHaveKeys(g, target, deps, 0, depth);
    }
  }

  lemma {:induction false} BranchesHaveKeys(g: NodeDep, target: string, deps: seq<string>, i: nat, depth: nat)
    requires Closed(g) && (forall d :: d in deps ==> d in g) && i <= |deps| && depth > 0
    ensures Branches(g, target, deps, i, depth) != NoKey
    decreases depth, |deps| - i
  {
    if i < |deps| {
      ClosedHasKeys(g, target, g[deps[i]], depth - 1);
      BranchesHaveKeys(g, target, deps, i + 1, depth);
    }
  }

  // ----- the reduction --------------------------------------------------------------------

  /** `Failed` is the exception that ends the function: a missing key or an exhausted stack. */
  datatype Outcome = Simplified(dep: NodeDep) | Failed(why: Answer)

  ghost predicate SameEdges(g: NodeDep, h: NodeDep) {
    g.Keys == h.Keys && forall n, m :: n in g ==> (m in g[n] <==> m in h[n])
  }

  /** A listed dependency already implied by another one of the same node. */
  ghost predicate Redundant(g: NodeDep, n: string, b: string)
    requires n in g
  {
    exists c :: c in g[n] && c != b && Reach(g, c, b)
  }

  /** `s` keeps exactly the dependencies of `g` that no sibling dependency implies. */
  ghost predicate IsReduction(g: NodeDep, s: NodeDep) {
    && s.Keys == g.Keys
    && forall n, b :: n in g ==> (b in s[n] <==> b in g[n] && !Redundant(g, n, b))
  }

  /** Every search the loops make for the pairs of one list is answered. */
  ghost predicate ListAnswered(g: NodeDep, deps: seq<string>, limit: nat) {
    forall b, c :: b in deps && c in deps && b != c ==> c in g && Answered(Dfs(g, b, g[c], limit))
  }

  ghost predicate AllAnswered(g: NodeDep, limit: nat) {
    forall n :: n in g ==> ListAnswered(g, g[n], limit)
  }

  lemma SameEdgesSameReach(g: NodeDep, h: NodeDep, a: string, b: string)
    requires SameEdges(g, h)
    ensures Reach(g, a, b) <==> Reach(h, a, b)
  {
    if Reach(g, a, b) {
      var p :| Joins(g, p, a, b);
      assert forall i :: 0 <= i < |p| - 1 ==> Edge(g, p[i], p[i + 1]) ==> Edge(h, p[i], p[i + 1]);
      assert Joins(h, p, a, b);
    }
    if Reach(h, a, b) {
      var p :| Joins(h, p, a, b);
      assert forall i :: 0 <= i < |p| - 1 ==> Edge(h, p[i], p[i + 1]) ==> Edge(g, p[i], p[i + 1]);
      assert Joins(g, p, a, b);
    }
  }

  /** `list(set(deps))`: the same names once each, in an order the source leaves open. */
  method Dedup(deps: seq<string>) returns (unique: seq<string>)
    ensures Distinct(unique) && forall d :: d in unique <==> d in deps
  {
    unique := [];
    var left := set d | d in deps;
    while left != {}
      invariant Distinct(unique)
      invariant forall d :: d in unique ==> d !in left
      invariant forall d :: d in deps <==> d in unique || d in left
    {
      var d :| d in left;
      left := left - {d};
      unique := unique + [d];
    }
  }

  /** The innermost loop and its flag: whether some other listed name leads to `dep`. */
  method Implied(g: NodeDep, deps: seq<string>, dep: string, limit: nat) returns (flag: bool, raised: Answer)
    requires dep in deps
    ensures Answered(raised) ==> (flag <==> exists c :: c in deps && c != dep && Reach(g, c, dep))
    ensures Answered(raised) <==> forall c :: c in deps && c != dep ==> c in g && Answered(Dfs(g, dep, g[c], limit))
    ensures Closed(g) && (forall d :: d in deps ==> d in g) ==> raised != NoKey
  {
    flag, raised := false, NotFound;
    for j := 0 to |deps|
      invariant flag <==> exists c :: c in deps[..j] && c != dep && Reach(g, c, dep)
      invariant forall c :: c in deps[..j] && c != dep ==> c in g && Answered(Dfs(g, dep, g[c], limit))
    {
      var other := deps[j];
      assert deps[..j + 1] == deps[..j] + [other];
      if dep != other {
        if other !in g {
          return flag, NoKey;
        }
        ReachIsLeads(g, other, dep);
        DfsDecidesReachability(g, dep, g[other], limit);
        var answer := Dfs(g, dep, g[other], limit);
        if !Answered(answer) {
          if Closed(g) {
            ClosedHasKeys(g, dep, g[other], limit);
          }
          return flag, answer;
        }
        if answer == Found {
          flag := true;
        }
      }
    }
    assert deps[..|deps|] == deps;
  }

  /** The dependencies of one node that survive: two nested loops and a flag. */
  method KeepDirect(g: NodeDep, node: string, limit: nat) returns (kept: seq<string>, raised: Answer)
    requires node in g && Distinct(g[node])
    ensures Distinct(kept)
    ensures Answered(raised) ==> forall b :: b in kept <==> b in g[node] && !Redundant(g, node, b)
    ensures Answered(raised) <==> ListAnswered(g, g[node], limit)
    ensures Closed(g) ==> raised != NoKey
  {
    var deps := g[node];
    kept, raised := [], NotFound;
    for i := 0 to |deps|
      invariant Distinct(kept) && raised == NotFound
      invariant forall b :: b in kept <==> b in deps[..i] && !Redundant(g, node, b)
      invariant forall b, c :: b in deps[..i] && c in deps && b != c ==> c in g && Answered(Dfs(g, b, g[c], limit))
    {
      var dep := deps[i];
      var flag;
      flag, raised := Implied(g, deps, dep, limit);
      if !Answered(raised) {
        return;
      }
      raised := NotFound;
      assert deps[..i + 1] == deps[..i] + [dep] && dep !in deps[..i];
      if !flag {
        kept := kept + [dep];
      }
    }
    assert deps[..|deps|] == deps;
  }

  /**
   * The whole function. The source first overwrites the lists of its argument with their
   * deduplicated form (`unique`) and then fills a new dictionary. `limit` is the depth of the call stack.
   */
  method Simplify(nodeDep: NodeDep, limit: nat) returns (unique: NodeDep, r: Outcome)
    ensures SameEdges(nodeDep, unique) && forall n :: n in unique ==> Distinct(unique[n])
    ensures r.Simplified? ==> IsReduction(nodeDep, r.dep) && forall n :: n in r.dep ==> Distinct(r.dep[n])
    ensures r.Simplified? ==> r.dep.Keys == nodeDep.Keys && forall n, b :: n in nodeDep ==>
      (b in r.dep[n] <==> b in nodeDep[n] && !exists c :: c in nodeDep[n] && c != b && Reach(nodeDep, c, b))
    ensures r.Simplified? <==> AllAnswered(unique, limit)
    ensures Closed(nodeDep) && Acyclic(nodeDep) && limit > |nodeDep| ==> r.Simplified?
    ensures Closed(nodeDep) ==> r != Failed(NoKey)
  {
    unique := UniqueLists(nodeDep);
    SameEdgesKeepShape(nodeDep, unique);
    var simplified: NodeDep := map n | n in unique :: [];
    var keys := unique.Keys;
    while keys != {}
      invariant keys <= unique.Keys == simplified.Keys
      invariant forall n :: n in unique && n !in keys ==>
        Distinct(simplified[n]) && ListAnswered(unique, unique[n], limit)
      invariant forall n, b :: n in unique && n !in keys ==>
        (b in simplified[n] <==> b in unique[n] && !Redundant(unique, n, b))
    {
      var n :| n in keys;
      var kept, raised := KeepDirect(unique, n, limit);
      if !Answered(raised) {
        if Closed(nodeDep) && Acyclic(nodeDep) && limit > |nodeDep| {
          AlwaysAnswered(unique, limit);
        }
        return unique, Failed(raised);
      }
      simplified := simplified[n := kept];
      keys := keys - {n};
    }
    ReductionOfSame(nodeDep, unique, simplified);
    r := Simplified(simplified);
  }

  method UniqueLists(nodeDep: NodeDep) returns (unique: NodeDep)
    ensures SameEdges(nodeDep, unique) && forall n :: n in unique ==> Distinct(unique[n])
  {
    unique := nodeDep;
    var keys := nodeDep.Keys;
    while keys != {}
      invariant keys <= nodeDep.Keys && SameEdges(nodeDep, unique)
      invariant forall n :: n in unique && n !in keys ==> Distinct(unique[n])
    {
      var n :| n in keys;
      var deps := Dedup(unique[n]);
      unique := unique[n := deps];
      keys := keys - {n};
    }
  }

  lemma AlwaysAnswered(g: NodeDep, limit: nat)
    requires Closed(g) && Acyclic(g) && limit > |g|
    ensures AllAnswered(g, limit)
  {
    forall n, b, c | n in g && b in g[n] && c in g[n] && b != c ensures c in g && Answered(Dfs(g, b, g[c], limit)) {
      DfsAnswers(g, b, g[c], limit);
    }
  }

  lemma ReductionOfSame(g: NodeDep, h: NodeDep, s: NodeDep)
    requires SameEdges(g, h) && IsReduction(h, s)
    ensures IsReduction(g, s)
  {
    forall n, b | n in g ensures b in s[n] <==> b in g[n] && !Redundant(g, n, b) {
      forall c ensures Reach(g, c, b) <==> Reach(h, c, b) {
        SameEdgesSameReach(g, h, c, b);
      }
    }
  }

  lemma SameEdgesKeepShape(g: NodeDep, h: NodeDep)
    requires SameEdges(g, h)
    ensures (Closed(g) <==> Closed(h)) && (Acyclic(g) <==> Acyclic(h)) && |g| == |h|
  {
    forall n ensures Reach(h, n, n) <==> Reach(g, n, n) {
      SameEdgesSameReach(g, h, n, n);
    }
    assert |g| == |g.Keys| == |h.Keys| == |h|;
  }

  // ----- what the reduction means ---------------------------------------------------------

  /** The nodes strictly between two nodes; splitting a pair at one of them shrinks both parts. */
  ghost function Between(g: NodeDep, a: string, b: string): set<string> {
    set c | c in g && Reach(g, a, c) && Reach(g, c, b)
  }

  lemma BetweenShrinks(g: NodeDep, a: string, c: string, b: string)
    requires Closed(g) && Acyclic(g) && Reach(g, a, c) && Reach(g, c, b)
    ensures Between(g, a, c) < Between(g, a, b) && Between(g, c, b) < Between(g, a, b)
  {
    ReachInKeys(g, a, c);
    assert c in Between(g, a, b);
    forall m | m in Between(g, a, c) ensures m in Between(g, a, b) {
      ReachTransitive(g, m, c, b);
    }
    forall m | m in Between(g, c, b) ensures m in Between(g, a, b) {
      ReachTransitive(g, a, c, m);
    }
  }

  lemma InBetween(g: NodeDep, a: string, b: string, c: string)
    requires Closed(g)
    ensures c in Between(g, a, b) <==> Reach(g, a, c) && Reach(g, c, b)
  {
    if Reach(g, a, c) {
      ReachInKeys(g, a, c);
    }
  }

  /** A kept dependency is a covering pair: nothing lies strictly between its ends. */
  lemma KeptIsCovering(g: NodeDep, s: NodeDep, a: string, b: string)
    requires Closed(g) && Acyclic(g) && IsReduction(g, s)
    ensures Edge(s, a, b) <==> Reach(g, a, b) && Between(g, a, b) == {}
  {
    if Edge(s, a, b) {
      EdgeReaches(g, a, b);
      if c :| c in Between(g, a, b) {
        var d := FirstEdge(g, a, c);
        if d != c {
          ReachTransitive(g, d, c, b);
        }
        assert Redundant(g, a, b);
        assert false;
      }
    }
    if Reach(g, a, b) && Between(g, a, b) == {} {
      var d := FirstEdge(g, a, b);
      InBetween(g, a, b, d);
      EdgeReaches(g, a, d);
      forall c | Edge(g, a, c) ensures !Reach(g, c, b) {
        InBetween(g, a, b, c);
        EdgeReaches(g, a, c);
      }
    }
  }

  lemma {:induction false} ReachSurvives(g: NodeDep, s: NodeDep, a: string, b: string)
    requires Closed(g) && Acyclic(g) && IsReduction(g, s) && Reach(g, a, b)
    ensures Reach(s, a, b)
    decreases Between(g, a, b)
  {
    if c :| c in Between(g, a, b) {
      BetweenShrinks(g, a, c, b);
      ReachSurvives(g, s, a, c);
      ReachSurvives(g, s, c, b);
      ReachTransitive(s, a, c, b);
    } else {
      KeptIsCovering(g, s, a, b);
      EdgeReaches(s, a, b);
    }
  }

  /** Meaning preserved: exactly the same pairs are connected before and after. */
  lemma ReachabilityPreserved(g: NodeDep, s: NodeDep, a: string, b: string)
    requires Closed(g) && Acyclic(g) && IsReduction(g, s)
    ensures Reach(s, a, b) <==> Reach(g, a, b)
  {
    if Reach(g, a, b) {
      ReachSurvives(g, s, a, b);
    }
    if Reach(s, a, b) {
      var p :| Joins(s, p, a, b);
      forall i | 0 <= i < |p| - 1 ensures Edge(g, p[i], p[i + 1]) {
        assert Edge(s, p[i], p[i + 1]);
      }
      assert Joins(g, p, a, b);
    }
  }

  /** Unique: any graph connecting the same pairs lists every kept dependency itself. */
  lemma KeptIsForced(g: NodeDep, s: NodeDep, h: NodeDep, a: string, b: string)
    requires Closed(g) && Acyclic(g) && IsReduction(g, s)
    requires forall x, y :: Reach(h, x, y) <==> Reach(g, x, y)
    requires Edge(s, a, b)
    ensures Edge(h, a, b)
  {
    KeptIsCovering(g, s, a, b);
    var c := FirstEdge(h, a, b);
    InBetween(g, a, b, c);
    EdgeReaches(h, a, c);
  }

  ghost function Without(s: NodeDep, a: string, b: string): NodeDep
    requires a in s
  {
    s[a := DropAll(s[a], b)]
  }

  ghost function DropAll(deps: seq<string>, b: string): (r: seq<string>)
    ensures forall d :: d in r <==> d in deps && d != b
  {
    if deps == [] then []
    else if deps[0] == b then DropAll(deps[1..], b)
    else [deps[0]] + DropAll(deps[1..], b)
  }

  /** Minimal: a kept dependency is not implied by all the others together. */
  lemma KeptIsNeeded(g: NodeDep, s: NodeDep, a: string, b: string)
    requires Closed(g) && Acyclic(g) && IsReduction(g, s) && Edge(s, a, b)
    ensures !Reach(Without(s, a, b), a, b)
  {
    var w := Without(s, a, b);
    if Reach(w, a, b) {
      KeptIsCovering(g, s, a, b);
      var c := FirstEdge(w, a, b);
      InBetween(g, a, b, c);
      assert c != b && Edge(s, a, c);
      var p :| Joins(w, p, c, b);
      forall i | 0 <= i < |p| - 1 ensures Edge(s, p[i], p[i + 1]) {
        assert Edge(w, p[i], p[i + 1]);
      }
      assert Joins(s, p, c, b);
      EdgeReaches(s, a, c);
      ReachabilityPreserved(g, s, a, c);
      ReachabilityPreserved(g, s, c, b);
    }
  }

  /** Reducing twice changes nothing more. */
  lemma ReductionIsStable(g: NodeDep, s: NodeDep, t: NodeDep)
    requires Closed(g) && Acyclic(g) && IsReduction(g, s) && IsReduction(s, t)
    ensures SameEdges(s, t)
  {
    forall n, m | n in s ensures m in s[n] <==> m in t[n] {
      if m in s[n] && Redundant(s, n, m) {
        KeptIsCovering(g, s, n, m);
        var c :| c in s[n] && c != m && Reach(s, c, m);
        InBetween(g, n, m, c);
        EdgeReaches(g, n, c);
        ReachabilityPreserved(g, s, c, m);
      }
    }
  }

  // ----- which graphs keep their meaning --------------------------------------------------

  /** `d` is kept, leads to `b`, and does not lead back to `n`. */
  ghost predicate Bypass(g: NodeDep, n: string, b: string, d: string)
    requires n in g
  {
    d in g[n] && !Redundant(g, n, d) && Reach(g, d, b) && !Reach(g, d, n)
  }

  /** Each dependency that will be dropped is implied by one that is kept and does not lead back. */
  ghost predicate KeepsWay(g: NodeDep) {
    forall n, b :: n in g && b in g[n] && Redundant(g, n, b) ==> exists d :: Bypass(g, n, b, d)
  }

  ghost function Onward(g: NodeDep, n: string): set<string> {
    set m | m in g && (m == n || Reach(g, n, m))
  }

  lemma {:induction false} ReachSurvivesAnyway(g: NodeDep, s: NodeDep, p: seq<string>)
    requires IsReduction(g, s) && KeepsWay(g) && IsPath(g, p)
    ensures Reach(s, p[0], p[|p| - 1])
    decreases Onward(g, p[0]), |p|
  {
    var n, e, b := p[0], p[1], p[|p| - 1];
    assert Edge(g, n, e);
    EdgeReaches(g, n, e);
    if |p| > 2 {
      PathFrom(g, p);
    }
    if !Redundant(g, n, e) {
      EdgeReaches(s, n, e);
      if |p| > 2 {
        OnwardShrinks(g, n, e);
        ReachSurvivesAnyway(g, s, p[1..]);
        ReachTransitive(s, n, e, b);
      }
    } else {
      var d :| Bypass(g, n, e, d);
      EdgeReaches(g, n, d);
      if |p| > 2 {
        ReachTransitive(g, d, e, b);
      }
      var q :| Joins(g, q, d, b);
      OnwardShrinks(g, n, d);
      assert n in Onward(g, n) && n !in Onward(g, d);
      ReachSurvivesAnyway(g, s, q);
      EdgeReaches(s, n, d);
      ReachTransitive(s, n, d, b);
    }
  }

  lemma PathFrom(g: NodeDep, p: seq<string>)
    requires IsPath(g, p) && |p| > 2
    ensures IsPath(g, p[1..]) && Reach(g, p[1], p[|p| - 1])
  {
    var q := p[1..];
    forall i | 0 <= i < |q| - 1 ensures Edge(g, q[i], q[i + 1]) {
      assert Edge(g, p[i + 1], p[i + 2]);
    }
    assert Joins(g, q, p[1], p[|p| - 1]);
  }

  lemma OnwardShrinks(g: NodeDep, n: string, e: string)
    requires Reach(g, n, e)
    ensures Onward(g, e) <= Onward(g, n)
  {
    forall m | m in Onward(g, e) ensures m in Onward(g, n) {
      if m != e {
        ReachTransitive(g, n, e, m);
      }
    }
  }

  ghost predicate LeadsBack(g: NodeDep, x: string, d: string) {
    x == d || Reach(g, x, d)
  }

  /** Nothing kept leaves a cycle: where one edge stays on it, the edges that leave it are implied. */
  lemma {:induction false} NoWayOut(g: NodeDep, s: NodeDep, q: seq<string>, d: string)
    requires IsReduction(g, s) && IsPath(s, q) && Reach(g, d, d)
    requires LeadsBack(g, q[0], d) && (q[0] == d || Reach(g, d, q[0]))
    ensures LeadsBack(g, q[|q| - 1], d)
    decreases |q|
  {
    var x, y := q[0], q[1];
    assert Edge(s, x, y) && Edge(g, x, y);
    EdgeReaches(g, x, y);
    if x != d {
      ReachTransitive(g, d, x, y);
    }
    var z := FirstEdge(g, x, d);
    if z != d {
      ReachTransitive(g, z, d, y);
    }
    assert z == y;
    if |q| > 2 {
      PathFrom(s, q);
      NoWayOut(g, s, q[1..], d);
    }
  }

  lemma KeptLeadsOn(g: NodeDep, s: NodeDep, n: string, b: string) returns (d: string)
    requires IsReduction(g, s) && n in g && b in g[n] && Redundant(g, n, b) && Reach(s, n, b)
    ensures Bypass(g, n, b, d)
  {
    d := FirstEdge(s, n, b);
    assert d != b;
    ReachGrows(g, s, d, b);
    assert !Reach(g, b, d);
    if Reach(g, d, n) {
      EdgeReaches(g, n, d);
      ReachTransitive(g, d, n, d);
      var q :| Joins(s, q, d, b);
      NoWayOut(g, s, q, d);
    }
  }

  lemma ReachGrows(g: NodeDep, s: NodeDep, a: string, b: string)
    requires IsReduction(g, s) && Reach(s, a, b)
    ensures Reach(g, a, b)
  {
    var p :| Joins(s, p, a, b);
    forall i | 0 <= i < |p| - 1 ensures Edge(g, p[i], p[i + 1]) {
      assert Edge(s, p[i], p[i + 1]);
    }
    assert Joins(g, p, a, b);
  }

  /** On every graph whatever: the reduction connects the same pairs if and only if the graph keeps its way. */
  lemma PreservedExactly(g: NodeDep, s: NodeDep)
    requires IsReduction(g, s)
    ensures KeepsWay(g) <==> forall a, b :: Reach(s, a, b) <==> Reach(g, a, b)
  {
    if KeepsWay(g) {
      forall a, b ensures Reach(s, a, b) <==> Reach(g, a, b) {
        if Reach(g, a, b) {
          var p :| Joins(g, p, a, b);
          ReachSurvivesAnyway(g, s, p);
        }
        if Reach(s, a, b) {
          ReachGrows(g, s, a, b);
        }
      }
    }
    if forall a, b :: Reach(s, a, b) <==> Reach(g, a, b) {
      forall n, b | n in g && b in g[n] && Redundant(g, n, b) ensures exists d :: Bypass(g, n, b, d) {
        EdgeReaches(g, n, b);
        var d := KeptLeadsOn(g, s, n, b);
      }
    }
  }

  function Trap(): NodeDep {
    map["a" := ["b", "c"], "b" := ["a"], "c" := []]
  }

  /**
   * A cyclic graph on which the function answers and loses the only way from `a` to `c`: every search
   * it makes, whatever the order of its lists, is answered, and the rule drops the edge.
   */
  lemma CycleLosesReachability(unique: NodeDep, s: NodeDep, limit: nat)
    requires SameEdges(Trap(), unique) && (forall n :: n in unique ==> Distinct(unique[n])) && limit >= 2
    requires IsReduction(Trap(), s)
    ensures AllAnswered(unique, limit)
    ensures Closed(Trap()) && !KeepsWay(Trap()) && Reach(Trap(), "a", "c") && !Reach(s, "a", "c")
  {
    hide KeepsWay, IsReduction;
    TrapAnswers(unique, limit);
    TrapLoses(s);
    PreservedExactly(Trap(), s);
  }

  lemma TrapAnswers(unique: NodeDep, limit: nat)
    requires SameEdges(Trap(), unique) && (forall n :: n in unique ==> Distinct(unique[n])) && limit >= 2
    ensures AllAnswered(unique, limit)
  {
    var g := Trap();
    assert forall m :: m in unique["a"] <==> m in g["a"];
    assert forall m :: m in unique["b"] <==> m in g["b"];
    assert forall m :: m in unique["c"] <==> m in g["c"];
    OnlyOne(unique["b"], "a");
    NoneAtAll(unique["c"]);
    TwoFrames(unique, limit);
  }

  lemma TrapLoses(s: NodeDep)
    requires IsReduction(Trap(), s)
    ensures Closed(Trap()) && Reach(Trap(), "a", "c") && !Reach(s, "a", "c")
  {
    var g := Trap();
    assert Edge(g, "a", "c") && Edge(g, "b", "a");
    EdgeReaches(g, "a", "c");
    EdgeReaches(g, "b", "a");
    ReachTransitive(g, "b", "a", "c");
    assert "b" in g["a"] && Redundant(g, "a", "c");
    if Reach(s, "a", "c") {
      var y := LastEdge(s, "a", "c");
    }
  }

  lemma OnlyOne(s: seq<string>, x: string)
    requires Distinct(s) && forall m :: m in s <==> m == x
    ensures s == [x]
  {
    assert x in s;
    forall i | 0 <= i < |s| ensures s[i] == x {
      assert s[i] in s;
    }
    FirstTwo(s);
  }

  lemma FirstTwo(s: seq<string>)
    requires Distinct(s)
    ensures |s| >= 2 ==> s[0] != s[1]
  {
  }

  lemma NoneAtAll(s: seq<string>)
    requires forall m :: m !in s
    ensures s == []
  {
    HeadIn(s);
  }

  lemma TwoFrames(unique: NodeDep, limit: nat)
    requires unique.Keys == {"a", "b", "c"} && limit >= 2
    requires unique["b"] == ["a"] && unique["c"] == [] && forall m :: m in unique["a"] <==> m == "b" || m == "c"
    ensures AllAnswered(unique, limit)
  {
    assert Dfs(unique, "c", unique["a"], limit - 1) == Found;
    assert Dfs(unique, "c", ["a"], limit) == Branches(unique, "c", ["a"], 0, limit) == Found;
    assert Dfs(unique, "b", [], limit) == Branches(unique, "b", [], 0, limit) == NotFound;
    assert ListAnswered(unique, unique["a"], limit);
  }
}
