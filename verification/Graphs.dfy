/** Finite directed graphs as adjacency lists, and reachability by one or more edges. */
module Graphs {

  type Graph<T> = map<T, seq<T>>

  /** Dependencies between named nodes. */
  type NodeDep = Graph<string>

  predicate Distinct<T(==)>(s: seq<T>) {
    forall i, j :: 0 <= i < j < |s| ==> s[i] != s[j]
  }

  /** `s` lists the members of `all`, each once. */
  ghost predicate ListsOnce<T(!new)>(s: seq<T>, all: set<T>) {
    Distinct(s) && forall n :: n in s <==> n in all
  }

  lemma HeadIn<T>(s: seq<T>)
    ensures s != [] ==> s[0] in s
  {
  }

  ghost predicate Edge<T>(g: Graph<T>, a: T, b: T) {
    a in g && b in g[a]
  }

  /** Every listed neighbour is itself a key. */
  ghost predicate Closed<T(!new)>(g: Graph<T>) {
    forall n, m :: n in g && m in g[n] ==> m in g
  }

  ghost predicate IsPath<T>(g: Graph<T>, p: seq<T>) {
    |p| >= 2 && forall i :: 0 <= i < |p| - 1 ==> Edge(g, p[i], p[i + 1])
  }

  ghost predicate Joins<T>(g: Graph<T>, p: seq<T>, a: T, b: T) {
    IsPath(g, p) && p[0] == a && p[|p| - 1] == b
  }

  /** `b` is reached from `a` by one or more edges. */
  ghost predicate Reach<T(!new)>(g: Graph<T>, a: T, b: T) {
    exists p: seq<T> :: Joins(g, p, a, b)
  }

  ghost predicate Acyclic<T(!new)>(g: Graph<T>) {
    forall n :: !Reach(g, n, n)
  }

  /** The nodes strictly below `a`: in a closed acyclic graph this set shrinks along every edge. */
  ghost function Below<T(!new)>(g: Graph<T>, a: T): set<T> {
    set m | m in g && Reach(g, a, m)
  }

  /** The nodes strictly above `b`. */
  ghost function Above<T(!new)>(g: Graph<T>, b: T): set<T> {
    set m | m in g && Reach(g, m, b)
  }

  lemma EdgeReaches<T(!new)>(g: Graph<T>, a: T, b: T)
    requires Edge(g, a, b)
    ensures Reach(g, a, b)
  {
    assert Joins(g, [a, b], a, b);
  }

  lemma ReachTransitive<T(!new)>(g: Graph<T>, a: T, b: T, c: T)
    requires Reach(g, a, b) && Reach(g, b, c)
    ensures Reach(g, a, c)
  {
    var p :| Joins(g, p, a, b);
    var q :| Joins(g, q, b, c);
    var r := p + q[1..];
    forall i | 0 <= i < |r| - 1 ensures Edge(g, r[i], r[i + 1]) {
      if i < |p| - 1 {
        assert r[i] == p[i] && r[i + 1] == p[i + 1];
      } else {
        assert r[i] == q[i - |p| + 1] && r[i + 1] == q[i - |p| + 2];
      }
    }
    assert Joins(g, r, a, c);
  }

  /** The first edge of a path, and what is left of it. */
  lemma FirstEdge<T(!new)>(g: Graph<T>, a: T, b: T) returns (c: T)
    requires Reach(g, a, b)
    ensures Edge(g, a, c) && (c == b || Reach(g, c, b))
  {
    var p :| Joins(g, p, a, b);
    c := p[1];
    assert Edge(g, p[0], p[1]);
    if |p| > 2 {
      var q := p[1..];
      forall i | 0 <= i < |q| - 1 ensures Edge(g, q[i], q[i + 1]) {
        assert q[i] == p[i + 1] && q[i + 1] == p[i + 2];
      }
      assert Joins(g, q, c, b);
    }
  }

  /** The last edge of a path, and what comes before it. */
  lemma LastEdge<T(!new)>(g: Graph<T>, a: T, b: T) returns (c: T)
    requires Reach(g, a, b)
    ensures Edge(g, c, b) && (c == a || Reach(g, a, c))
  {
    var p :| Joins(g, p, a, b);
    c := p[|p| - 2];
    assert Edge(g, p[|p| - 2], p[|p| - 1]);
    if |p| > 2 {
      var q := p[..|p| - 1];
      forall i | 0 <= i < |q| - 1 ensures Edge(g, q[i], q[i + 1]) {
        assert q[i] == p[i] && q[i + 1] == p[i + 1];
      }
      assert Joins(g, q, a, c);
    }
  }

  lemma ReachInKeys<T(!new)>(g: Graph<T>, a: T, b: T)
    requires Closed(g) && Reach(g, a, b)
    ensures a in g && b in g
  {
    var c := FirstEdge(g, a, b);
    var d := LastEdge(g, a, b);
  }

  /** Going down one edge leaves a strictly smaller set of nodes below. */
  lemma BelowShrinks<T(!new)>(g: Graph<T>, a: T, b: T)
    requires Closed(g) && Acyclic(g) && Reach(g, a, b)
    ensures Below(g, b) < Below(g, a)
  {
    ReachInKeys(g, a, b);
    forall m | m in Below(g, b) ensures m in Below(g, a) {
      ReachTransitive(g, a, b, m);
    }
    assert b in Below(g, a) && b !in Below(g, b);
  }

  lemma AboveShrinks<T(!new)>(g: Graph<T>, a: T, b: T)
    requires Closed(g) && !Reach(g, a, a) && Reach(g, a, b)
    ensures Above(g, a) < Above(g, b)
  {
    ReachInKeys(g, a, b);
    forall m | m in Above(g, a) ensures m in Above(g, b) {
      ReachTransitive(g, m, a, b);
    }
    assert a in Above(g, b) && a !in Above(g, a);
  }
}
