/** `generate_dag`: from the height at which each node holds each datum to node dependencies. */
module GenerateDag {
  import opened Graphs

  datatype Holding = Holding(datum: string, height: int)
  datatype Entry = Entry(node: string, data: seq<Holding>)

  /** The dictionary from node names to their holdings, in insertion order. */
  type NodeData = seq<Entry>

  datatype Outcome = Generated(dep: NodeDep) | WrongHeight(node: string, holding: Holding)

  ghost predicate IsDict(nd: NodeData) {
    forall i, j :: 0 <= i < j < |nd| ==> nd[i].node != nd[j].node
  }

  ghost predicate IsNode(nd: NodeData, n: string) {
    exists i :: 0 <= i < |nd| && nd[i].node == n
  }

  ghost predicate HoldsAt(nd: NodeData, i: int, k: int, n: string, d: string, h: int) {
    0 <= i < |nd| && 0 <= k < |nd[i].data| && nd[i].node == n && nd[i].data[k] == Holding(d, h)
  }

  ghost predicate Holds(nd: NodeData, n: string, d: string, h: int) {
    exists i, k :: HoldsAt(nd, i, k, n, d, h)
  }

  ghost predicate OthersHold(nd: NodeData, n: string, d: string, h: int) {
    exists m :: m != n && Holds(nd, m, d, h)
  }

  // ----- what the dependencies mean -------------------------------------------------------

  /** The height a holder of height `h` looks for first. */
  function Wanted(h: int): int {
    if h < 0 then -h else -(h - 1)
  }

  /** The height a holder of height `h` in fact waits for. */
  ghost function Source(nd: NodeData, n: string, d: string, h: int): int {
    if h < 0 && !OthersHold(nd, n, d, -h) then h + 1 else Wanted(h)
  }

  ghost predicate WaitsVia(nd: NodeData, n: string, m: string, d: string, h: int) {
    h != 0 && m != n && Holds(nd, n, d, h) && Holds(nd, m, d, Source(nd, n, d, h))
  }

  ghost predicate Waits(nd: NodeData, n: string, m: string) {
    exists d, h :: WaitsVia(nd, n, m, d, h)
  }

  /** One edge for each pair of nodes of which the first waits for the second, and no other edge. */
  ghost predicate Fits(nd: NodeData, dep: NodeDep) {
    && (forall n :: n in dep <==> IsNode(nd, n))
    && forall n, m :: Edge(dep, n, m) <==> Waits(nd, n, m)
  }

  ghost predicate Asks(nd: NodeData, n: string, d: string, h: int) {
    Holds(nd, n, d, h) && h != 0
  }

  /** Every holder away from height 0 finds another node to wait for. */
  ghost predicate AllServed(nd: NodeData) {
    forall n, d, h :: Asks(nd, n, d, h) ==> OthersHold(nd, n, d, Source(nd, n, d, h))
  }

  ghost predicate Stuck(nd: NodeData, n: string, x: Holding) {
    x.height != 0 && !OthersHold(nd, n, x.datum, Source(nd, n, x.datum, x.height))
  }

  ghost predicate Free(nd: NodeData, i: nat, upTo: int)
    requires i < |nd|
  {
    forall k :: 0 <= k < upTo <= |nd[i].data| ==> !Stuck(nd, nd[i].node, nd[i].data[k])
  }

  /** Holding `k` of entry `i` is stuck, and nothing the loops visit before it is. */
  ghost predicate FirstStuck(nd: NodeData, i: int, k: int) {
    && 0 <= i < |nd| && 0 <= k < |nd[i].data| && Stuck(nd, nd[i].node, nd[i].data[k])
    && (forall j :: 0 <= j < i ==> Free(nd, j, |nd[j].data|))
    && Free(nd, i, k)
  }

  /** `n` waits for `m` because of one of the first `upTo` holdings of entry `i`. */
  ghost predicate WaitsFrom(nd: NodeData, i: nat, upTo: int, m: string)
    requires i < |nd|
  {
    exists k :: 0 <= k < upTo <= |nd[i].data| && WaitsVia(nd, nd[i].node, m, nd[i].data[k].datum, nd[i].data[k].height)
  }

  // ----- the lists, name by name ----------------------------------------------------------

  function Copies(data: seq<Holding>, want: Holding, node: string): seq<string> {
    if data == [] then []
    else Copies(data[..|data| - 1], want, node) + (if data[|data| - 1] == want then [node] else [])
  }

  function LastOf(nd: NodeData, self: string, want: Holding): seq<string>
    requires nd != []
  {
    var e := nd[|nd| - 1];
    if e.node == self then [] else Copies(e.data, want, e.node)
  }

  /** The other holders of one height of one datum, in the order of the dictionary. */
  function HoldersIn(nd: NodeData, self: string, want: Holding): seq<string> {
    if nd == [] then [] else HoldersIn(nd[..|nd| - 1], self, want) + LastOf(nd, self, want)
  }

  /** What one holding adds to its node's list. */
  function FoundFor(nd: NodeData, n: string, x: Holding): seq<string> {
    if x.height == 0 then []
    else
      var first := HoldersIn(nd, n, Holding(x.datum, Wanted(x.height)));
      if x.height < 0 && first == [] then HoldersIn(nd, n, Holding(x.datum, x.height + 1)) else first
  }

  /** The whole list of a node: what each of its holdings adds, in order. */
  function ListFor(nd: NodeData, n: string, data: seq<Holding>): seq<string> {
    if data == [] then [] else ListFor(nd, n, data[..|data| - 1]) + FoundFor(nd, n, data[|data| - 1])
  }

  lemma {:induction false} CopiesMember(data: seq<Holding>, want: Holding, node: string)
    ensures forall m :: m in Copies(data, want, node) <==> m == node && want in data
  {
    if data != [] {
      CopiesMember(data[..|data| - 1], want, node);
      assert data == data[..|data| - 1] + [data[|data| - 1]];
    }
  }

  lemma HoldsGrows(nd: NodeData, m: string, d: string, h: int)
    requires nd != []
    ensures var e := nd[|nd| - 1];
      Holds(nd, m, d, h) <==> Holds(nd[..|nd| - 1], m, d, h) || (m == e.node && Holding(d, h) in e.data)
  {
    var front, e := nd[..|nd| - 1], nd[|nd| - 1];
    if i, k :| HoldsAt(front, i, k, m, d, h) {
      assert HoldsAt(nd, i, k, m, d, h);
    }
    if k :| m == e.node && 0 <= k < |e.data| && e.data[k] == Holding(d, h) {
      assert HoldsAt(nd, |nd| - 1, k, m, d, h);
    }
    if i, k :| HoldsAt(nd, i, k, m, d, h) && i < |nd| - 1 {
      assert HoldsAt(front, i, k, m, d, h);
    }
  }

  lemma {:induction false} HoldersMember(nd: NodeData, self: string, want: Holding, m: string)
    ensures m in HoldersIn(nd, self, want) <==> m != self && Holds(nd, m, want.datum, want.height)
  {
    assert want == Holding(want.datum, want.height);
    if nd != [] {
      HoldersMember(nd[..|nd| - 1], self, want, m);
      HoldsGrows(nd, m, want.datum, want.height);
      CopiesMember(nd[|nd| - 1].data, want, nd[|nd| - 1].node);
    }
  }

  /** One holding adds names exactly if it is not stuck, and exactly the names it waits for. */
  lemma FoundMember(nd: NodeData, n: string, x: Holding, m: string)
    requires Holds(nd, n, x.datum, x.height)
    ensures m in FoundFor(nd, n, x) <==> WaitsVia(nd, n, m, x.datum, x.height)
    ensures FoundFor(nd, n, x) == [] <==> x.height == 0 || Stuck(nd, n, x)
  {
    NobodyMeansEmpty(nd, n, Holding(x.datum, Wanted(x.height)));
    NobodyMeansEmpty(nd, n, Holding(x.datum, x.height + 1));
    HoldersMember(nd, n, Holding(x.datum, Wanted(x.height)), m);
    HoldersMember(nd, n, Holding(x.datum, x.height + 1), m);
  }

  lemma NobodyMeansEmpty(nd: NodeData, self: string, want: Holding)
    ensures HoldersIn(nd, self, want) == [] <==> !OthersHold(nd, self, want.datum, want.height)
  {
    var found := HoldersIn(nd, self, want);
    if found != [] {
      assert found[0] in found;
      HoldersMember(nd, self, want, found[0]);
    }
    if OthersHold(nd, self, want.datum, want.height) {
      var m :| m != self && Holds(nd, m, want.datum, want.height);
      HoldersMember(nd, self, want, m);
    }
  }

  lemma {:induction false} ListMember(nd: NodeData, i: nat, k: nat, m: string)
    requires i < |nd| && k <= |nd[i].data|
    ensures m in ListFor(nd, nd[i].node, nd[i].data[..k]) <==> WaitsFrom(nd, i, k, m)
  {
    hide FoundFor, WaitsVia, HoldersIn, OthersHold, Source;
    if k > 0 {
      var data, x := nd[i].data, nd[i].data[k - 1];
      ListMember(nd, i, k - 1, m);
      assert data[..k][..k - 1] == data[..k - 1];
      assert HoldsAt(nd, i, k - 1, nd[i].node, x.datum, x.height);
      FoundMember(nd, nd[i].node, x, m);
    }
  }

  lemma {:induction false} CopiesAre(data: seq<Holding>, want: Holding, node: string)
    ensures forall a :: 0 <= a < |Copies(data, want, node)| ==> Copies(data, want, node)[a] == node
  {
    if data != [] {
      CopiesAre(data[..|data| - 1], want, node);
    }
  }

  /** Names come in the order of the dictionary. */
  lemma {:induction false} HoldersInOrder(nd: NodeData, self: string, want: Holding, a: nat, b: nat, i: nat, j: nat)
    requires IsDict(nd) && a < b < |HoldersIn(nd, self, want)| && i < |nd| && j < |nd|
    requires HoldersIn(nd, self, want)[a] == nd[i].node && HoldersIn(nd, self, want)[b] == nd[j].node
    ensures i <= j
  {
    var front, n := nd[..|nd| - 1], |nd| - 1;
    var found := HoldersIn(front, self, want);
    CopiesAre(nd[n].data, want, nd[n].node);
    if b < |found| {
      FrontHolds(nd, self, want, a, i);
      FrontHolds(nd, self, want, b, j);
      HoldersInOrder(front, self, want, a, b, i, j);
    } else {
      assert nd[j].node == nd[n].node;
    }
  }

  lemma FrontHolds(nd: NodeData, self: string, want: Holding, a: nat, i: nat)
    requires IsDict(nd) && nd != [] && a < |HoldersIn(nd[..|nd| - 1], self, want)| && i < |nd|
    requires HoldersIn(nd[..|nd| - 1], self, want)[a] == nd[i].node
    ensures i < |nd| - 1
  {
    var front := nd[..|nd| - 1];
    HoldersMember(front, self, want, nd[i].node);
    NotBefore(nd, want);
  }

  /**
   * Holding by holding, a node's list grows by the other holders of the height looked for first, or, if that
   * height is negated and nobody else is at it, of the next height up.
   */
  lemma ListByHolding(nd: NodeData, n: string, data: seq<Holding>, d: string, h: int)
    ensures ListFor(nd, n, []) == []
    ensures ListFor(nd, n, data + [Holding(d, h)]) == ListFor(nd, n, data) +
      if h == 0 then []
      else if h > 0 then HoldersIn(nd, n, Holding(d, -(h - 1)))
      else if OthersHold(nd, n, d, -h) then HoldersIn(nd, n, Holding(d, -h))
      else HoldersIn(nd, n, Holding(d, h + 1))
  {
    assert (data + [Holding(d, h)])[..|data|] == data;
    NobodyMeansEmpty(nd, n, Holding(d, -h));
  }

  /** Nobody's holdings repeat. */
  ghost predicate NoRepeats(nd: NodeData) {
    IsDict(nd) && forall i :: 0 <= i < |nd| ==> Distinct(nd[i].data)
  }

  /** Then one holding adds each name once: a list repeats a name only for different holdings. */
  lemma {:induction false} OncePerHolding(nd: NodeData, self: string, want: Holding)
    requires NoRepeats(nd)
    ensures Distinct(HoldersIn(nd, self, want))
  {
    if nd != [] {
      var front, e := nd[..|nd| - 1], nd[|nd| - 1];
      OncePerHolding(front, self, want);
      OneCopy(e.data, want, e.node);
      CopiesMember(e.data, want, e.node);
      HoldersMember(front, self, want, e.node);
      NotBefore(nd, want);
      OneMore(HoldersIn(front, self, want), if e.node == self then [] else Copies(e.data, want, e.node), e.node);
    }
  }

  lemma NotBefore(nd: NodeData, want: Holding)
    requires IsDict(nd) && nd != []
    ensures !Holds(nd[..|nd| - 1], nd[|nd| - 1].node, want.datum, want.height)
  {
  }

  lemma OneMore(names: seq<string>, extra: seq<string>, name: string)
    requires Distinct(names) && name !in names
    requires |extra| <= 1 && forall m :: m in extra ==> m == name
    ensures Distinct(names + extra)
  {
    var all := names + extra;
    forall i, j | 0 <= i < j < |all| ensures all[i] != all[j] {
      if j >= |names| {
        assert extra[j - |names|] in extra;
        assert all[i] == names[i] && names[i] in names;
      }
    }
  }

  lemma {:induction false} OneCopy(data: seq<Holding>, want: Holding, node: string)
    requires Distinct(data)
    ensures |Copies(data, want, node)| <= 1
  {
    if data != [] {
      OneCopy(data[..|data| - 1], want, node);
      CopiesWhere(data[..|data| - 1], want, node);
    }
  }

  lemma CopiesWhere(data: seq<Holding>, want: Holding, node: string)
    ensures Copies(data, want, node) == [] <==> want !in data
  {
    CopiesMember(data, want, node);
    if Copies(data, want, node) != [] {
      assert Copies(data, want, node)[0] in Copies(data, want, node);
    }
  }

  // ----- the loops ------------------------------------------------------------------------

  /** The two inner loops, which the source writes out once for each height it looks for. */
  method AppendHolders(nd: NodeData, self: string, want: Holding, deps: seq<string>)
    returns (out: seq<string>, flag: bool)
    ensures out == deps + HoldersIn(nd, self, want)
    ensures flag <==> OthersHold(nd, self, want.datum, want.height)
  {
    hide HoldersIn, OthersHold, Copies;
    out, flag := deps, false;
    NextHolder(nd[..0], self, want);
    for i := 0 to |nd|
      invariant out == deps + HoldersIn(nd[..i], self, want) && (flag <==> |out| > |deps|)
    {
      var pre, before := nd[i], out;
      if pre.node != self {
        NoCopy(want, pre.node);
        for k := 0 to |pre.data|
          invariant out == before + Copies(pre.data[..k], want, pre.node) && (flag <==> |out| > |deps|)
        {
          NextCopy(pre.data, k, want, pre.node);
          if pre.data[k] == want {
            out := out + [pre.node];
            flag := true;
          }
        }
        assert pre.data[..|pre.data|] == pre.data;
      }
      NextHolder(nd[..i + 1], self, want);
      assert nd[..i + 1][..i] == nd[..i];
    }
    assert nd[..|nd|] == nd;
    NobodyMeansEmpty(nd, self, want);
  }

  lemma NoCopy(want: Holding, node: string)
    ensures Copies([], want, node) == []
  {
  }

  lemma NextCopy(data: seq<Holding>, k: nat, want: Holding, node: string)
    requires k < |data|
    ensures Copies(data[..k + 1], want, node) == Copies(data[..k], want, node) + if data[k] == want then [node] else []
  {
    assert data[..k + 1][..k] == data[..k];
  }

  lemma NextHolder(nd: NodeData, self: string, want: Holding)
    ensures nd == [] ==> HoldersIn(nd, self, want) == []
    ensures nd != [] ==> HoldersIn(nd, self, want) == HoldersIn(nd[..|nd| - 1], self, want) + LastOf(nd, self, want)
  {
  }

  /** One holding: nothing at height 0, else the first height looked for, else the second. */
  method DepsOfOne(nd: NodeData, n: string, x: Holding, deps: seq<string>) returns (found: seq<string>, flag: bool)
    requires Holds(nd, n, x.datum, x.height)
    ensures flag <==> !Stuck(nd, n, x)
    ensures found == deps + FoundFor(nd, n, x)
  {
    hide HoldersIn, OthersHold, Holds;
    NobodyMeansEmpty(nd, n, Holding(x.datum, Wanted(x.height)));
    var datum, height := x.datum, x.height;
    if height == 0 {
      return deps, true;
    }
    var preHeight := height;
    if height < 0 {
      preHeight := -height;
    }
    if height > 0 {
      preHeight := -(height - 1);
    }
    found, flag := AppendHolders(nd, n, Holding(datum, preHeight), deps);
    if height < 0 && !flag {
      preHeight := height + 1;
      found, flag := AppendHolders(nd, n, Holding(datum, preHeight), found);
    }
  }

  /** The loop over one node's holdings; `stuck` is the first holding with nobody to wait for, or -1. */
  method DepsOfNode(nd: NodeData, i: nat) returns (deps: seq<string>, stuck: int)
    requires i < |nd|
    ensures -1 <= stuck < |nd[i].data|
    ensures stuck >= 0 ==> Stuck(nd, nd[i].node, nd[i].data[stuck]) && Free(nd, i, stuck)
    ensures stuck < 0 ==> Free(nd, i, |nd[i].data|) && deps == ListFor(nd, nd[i].node, nd[i].data)
  {
    var n, data := nd[i].node, nd[i].data;
    deps, stuck := [], -1;
    for k := 0 to |data|
      invariant deps == ListFor(nd, n, data[..k])
      invariant Free(nd, i, k)
    {
      assert HoldsAt(nd, i, k, n, data[k].datum, data[k].height);
      assert data[..k + 1][..k] == data[..k];
      var found, flag := DepsOfOne(nd, n, data[k], deps);
      if !flag {
        return deps, k;
      }
      deps := found;
    }
    assert data[..|data|] == data;
  }

  /** `generate_dag`: the dependencies, or the first holding that has nobody to wait for. */
  method Generate(nd: NodeData) returns (r: Outcome)
    requires IsDict(nd)
    ensures r.Generated? <==> AllServed(nd)
    ensures r.Generated? ==> Fits(nd, r.dep)
    ensures r.Generated? ==> forall i :: 0 <= i < |nd| ==>
      nd[i].node in r.dep && r.dep[nd[i].node] == ListFor(nd, nd[i].node, nd[i].data)
    ensures r.WrongHeight? ==> exists i, k :: FirstStuck(nd, i, k) && r == WrongHeight(nd[i].node, nd[i].data[k])
    ensures r.WrongHeight? ==> exists i, k ::
      0 <= i < |nd| && 0 <= k < |nd[i].data| && r == WrongHeight(nd[i].node, nd[i].data[k])
      && Stuck(nd, nd[i].node, nd[i].data[k])
      && forall j, l :: 0 <= j < |nd| && 0 <= l < |nd[j].data| && (j < i || (j == i && l < k)) ==>
        !Stuck(nd, nd[j].node, nd[j].data[l])
  {
    hide ListFor, Fits, AllServed, WaitsFrom;
    var dep := EmptyDeps(nd);
    for i := 0 to |nd|
      invariant forall n :: n in dep <==> IsNode(nd, n)
      invariant forall j :: 0 <= j < i ==> nd[j].node in dep && dep[nd[j].node] == ListFor(nd, nd[j].node, nd[j].data)
      invariant forall j :: 0 <= j < i ==> Free(nd, j, |nd[j].data|)
    {
      var deps, k := DepsOfNode(nd, i);
      if k >= 0 {
        assert FirstStuck(nd, i, k);
        StuckMeans(nd, i, k);
        return WrongHeight(nd[i].node, nd[i].data[k]);
      }
      dep := dep[nd[i].node := deps];
    }
    forall j: nat, m | j < |nd| ensures Edge(dep, nd[j].node, m) <==> WaitsFrom(nd, j, |nd[j].data|, m) {
      assert nd[j].data[..|nd[j].data|] == nd[j].data;
      ListMember(nd, j, |nd[j].data|, m);
    }
    AllFreeMeans(nd, dep);
    return Generated(dep);
  }

  method EmptyDeps(nd: NodeData) returns (dep: NodeDep)
    ensures forall n :: n in dep <==> IsNode(nd, n)
    ensures forall n :: n in dep ==> dep[n] == []
  {
    dep := map[];
    for i := 0 to |nd|
      invariant forall n :: n in dep <==> exists j :: 0 <= j < i && nd[j].node == n
      invariant forall n :: n in dep ==> dep[n] == []
    {
      dep := dep[nd[i].node := []];
    }
  }

  lemma StuckMeans(nd: NodeData, i: int, k: int)
    requires FirstStuck(nd, i, k)
    ensures !AllServed(nd)
  {
    var n, x := nd[i].node, nd[i].data[k];
    assert HoldsAt(nd, i, k, n, x.datum, x.height);
    assert Asks(nd, n, x.datum, x.height);
  }

  lemma AllFreeMeans(nd: NodeData, dep: NodeDep)
    requires IsDict(nd)
    requires forall n :: n in dep <==> IsNode(nd, n)
    requires forall j, m :: 0 <= j < |nd| ==> (Edge(dep, nd[j].node, m) <==> WaitsFrom(nd, j, |nd[j].data|, m))
    requires forall j :: 0 <= j < |nd| ==> Free(nd, j, |nd[j].data|)
    ensures AllServed(nd) && Fits(nd, dep)
  {
    forall n, d, h | Asks(nd, n, d, h) ensures OthersHold(nd, n, d, Source(nd, n, d, h)) {
      var i, k :| HoldsAt(nd, i, k, n, d, h);
      assert !Stuck(nd, nd[i].node, nd[i].data[k]);
    }
    forall n, m ensures Edge(dep, n, m) <==> Waits(nd, n, m) {
      if Waits(nd, n, m) {
        var d, h :| WaitsVia(nd, n, m, d, h);
        var i, k :| HoldsAt(nd, i, k, n, d, h);
        assert WaitsFrom(nd, i, |nd[i].data|, m);
      }
      if Edge(dep, n, m) {
        var i :| 0 <= i < |nd| && nd[i].node == n;
        assert WaitsFrom(nd, i, |nd[i].data|, m);
      }
    }
  }

  lemma FitsIsClosed(nd: NodeData, dep: NodeDep)
    requires Fits(nd, dep)
    ensures Closed(dep)
  {
    forall n, m | n in dep && m in dep[n] ensures m in dep {
      assert Edge(dep, n, m);
      var d, h :| WaitsVia(nd, n, m, d, h);
      assert IsNode(nd, m);
    }
  }

  // ----- the order of heights -------------------------------------------------------------

  /** The place of a height in the sequence 0, 1, -1, 2, -2, ... */
  function Rank(h: int): nat {
    if h > 0 then 2 * h - 1 else -2 * h
  }

  /**
   * All holders of one datum are chained: whoever ranks lower is a direct or indirect
   * dependency of whoever ranks higher.
   */
  lemma {:induction false} DatumChain(nd: NodeData, dep: NodeDep, d: string, n: string, h: int, m: string, g: int)
    requires AllServed(nd) && Fits(nd, dep)
    requires n != m && Holds(nd, n, d, h) && Holds(nd, m, d, g) && Rank(g) < Rank(h)
    ensures Reach(dep, n, m)
    decreases Rank(h)
  {
    var p := Source(nd, n, d, h);
    assert Asks(nd, n, d, h);
    assert Rank(p) < Rank(h) && Rank(g) <= Rank(p);
    var k :| k != n && Holds(nd, k, d, p);
    assert WaitsVia(nd, n, k, d, h);
    assert Edge(dep, n, k);
    EdgeReaches(dep, n, k);
    if g == p {
      assert WaitsVia(nd, n, m, d, h);
      assert Edge(dep, n, m);
      EdgeReaches(dep, n, m);
    } else if k != m {
      DatumChain(nd, dep, d, k, p, m, g);
      ReachTransitive(dep, n, k, m);
    }
  }

  /** A node order: every node once. */
  ghost predicate IsSchedule(nd: NodeData, order: seq<string>) {
    Distinct(order) && forall n :: n in order <==> IsNode(nd, n)
  }

  ghost predicate Respects(dep: NodeDep, order: seq<string>) {
    forall i, j :: 0 <= i < |order| && 0 <= j < |order| && Edge(dep, order[i], order[j]) ==> j < i
  }

  /** For every datum, its holders come in height order; equal heights are free. */
  ghost predicate HeightOrdered(nd: NodeData, order: seq<string>) {
    forall i, j, d, h, g | 0 <= i < |order| && 0 <= j < |order| && i != j ::
      Holds(nd, order[i], d, h) && Holds(nd, order[j], d, g) && Rank(g) < Rank(h) ==> j < i
  }

  ghost predicate ReachOrdered(dep: NodeDep, order: seq<string>) {
    forall i, j :: 0 <= i < |order| && 0 <= j < |order| && Reach(dep, order[i], order[j]) ==> j < i
  }

  lemma {:induction false} PathGoesBack(dep: NodeDep, order: seq<string>, p: seq<string>, i: nat, j: nat)
    requires Respects(dep, order) && IsPath(dep, p)
    requires forall k :: 0 <= k < |p| ==> p[k] in order
    requires Distinct(order)
    requires i < |order| && j < |order| && order[i] == p[0] && order[j] == p[|p| - 1]
    ensures j < i
    decreases |p|
  {
    var k :| 0 <= k < |order| && order[k] == p[1];
    assert Edge(dep, p[0], p[1]);
    if |p| > 2 {
      var q := p[1..];
      forall l | 0 <= l < |q| - 1 ensures Edge(dep, q[l], q[l + 1]) {
        assert Edge(dep, p[l + 1], p[l + 2]);
      }
      PathGoesBack(dep, order, q, k, j);
    }
  }

  lemma RespectsReach(nd: NodeData, dep: NodeDep, order: seq<string>)
    requires Fits(nd, dep) && IsSchedule(nd, order) && Respects(dep, order)
    ensures ReachOrdered(dep, order)
  {
    FitsIsClosed(nd, dep);
    forall i, j | 0 <= i < |order| && 0 <= j < |order| && Reach(dep, order[i], order[j]) ensures j < i {
      var p :| Joins(dep, p, order[i], order[j]);
      forall k | 0 <= k < |p| ensures p[k] in order {
        if k > 0 {
          assert Edge(dep, p[k - 1], p[k]);
        }
      }
      PathGoesBack(dep, order, p, i, j);
    }
  }

  /** Exact schedules: the dependencies say no more and no less than the heights. */
  lemma ExactSchedules(nd: NodeData, dep: NodeDep, order: seq<string>)
    requires AllServed(nd) && Fits(nd, dep) && IsSchedule(nd, order)
    ensures Respects(dep, order) <==> HeightOrdered(nd, order)
  {
    if Respects(dep, order) {
      RespectsReach(nd, dep, order);
      forall i, j, d, h, g |
        0 <= i < |order| && 0 <= j < |order| && i != j
        && Holds(nd, order[i], d, h) && Holds(nd, order[j], d, g) && Rank(g) < Rank(h)
        ensures j < i
      {
        DatumChain(nd, dep, d, order[i], h, order[j], g);
      }
    }
    if HeightOrdered(nd, order) {
      forall i, j | 0 <= i < |order| && 0 <= j < |order| && Edge(dep, order[i], order[j]) ensures j < i {
        assert Waits(nd, order[i], order[j]);
        var d, h :| WaitsVia(nd, order[i], order[j], d, h);
        assert Rank(Source(nd, order[i], d, h)) < Rank(h);
      }
    }
  }
}
