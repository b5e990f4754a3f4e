/** `check_height`, what it really accepts, and what accepting and generating guarantee together. */
module CheckHeight {
  import opened Graphs
  import opened GenerateDag
  import opened Confluence

  /** `IndexError` stands for the exception Python raises when the list is shorter than its index. */
  datatype Verdict = Fine | Wrong | IndexError
  datatype Check = Accepted | Rejected(datum: string) | Raised(datum: string)

  // ----- the heights of one datum ---------------------------------------------------------

  /** The heights of datum `d` in the order they are met. */
  function Heights(met: seq<Holding>, d: string): seq<int> {
    if met == [] then []
    else
      var x := met[|met| - 1];
      Heights(met[..|met| - 1], d) + (if x.datum == d then [x.height] else [])
  }

  /** The data in the order they are first met, which is the order of the dictionary's keys. */
  function FirstMet(met: seq<Holding>): seq<string> {
    if met == [] then []
    else
      var x, before := met[|met| - 1], FirstMet(met[..|met| - 1]);
      if x.datum in before then before else before + [x.datum]
  }

  function AllHoldings(nd: NodeData): seq<Holding> {
    if nd == [] then [] else AllHoldings(nd[..|nd| - 1]) + nd[|nd| - 1].data
  }

  function Insert(x: int, s: seq<int>): seq<int> {
    if s == [] || x <= s[0] then [x] + s else [s[0]] + Insert(x, s[1..])
  }

  /** Python's `sorted`. */
  function Sorted(s: seq<int>): seq<int> {
    if s == [] then [] else Insert(s[0], Sorted(s[1..]))
  }

  function Abs(x: int): nat {
    if x < 0 then -x else x
  }

  /** The body of the checking loop, for the heights of one datum. */
  function Judge(heights: seq<int>): Verdict
    requires heights != []
  {
    SortedIsSorted(heights);
    var s := Sorted(heights);
    var lo, hi := s[0], s[|s| - 1];
    if hi > Abs(lo) + 1 then Wrong
    else if Abs(lo) >= |s| then IndexError
    else if s[Abs(lo)] != 0 || (|s| > Abs(lo) + 1 && s[Abs(lo) + 1] != 1) then Wrong
    else Fine
  }

  /** Key `i` is the first that is not fine. */
  ghost predicate FirstBad(met: seq<Holding>, i: int, v: Verdict) {
    && 0 <= i < |FirstMet(met)|
    && Heights(met, FirstMet(met)[i]) != [] && Judge(Heights(met, FirstMet(met)[i])) == v != Fine
    && forall j :: 0 <= j < i ==> FineFor(met, FirstMet(met)[j])
  }

  ghost predicate FineFor(met: seq<Holding>, d: string) {
    Heights(met, d) != [] && Judge(Heights(met, d)) == Fine
  }

  ghost predicate Accepts(nd: NodeData) {
    forall d :: d in FirstMet(AllHoldings(nd)) ==> FineFor(AllHoldings(nd), d)
  }

  lemma {:induction false} MetMeansHeights(met: seq<Holding>, d: string)
    ensures d in FirstMet(met) <==> Heights(met, d) != []
  {
    if met != [] {
      MetMeansHeights(met[..|met| - 1], d);
    }
  }

  lemma {:induction false} HeightsMember(met: seq<Holding>, d: string, h: int)
    ensures h in Heights(met, d) <==> Holding(d, h) in met
  {
    if met != [] {
      HeightsMember(met[..|met| - 1], d, h);
      assert met == met[..|met| - 1] + [met[|met| - 1]];
    }
  }

  lemma {:induction false} AllHoldingsMember(nd: NodeData, x: Holding)
    ensures x in AllHoldings(nd) <==> exists n :: Holds(nd, n, x.datum, x.height)
  {
    assert x == Holding(x.datum, x.height);
    if nd != [] {
      var init, e := nd[..|nd| - 1], nd[|nd| - 1];
      AllHoldingsMember(init, x);
      if n :| Holds(init, n, x.datum, x.height) {
        var i, k :| HoldsAt(init, i, k, n, x.datum, x.height);
        assert HoldsAt(nd, i, k, n, x.datum, x.height);
        assert Holds(nd, n, x.datum, x.height);
      }
      if x in e.data {
        var k :| 0 <= k < |e.data| && e.data[k] == x;
        assert HoldsAt(nd, |nd| - 1, k, e.node, x.datum, x.height);
        assert Holds(nd, e.node, x.datum, x.height);
      }
      if n :| Holds(nd, n, x.datum, x.height) {
        var i, k :| HoldsAt(nd, i, k, n, x.datum, x.height);
        if i < |nd| - 1 {
          assert HoldsAt(init, i, k, n, x.datum, x.height);
          assert Holds(init, n, x.datum, x.height);
        }
      }
    }
  }

  /** `check_height`: collect the heights of each datum, then judge the data one by one. */
  method CheckHeights(nd: NodeData) returns (r: Check)
    ensures r.Accepted? <==> Accepts(nd)
    ensures r.Accepted? <==>
      forall j, l :: 0 <= j < |nd| && 0 <= l < |nd[j].data| ==> IsRegular(HeightsIn(nd, nd[j].data[l].datum))
    ensures r.Rejected? <==> exists i :: FirstBad(AllHoldings(nd), i, Wrong)
    ensures r.Raised? <==> exists i :: FirstOverrun(AllHoldings(nd), i)
    ensures r.Rejected? ==>
      exists i :: FirstBad(AllHoldings(nd), i, Wrong) && FirstMet(AllHoldings(nd))[i] == r.datum
    ensures r.Raised? ==>
      exists i :: FirstBad(AllHoldings(nd), i, IndexError) && FirstMet(AllHoldings(nd))[i] == r.datum
    ensures r.Rejected? ==> HeightsIn(nd, r.datum) != [] && Judge(HeightsIn(nd, r.datum)) == Wrong
    ensures r.Raised? ==> HeightsIn(nd, r.datum) != [] && Judge(HeightsIn(nd, r.datum)) == IndexError
    ensures !r.Accepted? ==> exists i, k ::
      0 <= i < |nd| && 0 <= k < |nd[i].data| && nd[i].data[k].datum == r.datum
      && forall j, l :: 0 <= j < |nd| && 0 <= l < |nd[j].data| && (j < i || (j == i && l < k)) ==>
        nd[j].data[l].datum != r.datum && IsRegular(HeightsIn(nd, nd[j].data[l].datum))
  {
    hide Judge, Heights, FirstMet, AllHoldings, FirstOverrun;
    CheckRaisesExactly(nd);
    AcceptsByPosition(nd);
    var keys, lists := Collect(nd);
    ghost var met := AllHoldings(nd);
    for i := 0 to |keys|
      invariant forall j :: 0 <= j < i ==> FineFor(met, keys[j])
    {
      var d := keys[i];
      MetMeansHeights(met, d);
      var v := Judge(lists[d]);
      if v.Wrong? {
        assert FirstBad(met, i, Wrong);
        ghost var j, l := FirstBadIsFirst(nd, i, Wrong);
        return Rejected(d);
      } else if v.IndexError? {
        assert FirstBad(met, i, IndexError);
        ghost var j, l := FirstBadIsFirst(nd, i, IndexError);
        return Raised(d);
      }
    }
    return Accepted;
  }

  /** The dictionary of height lists, with its keys in insertion order, for what was met so far. */
  ghost predicate Collected(met: seq<Holding>, keys: seq<string>, lists: map<string, seq<int>>) {
    && keys == FirstMet(met)
    && (forall d :: d in lists <==> d in keys)
    && forall d :: d in lists ==> lists[d] == Heights(met, d)
  }

  method Note(ghost met: seq<Holding>, x: Holding, keys: seq<string>, lists: map<string, seq<int>>)
    returns (keys': seq<string>, lists': map<string, seq<int>>)
    requires Collected(met, keys, lists)
    ensures Collected(met + [x], keys', lists')
  {
    keys', lists' := keys, lists;
    assert (met + [x])[..|met|] == met;
    MetMeansHeights(met, x.datum);
    if x.datum !in lists {
      lists' := lists[x.datum := [x.height]];
      keys' := keys + [x.datum];
    } else {
      lists' := lists[x.datum := lists[x.datum] + [x.height]];
    }
  }

  /** The inner loop, over the data of one node. */
  method CollectData(ghost met: seq<Holding>, data: seq<Holding>, keys: seq<string>, lists: map<string, seq<int>>)
    returns (keys': seq<string>, lists': map<string, seq<int>>)
    requires Collected(met, keys, lists)
    ensures Collected(met + data, keys', lists')
  {
    hide Collected;
    keys', lists' := keys, lists;
    assert met + data[..0] == met;
    for k := 0 to |data|
      invariant Collected(met + data[..k], keys', lists')
    {
      assert met + data[..k + 1] == met + data[..k] + [data[k]];
      keys', lists' := Note(met + data[..k], data[k], keys', lists');
    }
    assert data[..|data|] == data;
  }

  method Collect(nd: NodeData) returns (keys: seq<string>, lists: map<string, seq<int>>)
    ensures Collected(AllHoldings(nd), keys, lists)
  {
    keys, lists := [], map[];
    assert Collected(AllHoldings(nd[..0]), keys, lists);
    hide Collected;
    for i := 0 to |nd|
      invariant Collected(AllHoldings(nd[..i]), keys, lists)
    {
      assert nd[..i + 1][..i] == nd[..i];
      keys, lists := CollectData(AllHoldings(nd[..i]), nd[i].data, keys, lists);
    }
    assert nd[..|nd|] == nd;
  }

  // ----- counting -------------------------------------------------------------------------

  /** How many heights are at most `v`. */
  ghost function CountLe(s: seq<int>, v: int): nat {
    if s == [] then 0 else (if s[0] <= v then 1 else 0) + CountLe(s[1..], v)
  }

  lemma {:induction false} CountStep(s: seq<int>, v: int)
    ensures CountLe(s, v) == CountLe(s, v - 1) + multiset(s)[v]
  {
    if s != [] {
      CountStep(s[1..], v);
      assert s == [s[0]] + s[1..];
    }
  }

  lemma {:induction false} CountNone(s: seq<int>, v: int)
    requires forall i :: 0 <= i < |s| ==> s[i] > v
    ensures CountLe(s, v) == 0
  {
    if s != [] {
      CountNone(s[1..], v);
    }
  }

  ghost predicate Ascending(s: seq<int>) {
    forall i, j :: 0 <= i < j < |s| ==> s[i] <= s[j]
  }

  /** In a sorted list the element at an index is at most `v` when the count of such elements is larger. */
  lemma {:induction false} IndexByCount(s: seq<int>, i: nat, v: int)
    requires Ascending(s) && i < |s|
    ensures s[i] <= v <==> i < CountLe(s, v)
  {
    if s[0] > v {
      CountNone(s, v);
    } else if i > 0 {
      IndexByCount(s[1..], i - 1, v);
    }
  }

  lemma {:induction false} InsertKeepsOrder(x: int, s: seq<int>)
    requires Ascending(s)
    ensures Ascending(Insert(x, s))
    ensures Insert(x, s)[0] == if s == [] || x <= s[0] then x else s[0]
  {
    if s != [] && x > s[0] {
      InsertKeepsOrder(x, s[1..]);
    }
  }

  lemma {:induction false} InsertKeepsElements(x: int, s: seq<int>)
    ensures multiset(Insert(x, s)) == multiset{x} + multiset(s)
  {
    if s != [] && x > s[0] {
      InsertKeepsElements(x, s[1..]);
      assert s == [s[0]] + s[1..];
    }
  }

  lemma {:induction false} InsertCount(x: int, s: seq<int>, v: int)
    ensures CountLe(Insert(x, s), v) == (if x <= v then 1 else 0) + CountLe(s, v)
  {
    if s != [] && x > s[0] {
      InsertCount(x, s[1..], v);
      assert Insert(x, s)[1..] == Insert(x, s[1..]);
    } else {
      assert Insert(x, s)[1..] == s;
    }
  }

  lemma {:induction false} SortedIsSorted(s: seq<int>)
    ensures Ascending(Sorted(s)) && multiset(Sorted(s)) == multiset(s) && |Sorted(s)| == |s|
  {
    if s != [] {
      SortedIsSorted(s[1..]);
      InsertKeepsOrder(s[0], Sorted(s[1..]));
      InsertKeepsElements(s[0], Sorted(s[1..]));
      assert s == [s[0]] + s[1..];
    }
    assert |multiset(Sorted(s))| == |multiset(s)|;
  }

  lemma {:induction false} SortedCount(s: seq<int>, v: int)
    ensures CountLe(Sorted(s), v) == CountLe(s, v)
  {
    if s != [] {
      SortedCount(s[1..], v);
      InsertCount(s[0], Sorted(s[1..]), v);
    }
  }

  /** Everything the test needs to know of the sorted list, in terms of the list itself. */
  lemma SortedFacts(heights: seq<int>)
    requires heights != []
    ensures var s := Sorted(heights);
      && |s| == |heights|
      && (forall h :: h in heights <==> h in s)
      && (forall h :: h in heights ==> s[0] <= h <= s[|s| - 1])
      && forall i, v :: 0 <= i < |s| ==> (s[i] <= v <==> i < CountLe(heights, v))
  {
    hide Sorted, CountLe;
    SortedIsSorted(heights);
    var s := Sorted(heights);
    forall h ensures h in heights <==> h in s {
      assert h in multiset(s) <==> h in multiset(heights);
    }
    forall i, v | 0 <= i < |s| ensures s[i] <= v <==> i < CountLe(heights, v) {
      SortedCount(heights, v);
      IndexByCount(s, i, v);
    }
  }

  /** Lowest height `lo`, highest at most `1 - lo`, and exactly `1 - lo` heights that are not positive. */
  ghost predicate Regular(s: seq<int>, lo: int) {
    && lo <= 0 && lo in s && 0 in s
    && (forall h :: h in s ==> lo <= h <= 1 - lo)
    && CountLe(s, 0) == 1 - lo
    && ((exists h :: h in s && h > 0) ==> 1 in s)
  }

  /** What the two index tests of the source really test: counts, not repetitions or gaps. */
  lemma JudgeExact(heights: seq<int>)
    requires heights != []
    ensures Judge(heights) == Fine <==> exists lo :: Regular(heights, lo)
  {
    if Judge(heights) == Fine {
      FineIsRegular(heights);
    }
    if lo :| Regular(heights, lo) {
      RegularIsFine(heights, lo);
    }
  }

  lemma FineIsRegular(heights: seq<int>)
    requires heights != [] && Judge(heights) == Fine
    ensures Regular(heights, Sorted(heights)[0])
  {
    SortedFacts(heights);
    var s := Sorted(heights);
    var k := Abs(s[0]);
    assert s[k] == 0 && s[k] in s && s[0] in s;
    assert s[k] <= 0 && k < CountLe(heights, 0);
    CountAtMost(heights, 0);
    if k + 1 < |s| {
      assert s[k + 1] == 1 && s[k + 1] in s && !(s[k + 1] <= 0);
    } else {
      assert s[|s| - 1] == 0;
    }
  }

  lemma RegularIsFine(heights: seq<int>, lo: int)
    requires heights != [] && Regular(heights, lo)
    ensures Judge(heights) == Fine
  {
    SortedFacts(heights);
    var s := Sorted(heights);
    var k := -lo;
    assert s[0] in s && s[|s| - 1] in s;
    CountAtMost(heights, 0);
    assert s[0] == lo && s[k] <= 0;
    var z :| 0 <= z < |s| && s[z] == 0;
    assert s[z] <= 0 && z <= k;
    SortedIsSorted(heights);
    if k + 1 < |s| {
      assert !(s[k + 1] <= 0) && s[k + 1] in s;
      var o :| 0 <= o < |s| && s[o] == 1;
      assert !(s[o] <= 0) && k + 1 <= o;
    }
  }

  /** The index tests reach past the end of the list: its lowest height is deeper than the list is long. */
  ghost predicate Overruns(s: seq<int>) {
    exists lo, hi :: Spans(s, lo, hi) && hi <= Abs(lo) + 1 && |s| <= Abs(lo)
  }

  ghost predicate Spans(s: seq<int>, lo: int, hi: int) {
    lo in s && hi in s && forall h :: h in s ==> lo <= h <= hi
  }

  /** When the test raises, by the least and the greatest height and the length of the unsorted list. */
  lemma RaisesExactly(s: seq<int>, lo: int, hi: int)
    requires Spans(s, lo, hi)
    ensures Judge(s) == IndexError <==> hi <= Abs(lo) + 1 && |s| <= Abs(lo)
    ensures Judge(s) == IndexError <==> Overruns(s)
  {
    SortedFacts(s);
    var t := Sorted(s);
    assert t[0] in t && t[|t| - 1] in t;
  }

  lemma HasSpan(s: seq<int>) returns (lo: int, hi: int)
    requires s != []
    ensures Spans(s, lo, hi)
  {
    SortedFacts(s);
    var t := Sorted(s);
    assert t[0] in t && t[|t| - 1] in t;
    lo, hi := t[0], t[|t| - 1];
  }

  /** A datum with one holder raises unless it is held at 0. */
  lemma LoneHeightRaises(h: int)
    ensures Judge([h]) == IndexError <==> h != 0
  {
    RaisesExactly([h], h, h);
  }

  /** Datum `i` overruns, and each datum met before it passes. */
  ghost predicate FirstOverrun(met: seq<Holding>, i: int) {
    && 0 <= i < |FirstMet(met)| && Overruns(Heights(met, FirstMet(met)[i]))
    && forall j :: 0 <= j < i ==> IsRegular(Heights(met, FirstMet(met)[j]))
  }

  ghost predicate IsRegular(s: seq<int>) {
    exists lo :: Regular(s, lo)
  }

  lemma FirstOverrunIsBad(met: seq<Holding>, i: int)
    ensures FirstBad(met, i, IndexError) <==> FirstOverrun(met, i)
  {
    hide Judge, Regular, Overruns, Heights, FirstMet;
    if 0 <= i < |FirstMet(met)| {
      forall j | 0 <= j <= i ensures Heights(met, FirstMet(met)[j]) != [] {
        MetMeansHeights(met, FirstMet(met)[j]);
      }
      var lo, hi := HasSpan(Heights(met, FirstMet(met)[i]));
      RaisesExactly(Heights(met, FirstMet(met)[i]), lo, hi);
      forall j | 0 <= j < i ensures FineFor(met, FirstMet(met)[j]) <==> IsRegular(Heights(met, FirstMet(met)[j])) {
        JudgeExact(Heights(met, FirstMet(met)[j]));
      }
    }
  }

  // ----- first, position by position ------------------------------------------------------

  lemma {:induction false} MetSomewhere(met: seq<Holding>, d: string)
    ensures d in FirstMet(met) <==> exists p :: 0 <= p < |met| && met[p].datum == d
  {
    if met != [] {
      var front := met[..|met| - 1];
      MetSomewhere(front, d);
      if p :| 0 <= p < |front| && front[p].datum == d {
        assert met[p].datum == d;
      }
      if p :| 0 <= p < |met| && met[p].datum == d && p < |front| {
        assert front[p].datum == d;
      }
    }
  }

  /** Of two keys the earlier one is met before the later one is met for the first time. */
  lemma {:induction false} FirstMetOrder(met: seq<Holding>, x: nat, y: nat) returns (p: nat)
    requires x < y < |FirstMet(met)|
    ensures p < |met| && met[p].datum == FirstMet(met)[x]
    ensures forall q :: 0 <= q <= p ==> met[q].datum != FirstMet(met)[y]
  {
    var front := met[..|met| - 1];
    if y < |FirstMet(front)| {
      p := FirstMetOrder(front, x, y);
      assert forall q :: 0 <= q <= p ==> met[q] == front[q];
    } else {
      MetSomewhere(front, FirstMet(front)[x]);
      MetSomewhere(front, FirstMet(met)[y]);
      var o :| 0 <= o < |front| && front[o].datum == FirstMet(front)[x];
      p := o;
      assert forall q :: 0 <= q <= p ==> met[q] == front[q];
    }
  }

  /** Where holding `k` of entry `i` is among all holdings. */
  lemma {:induction false} PositionOf(nd: NodeData, i: nat, k: nat)
    requires i < |nd| && k < |nd[i].data|
    ensures |AllHoldings(nd[..i])| + k < |AllHoldings(nd)|
    ensures AllHoldings(nd)[|AllHoldings(nd[..i])| + k] == nd[i].data[k]
  {
    var front := nd[..|nd| - 1];
    if i < |front| {
      PositionOf(front, i, k);
      assert front[..i] == nd[..i];
    }
  }

  lemma {:induction false} EntryAt(nd: NodeData, p: nat) returns (i: nat, k: nat)
    requires p < |AllHoldings(nd)|
    ensures i < |nd| && k < |nd[i].data| && p == |AllHoldings(nd[..i])| + k
  {
    var front := nd[..|nd| - 1];
    if p < |AllHoldings(front)| {
      i, k := EntryAt(front, p);
      assert front[..i] == nd[..i];
    } else {
      i, k := |nd| - 1, p - |AllHoldings(front)|;
    }
  }

  /** Later entries start later. */
  lemma {:induction false} EntriesInOrder(nd: NodeData, j: nat, i: nat)
    requires j < i <= |nd|
    ensures |AllHoldings(nd[..j])| + |nd[j].data| <= |AllHoldings(nd[..i])|
    decreases i
  {
    assert nd[..i][..i - 1] == nd[..i - 1];
    if j < i - 1 {
      EntriesInOrder(nd, j, i - 1);
    }
  }

  lemma FirstPosition(met: seq<Holding>, d: string) returns (p: nat)
    requires d in FirstMet(met)
    ensures p < |met| && met[p].datum == d && forall q :: 0 <= q < p ==> met[q].datum != d
  {
    MetSomewhere(met, d);
    p := 0;
    while met[p].datum != d
      invariant p < |met| && forall q :: 0 <= q < p ==> met[q].datum != d
      invariant exists r :: p <= r < |met| && met[r].datum == d
      decreases |met| - p
    {
      p := p + 1;
    }
  }

  /** What is met before a key is met for the first time is an earlier key. */
  lemma KeysInOrder(met: seq<Holding>, x: nat, y: nat, p: nat, q: nat)
    requires x < |FirstMet(met)| && y < |FirstMet(met)| && q < p < |met|
    requires met[p].datum == FirstMet(met)[x] && forall r :: 0 <= r < p ==> met[r].datum != FirstMet(met)[x]
    requires met[q].datum == FirstMet(met)[y]
    ensures y < x
  {
    hide FirstMet;
    if x < y {
      var o := FirstMetOrder(met, x, y);
    }
  }

  /** Whatever is met before the first bad datum is met passes. */
  lemma EarlierIsFine(met: seq<Holding>, x: nat, v: Verdict, p: nat, q: nat)
    requires FirstBad(met, x, v) && q < p < |met| && met[p].datum == FirstMet(met)[x]
    requires forall r :: 0 <= r < p ==> met[r].datum != FirstMet(met)[x]
    ensures IsRegular(Heights(met, met[q].datum))
  {
    hide Judge, Heights, FirstMet, Regular;
    var e := met[q].datum;
    MetSomewhere(met, e);
    var y: nat :| y < |FirstMet(met)| && FirstMet(met)[y] == e;
    KeysInOrder(met, x, y, p, q);
    JudgeExact(Heights(met, e));
  }

  lemma FineIsMetRegular(met: seq<Holding>, d: string)
    requires d in FirstMet(met)
    ensures FineFor(met, d) <==> IsRegular(Heights(met, d))
  {
    MetMeansHeights(met, d);
    hide Judge, Heights, FirstMet, Regular;
    JudgeExact(Heights(met, d));
  }

  lemma AcceptsByPosition(nd: NodeData)
    ensures Accepts(nd) <==>
      forall j, l :: 0 <= j < |nd| && 0 <= l < |nd[j].data| ==> IsRegular(HeightsIn(nd, nd[j].data[l].datum))
  {
    hide Judge, Heights, FirstMet, IsRegular, AllHoldings, FineFor;
    var met := AllHoldings(nd);
    if Accepts(nd) {
      forall j: nat, l: nat | j < |nd| && l < |nd[j].data| ensures IsRegular(HeightsIn(nd, nd[j].data[l].datum)) {
        PositionOf(nd, j, l);
        MetSomewhere(met, nd[j].data[l].datum);
        FineIsMetRegular(met, nd[j].data[l].datum);
      }
    }
    if forall j, l :: 0 <= j < |nd| && 0 <= l < |nd[j].data| ==> IsRegular(HeightsIn(nd, nd[j].data[l].datum)) {
      forall d | d in FirstMet(met) ensures FineFor(met, d) {
        var p := FirstPosition(met, d);
        var j, l := EntryAt(nd, p);
        PositionOf(nd, j, l);
        FineIsMetRegular(met, d);
      }
    }
  }

  /** The datum named by the answer, in the entries themselves. */
  lemma FirstBadIsFirst(nd: NodeData, x: int, v: Verdict) returns (i: nat, k: nat)
    requires FirstBad(AllHoldings(nd), x, v)
    ensures i < |nd| && k < |nd[i].data| && nd[i].data[k].datum == FirstMet(AllHoldings(nd))[x]
    ensures forall j, l :: 0 <= j < |nd| && 0 <= l < |nd[j].data| && (j < i || (j == i && l < k)) ==>
      nd[j].data[l].datum != nd[i].data[k].datum && IsRegular(HeightsIn(nd, nd[j].data[l].datum))
  {
    hide Judge, Heights, FirstMet, IsRegular, AllHoldings;
    var met := AllHoldings(nd);
    var p := FirstPosition(met, FirstMet(met)[x]);
    i, k := EntryAt(nd, p);
    PositionOf(nd, i, k);
    forall j: nat, l: nat | j < |nd| && l < |nd[j].data| && (j < i || (j == i && l < k))
      ensures nd[j].data[l].datum != nd[i].data[k].datum && IsRegular(HeightsIn(nd, nd[j].data[l].datum))
    {
      PositionOf(nd, j, l);
      if j < i {
        EntriesInOrder(nd, j, i);
      }
      EarlierIsFine(met, x, v, p, |AllHoldings(nd[..j])| + l);
    }
  }

  /** What the heights of a datum are, entry by entry and holding by holding. */
  lemma HeightsAre(nd: NodeData, n: string, data: seq<Holding>, x: Holding, d: string)
    ensures HeightsIn([], d) == []
    ensures HeightsIn(nd + [Entry(n, [])], d) == HeightsIn(nd, d)
    ensures HeightsIn(nd + [Entry(n, data + [x])], d)
      == HeightsIn(nd + [Entry(n, data)], d) + if x.datum == d then [x.height] else []
  {
    assert (nd + [Entry(n, [])])[..|nd|] == nd;
    assert AllHoldings(nd + [Entry(n, [])]) == AllHoldings(nd) + [] == AllHoldings(nd);
    assert (nd + [Entry(n, data)])[..|nd|] == nd;
    var longer := nd + [Entry(n, data + [x])];
    assert longer[..|longer| - 1] == nd;
    var met := AllHoldings(nd) + data;
    assert AllHoldings(longer) == met + [x];
    assert (met + [x])[..|met|] == met;
  }

  /** What a caller can test before the call: it raises exactly if some datum overruns before any is rejected. */
  lemma CheckRaisesExactly(nd: NodeData)
    ensures (exists i :: FirstBad(AllHoldings(nd), i, IndexError)) <==> exists i :: FirstOverrun(AllHoldings(nd), i)
  {
    forall i ensures FirstBad(AllHoldings(nd), i, IndexError) <==> FirstOverrun(AllHoldings(nd), i) {
      FirstOverrunIsBad(AllHoldings(nd), i);
    }
  }

  lemma {:induction false} CountAtMost(s: seq<int>, v: int)
    ensures CountLe(s, v) <= |s|
  {
    if s != [] {
      CountAtMost(s[1..], v);
    }
  }

  // ----- accepting and generating together ------------------------------------------------

  /** Heights `lo` to 0 exactly once each; above them only heights up to `1 - lo`, 1 among them. */
  ghost predicate Tidy(s: seq<int>, lo: int) {
    && lo <= 0
    && (forall h :: h in s ==> lo <= h <= 1 - lo)
    && (forall h :: lo <= h <= 0 ==> multiset(s)[h] == 1)
    && ((exists h :: h in s && h > 0) ==> 1 in s)
  }

  lemma {:induction false} CountClimbs(s: seq<int>, v: int, w: int)
    requires v <= w <= 0
    requires forall h :: v < h <= w ==> h in s
    ensures CountLe(s, w) - CountLe(s, v) >= w - v
    decreases w - v
  {
    if v < w {
      CountClimbs(s, v, w - 1);
      CountStep(s, w);
      assert w in s && w in multiset(s);
    }
  }

  lemma RegularWithoutGaps(s: seq<int>, lo: int)
    requires Regular(s, lo) && forall h :: lo <= h <= 0 ==> h in s
    ensures Tidy(s, lo)
  {
    assert forall i :: 0 <= i < |s| ==> s[i] in s;
    CountNone(s, lo - 1);
    forall h | lo <= h <= 0 ensures multiset(s)[h] == 1 {
      CountStep(s, h);
      assert h in s && h in multiset(s);
      CountClimbs(s, lo - 1, h - 1);
      CountClimbs(s, h, 0);
    }
  }

  lemma {:induction false} OnceEach(s: seq<int>, lo: int, v: int)
    requires lo - 1 <= v <= 0 && Tidy(s, lo)
    ensures CountLe(s, v) == v - lo + 1
    decreases v - lo + 1
  {
    if v == lo - 1 {
      assert forall i :: 0 <= i < |s| ==> s[i] in s;
      CountNone(s, v);
    } else {
      OnceEach(s, lo, v - 1);
      CountStep(s, v);
    }
  }

  lemma TidyIsRegular(s: seq<int>, lo: int)
    requires Tidy(s, lo)
    ensures Regular(s, lo)
  {
    OnceEach(s, lo, 0);
    assert multiset(s)[0] == 1 && multiset(s)[lo] == 1;
    assert 0 in multiset(s) && lo in multiset(s);
  }

  /** One height per node and datum. */
  ghost predicate SingleHeight(nd: NodeData) {
    forall n, d, g, h :: Holds(nd, n, d, g) && Holds(nd, n, d, h) ==> g == h
  }

  ghost function HeightsIn(nd: NodeData, d: string): seq<int> {
    Heights(AllHoldings(nd), d)
  }

  ghost predicate TidyFor(nd: NodeData, d: string) {
    exists lo :: Tidy(HeightsIn(nd, d), lo)
  }

  lemma HeightIsHeld(nd: NodeData, d: string, h: int)
    ensures h in HeightsIn(nd, d) <==> exists n :: Holds(nd, n, d, h)
  {
    HeightsMember(AllHoldings(nd), d, h);
    AllHoldingsMember(nd, Holding(d, h));
  }

  /** A served negative height has the next higher height above it, whichever way it is served. */
  lemma NextIsHeld(nd: NodeData, d: string, h: int)
    requires AllServed(nd) && h < 0 && h in HeightsIn(nd, d)
    ensures h + 1 in HeightsIn(nd, d)
  {
    HeightIsHeld(nd, d, h);
    HeightIsHeld(nd, d, h + 1);
    var n :| Holds(nd, n, d, h);
    assert Asks(nd, n, d, h);
    if OthersHold(nd, n, d, -h) {
      var m :| m != n && Holds(nd, m, d, -h);
      assert Asks(nd, m, d, -h);
      assert Source(nd, m, d, -h) == h + 1;
    }
  }

  lemma {:induction false} ClimbsToZero(nd: NodeData, d: string, lo: int, h: int)
    requires AllServed(nd) && lo <= h <= 0 && lo in HeightsIn(nd, d)
    ensures h in HeightsIn(nd, d)
    decreases h - lo
  {
    if lo < h {
      ClimbsToZero(nd, d, lo, h - 1);
      NextIsHeld(nd, d, h - 1);
    }
  }

  lemma TidyIsServed(nd: NodeData, n: string, d: string, h: int)
    requires SingleHeight(nd) && TidyFor(nd, d) && Asks(nd, n, d, h)
    ensures OthersHold(nd, n, d, Source(nd, n, d, h))
  {
    var lo :| Tidy(HeightsIn(nd, d), lo);
    HeightIsHeld(nd, d, h);
    var p := Source(nd, n, d, h);
    if !(h < 0 && OthersHold(nd, n, d, -h)) {
      assert lo <= p <= 0 && p != h;
      assert p in multiset(HeightsIn(nd, d));
      HeightIsHeld(nd, d, p);
    }
  }

  /**
   * `phase_2` succeeds exactly when the heights of every datum are tidy: the check alone and the
   * generation alone each let other inputs through.
   */
  lemma PipelineExact(nd: NodeData)
    requires SingleHeight(nd)
    ensures Accepts(nd) && AllServed(nd) <==> forall d :: HeightsIn(nd, d) != [] ==> TidyFor(nd, d)
  {
    if Accepts(nd) && AllServed(nd) {
      forall d | HeightsIn(nd, d) != [] ensures TidyFor(nd, d) {
        MetMeansHeights(AllHoldings(nd), d);
        JudgeExact(HeightsIn(nd, d));
        var lo :| Regular(HeightsIn(nd, d), lo);
        forall h | lo <= h <= 0 ensures h in HeightsIn(nd, d) {
          ClimbsToZero(nd, d, lo, h);
        }
        RegularWithoutGaps(HeightsIn(nd, d), lo);
      }
    }
    if forall d :: HeightsIn(nd, d) != [] ==> TidyFor(nd, d) {
      forall d | d in FirstMet(AllHoldings(nd)) ensures FineFor(AllHoldings(nd), d) {
        MetMeansHeights(AllHoldings(nd), d);
        assert TidyFor(nd, d);
        var lo :| Tidy(HeightsIn(nd, d), lo);
        TidyIsRegular(HeightsIn(nd, d), lo);
        JudgeExact(HeightsIn(nd, d));
      }
      forall n, d, h | Asks(nd, n, d, h) ensures OthersHold(nd, n, d, Source(nd, n, d, h)) {
        HeightIsHeld(nd, d, h);
        TidyIsServed(nd, n, d, h);
      }
    }
  }

  /** Heights `lo` to `hi`, once each, with `hi` at most one more than the depth of `lo`. */
  ghost predicate Contiguous(s: seq<int>, lo: int, hi: int) {
    && lo <= 0 <= hi <= 1 - lo
    && (forall h :: h in s <==> lo <= h <= hi)
    && forall h :: lo <= h <= hi ==> multiset(s)[h] == 1
  }

  lemma ZeroAndOne(s: seq<int>)
    requires s == [0, 1] || s == [1, 0]
    ensures Contiguous(s, 0, 1)
  {
  }

  /** The inputs the configurator is written for always pass. */
  lemma ContiguousHeightsSucceed(nd: NodeData)
    requires SingleHeight(nd)
    requires forall d :: HeightsIn(nd, d) != [] ==> exists lo, hi :: Contiguous(HeightsIn(nd, d), lo, hi)
    ensures Accepts(nd) && AllServed(nd)
  {
    forall d | HeightsIn(nd, d) != [] ensures TidyFor(nd, d) {
      var lo, hi :| Contiguous(HeightsIn(nd, d), lo, hi);
      assert Tidy(HeightsIn(nd, d), lo);
    }
    PipelineExact(nd);
  }

  /** Its holders form one chain: no two share a height, and the one of lower rank comes first. */
  lemma ContiguousHoldersChain(nd: NodeData, dep: NodeDep, d: string, n: string, h: int, m: string, g: int)
    requires AllServed(nd) && Fits(nd, dep) && n != m && Holds(nd, n, d, h) && Holds(nd, m, d, g)
    requires exists lo, hi :: Contiguous(HeightsIn(nd, d), lo, hi)
    ensures h != g && if Rank(g) < Rank(h) then Reach(dep, n, m) else Reach(dep, m, n)
  {
    var lo, hi :| Contiguous(HeightsIn(nd, d), lo, hi);
    var i, k :| HoldsAt(nd, i, k, n, d, h);
    var j, l :| HoldsAt(nd, j, l, m, d, g);
    HeightIsHeld(nd, d, h);
    if h == g {
      if i < j {
        TwoHoldersCount(nd, i, j, n, m, d, h);
      } else {
        TwoHoldersCount(nd, j, i, m, n, d, h);
      }
    }
    if Rank(g) < Rank(h) {
      DatumChain(nd, dep, d, n, h, m, g);
    } else {
      DatumChain(nd, dep, d, m, g, n, h);
    }
  }

  // ----- the comment above the check ------------------------------------------------------

  /** The comment's two promises: no non-negative height twice, and no gap between neighbours. */
  ghost predicate AsCommented(s: seq<int>) {
    && (forall h :: h >= 0 ==> multiset(s)[h] <= 1)
    && forall g, h :: g in s && h in s && g < h ==> g + 1 in s
  }

  lemma SortedTriple(a: int, b: int, c: int)
    requires a <= b <= c
    ensures Sorted([a, b, c]) == [a, b, c]
  {
    assert [a, b, c][1..] == [b, c] && [b, c][1..] == [c] && [c][1..] == [];
    assert Sorted([c]) == [c];
    assert Sorted([b, c]) == [b, c];
  }

  /** Accepted, although 0 is repeated and -1 is missing. */
  lemma AcceptsAgainstComment()
    ensures Judge([-2, 0, 0]) == Fine && !AsCommented([-2, 0, 0])
  {
    SortedTriple(-2, 0, 0);
    assert multiset([-2, 0, 0])[0] == 2;
  }

  /** Rejected, although only a negative height is repeated and nothing is missing. */
  lemma RejectsAgainstComment()
    ensures Judge([-1, -1, 0]) == Wrong && AsCommented([-1, -1, 0])
  {
    SortedTriple(-1, -1, 0);
    assert multiset([-1, -1, 0]) == multiset{-1, -1, 0};
  }

  /**
   * The check and its comment agree exactly on the contiguous lists: an accepted list keeps the two
   * promises, and a list that keeps them is accepted, if and only if it runs from some height to some other.
   */
  lemma CommentExact(s: seq<int>)
    requires s != []
    ensures Judge(s) == Fine && AsCommented(s) <==> exists lo, hi :: Contiguous(s, lo, hi)
  {
    hide Judge, Contiguous, AsCommented;
    JudgeExact(s);
    if Judge(s) == Fine && AsCommented(s) {
      var lo :| Regular(s, lo);
      SortedFacts(s);
      RegularIsContiguous(s, lo, Sorted(s)[|s| - 1]);
    }
    if lo, hi :| Contiguous(s, lo, hi) {
      ContiguousIsCommented(s, lo, hi);
      TidyIsRegular(s, lo);
    }
  }

  lemma RegularIsContiguous(s: seq<int>, lo: int, hi: int)
    requires Regular(s, lo) && AsCommented(s) && hi in s && forall h :: h in s ==> h <= hi
    ensures Contiguous(s, lo, hi)
  {
    forall h | lo <= h <= hi ensures h in s {
      NoGap(s, lo, h, hi);
    }
    RegularWithoutGaps(s, lo);
    assert forall h :: h in s ==> h in multiset(s);
    forall h | lo <= h <= hi ensures multiset(s)[h] == 1 {
      assert h in s;
    }
  }

  lemma ContiguousIsCommented(s: seq<int>, lo: int, hi: int)
    requires Contiguous(s, lo, hi)
    ensures Tidy(s, lo) && AsCommented(s)
  {
    forall h | h >= 0 ensures multiset(s)[h] <= 1 {
      assert h in multiset(s) ==> h in s;
    }
  }

  /**
   * When the comment does describe what passed: after `phase_2` accepted and generated, its two
   * promises hold of a datum exactly when the heights above 0 are 1, 2, ... once each.
   */
  lemma TidyAsCommented(s: seq<int>, lo: int)
    requires Tidy(s, lo)
    ensures AsCommented(s) <==> forall h :: h in s && h > 0 ==> multiset(s)[h] == 1 && (h > 1 ==> h - 1 in s)
  {
    assert multiset(s)[0] == 1;
    assert forall h :: h in s <==> h in multiset(s);
    if AsCommented(s) {
      forall h | h in s && h > 0 ensures multiset(s)[h] == 1 && (h > 1 ==> h - 1 in s) {
        assert multiset(s)[h] <= 1;
        if h > 1 {
          NoGap(s, 0, h - 1, h);
        }
      }
    }
    if forall h :: h in s && h > 0 ==> multiset(s)[h] == 1 && (h > 1 ==> h - 1 in s) {
      forall g, h | g in s && h in s && g < h ensures g + 1 in s {
        if g >= 0 {
          StepsDown(s, g + 1, h);
        } else {
          assert multiset(s)[g + 1] == 1;
        }
      }
    }
  }

  lemma {:induction false} NoGap(s: seq<int>, lo: int, g: int, h: int)
    requires AsCommented(s) && lo in s && h in s && lo <= g <= h
    ensures g in s
    decreases g - lo
  {
    if lo < g {
      NoGap(s, lo, g - 1, h);
    }
  }

  lemma {:induction false} StepsDown(s: seq<int>, g: int, h: int)
    requires 1 <= g <= h && h in s
    requires forall h :: h in s && h > 1 ==> h - 1 in s
    ensures g in s
    decreases h - g
  {
    if g < h {
      StepsDown(s, g, h - 1);
    }
  }

  // ----- from the check to confluence -----------------------------------------------------

  lemma {:induction false} HeightsConcat(a: seq<Holding>, b: seq<Holding>, d: string)
    ensures Heights(a + b, d) == Heights(a, d) + Heights(b, d)
  {
    if b == [] {
      assert a + b == a;
    } else {
      HeightsConcat(a, b[..|b| - 1], d);
      assert (a + b)[..|a + b| - 1] == a + b[..|b| - 1];
    }
  }

  lemma HeightsSplit(nd: NodeData, d: string)
    requires nd != []
    ensures HeightsIn(nd, d) == HeightsIn(nd[..|nd| - 1], d) + Heights(nd[|nd| - 1].data, d)
  {
    HeightsConcat(AllHoldings(nd[..|nd| - 1]), nd[|nd| - 1].data, d);
  }

  lemma {:induction false} TwoHoldersCount(nd: NodeData, i: nat, j: nat, n: string, m: string, d: string, h: int)
    requires i < j < |nd| && (exists k :: HoldsAt(nd, i, k, n, d, h)) && (exists l :: HoldsAt(nd, j, l, m, d, h))
    ensures multiset(HeightsIn(nd, d))[h] >= 2
  {
    hide HeightsIn, Heights;
    var init := nd[..|nd| - 1];
    HeightsSplit(nd, d);
    var k :| HoldsAt(nd, i, k, n, d, h);
    assert HoldsAt(init, i, k, n, d, h);
    var l :| HoldsAt(nd, j, l, m, d, h);
    if j < |nd| - 1 {
      assert HoldsAt(init, j, l, m, d, h);
      TwoHoldersCount(init, i, j, n, m, d, h);
    } else {
      assert Holds(init, n, d, h);
      HeightIsHeld(init, d, h);
      HeightsMember(nd[j].data, d, h);
      OneInEach(HeightsIn(init, d), Heights(nd[j].data, d), h);
    }
  }

  lemma OneInEach(a: seq<int>, b: seq<int>, h: int)
    requires h in a && h in b
    ensures multiset(a + b)[h] >= 2
  {
    assert h in multiset(a) && h in multiset(b);
  }

  /** After `phase_2`, only a repeated positive height can give one height two writers. */
  lemma AcceptedHasOneWriter(nd: NodeData)
    requires SingleHeight(nd) && Accepts(nd) && AllServed(nd)
    requires forall d, h :: h > 0 ==> multiset(HeightsIn(nd, d))[h] <= 1
    ensures OneWriterPerHeight(nd)
  {
    PipelineExact(nd);
    forall n, m ensures !CoWriters(nd, n, m) {
      if CoWriters(nd, n, m) {
        var d, h :| h >= 0 && Holds(nd, n, d, h) && Holds(nd, m, d, h);
        var i, k :| HoldsAt(nd, i, k, n, d, h);
        var j, l :| HoldsAt(nd, j, l, m, d, h);
        HeightIsHeld(nd, d, h);
        assert TidyFor(nd, d);
        if i < j {
          TwoHoldersCount(nd, i, j, n, m, d, h);
        } else {
          TwoHoldersCount(nd, j, i, m, n, d, h);
        }
      }
    }
  }

  /** End to end: what the configurator accepts may run in any order its dependencies allow. */
  lemma AcceptedIsConfluent(nd: NodeData, dep: NodeDep, act: Behaviour, p: seq<string>, q: seq<string>, s: Data)
    requires SingleHeight(nd) && Accepts(nd) && AllServed(nd) && Fits(nd, dep) && WellBehaved(nd, act)
    requires forall d, h :: h > 0 ==> multiset(HeightsIn(nd, d))[h] <= 1
    requires IsSchedule(nd, p) && IsSchedule(nd, q) && Respects(dep, p) && Respects(dep, q)
    ensures Confluence.Run(act, p, s) == Confluence.Run(act, q, s)
  {
    AcceptedHasOneWriter(nd);
    SchedulesAgree(nd, dep, act, p, q, s);
  }
}
