/**
 * The objects of `task.cpp` and `scheduler.cpp`: how `set_precede` builds the graph and its counters,
 * and what the seeding loop and one `post_run_()` do when nothing interrupts them.
 */
module Scheduling {
  class Task {
    var precedes: seq<Task>
    var successors: seq<Task>
    var condition: int

    constructor ()
      ensures precedes == [] && successors == [] && condition == 0
    {
      precedes, successors, condition := [], [], 0;
    }

    /** `this` will wait for `pre`; the two may be the same object, and calls may repeat. */
    method SetPrecede(pre: Task, ghost all: set<Task>)
      requires this in all && pre in all
      requires Linked(all)
      modifies this, pre
      ensures this != pre ==> successors == old(successors)
      ensures this != pre ==> pre.precedes == old(pre.precedes) && pre.condition == old(pre.condition)
      ensures precedes == old(precedes) + [pre] && condition == old(condition) + 1
      ensures pre.successors == old(pre.successors) + [this]
      ensures Linked(all)
    {
      hide LinkedFields;
      precedes := precedes + [pre];
      pre.successors := pre.successors + [this];
      condition := condition + 1;
      LinkedGrows(old(SuccessorsOf(all)), old(PrecedesOf(all)), old(ConditionsOf(all)), this, pre);
      assert SuccessorsOf(all) == old(SuccessorsOf(all))[pre := pre.successors];
      assert PrecedesOf(all) == old(PrecedesOf(all))[this := precedes];
      assert ConditionsOf(all) == old(ConditionsOf(all))[this := condition];
    }

    method SetPrecedeAll(pres: seq<Task>, ghost all: set<Task>)
      requires Linked(all) && this in all && forall p :: p in pres ==> p in all
      modifies all
      ensures precedes == old(precedes) + pres && condition == old(condition) + |pres|
      ensures forall t :: t in all && t != this ==> t.precedes == old(t.precedes) && t.condition == old(t.condition)
      ensures Linked(all)
    {
      hide LinkedFields;
      for i := 0 to |pres|
        invariant precedes == old(precedes) + pres[..i] && condition == old(condition) + i
        invariant forall t :: t in all && t != this ==> t.precedes == old(t.precedes) && t.condition == old(t.condition)
        invariant Linked(all)
      {
        SetPrecede(pres[i], all);
        assert pres[..i + 1] == pres[..i] + [pres[i]];
      }
      assert pres[..|pres|] == pres;
    }

    /**
     * `post_run_()` without interruption. Each successor loses one count per edge; submitted, once each, are
     * those whose counter goes from above zero to zero or below, in the order in which the loop meets the
     * edge (`at`) that takes the last count.
     */
    method PostRun(executor: Executor, scheduler: Scheduler) returns (ghost at: seq<nat>)
      modifies (set t | t in successors)`condition, executor`queue, scheduler`waitExecuted
      ensures forall t :: t in old(successors) ==> t.condition == old(t.condition) - multiset(old(successors))[t]
      ensures old(executor.queue) <= executor.queue
      ensures forall t :: t in executor.queue[|old(executor.queue)|..] ==> t in old(successors)
      ensures forall t :: t in old(successors) ==>
        multiset(executor.queue[|old(executor.queue)|..])[t] == if old(t.condition) > 0 >= t.condition then 1 else 0
      ensures |executor.queue| == |old(executor.queue)| + |at|
      ensures forall a :: 0 <= a < |at| ==>
        at[a] < |old(successors)| && executor.queue[|old(executor.queue)| + a] == old(successors)[at[a]]
      ensures forall a :: 0 <= a < |at| ==>
        old(successors[at[a]].condition) == multiset(old(successors)[..at[a] + 1])[old(successors)[at[a]]]
      ensures forall a, b :: 0 <= a < b < |at| ==> at[a] < at[b]
      ensures scheduler.waitExecuted == old(scheduler.waitExecuted) - 1
    {
      ghost var before := map t: Task | t in successors :: t.condition;
      ghost var added;
      added, at := InformSuccessors(executor, before);
      AllEdges(before, successors, added, at);
      assert executor.queue[|old(executor.queue)|..] == added;
      scheduler.waitExecuted := scheduler.waitExecuted - 1;
    }

    /** The loop. */
    method InformSuccessors(executor: Executor, ghost before: map<Task, int>)
      returns (ghost added: seq<Task>, ghost at: seq<nat>)
      requires before == map t: Task | t in successors :: t.condition
      modifies (set t | t in successors)`condition, executor`queue
      ensures forall t :: t in successors ==> t.condition == before[t] - Times(successors[..|successors|], t)
      ensures executor.queue == old(executor.queue) + added && Released(before, successors, |successors|, added, at)
    {
      hide Released, Times;
      added, at := [], [];
      NoEdgeYet(before, successors);
      for i := 0 to |successors|
        invariant forall t :: t in successors ==> t.condition == before[t] - Times(successors[..i], t)
        invariant executor.queue == old(executor.queue) + added && Released(before, successors, i, added, at)
      {
        var successor := successors[i];
        NextEdge(before, successors, i, added, at);
        successor.condition := successor.condition - 1;
        if successor.condition == 0 {
          executor.AddTask(successor);
          added := added + [successor];
          at := at + [i];
        }
      }
    }
  }

  ghost function Times(ts: seq<Task>, t: Task): nat {
    multiset(ts)[t]
  }

  /** What the first `i` edges have released, from counters that were `before`. */
  ghost predicate Released(before: map<Task, int>, succs: seq<Task>, i: nat, added: seq<Task>, at: seq<nat>)
    requires i <= |succs|
  {
    before.Keys == (set t: Task | t in succs) && Once(before, succs, i, added) && Marked(before, succs, i, added, at)
  }

  ghost predicate Once(before: map<Task, int>, succs: seq<Task>, i: nat, added: seq<Task>)
    requires i <= |succs| && before.Keys == set t: Task | t in succs
  {
    && (forall t :: t in added ==> t in succs)
    && forall t :: t in succs ==>
      Times(added, t) == if before[t] > 0 >= before[t] - Times(succs[..i], t) then 1 else 0
  }

  ghost predicate Marked(before: map<Task, int>, succs: seq<Task>, i: nat, added: seq<Task>, at: seq<nat>)
    requires i <= |succs| && before.Keys == set t: Task | t in succs
  {
    && |at| == |added| && (forall a, b :: 0 <= a < b < |at| ==> at[a] < at[b])
    && (forall a :: 0 <= a < |at| ==> at[a] < i && added[a] == succs[at[a]])
    && forall a :: 0 <= a < |at| ==> before[succs[at[a]]] == Times(succs[..at[a] + 1], succs[at[a]])
  }

  lemma NoEdgeYet(before: map<Task, int>, succs: seq<Task>)
    requires before.Keys == set t: Task | t in succs
    ensures Released(before, succs, 0, [], []) && forall t :: Times(succs[..0], t) == 0
  {
  }

  lemma OneMoreTime(ts: seq<Task>, u: Task)
    ensures forall t :: Times(ts + [u], t) == Times(ts, t) + if t == u then 1 else 0
  {
  }

  lemma NextEdge(before: map<Task, int>, succs: seq<Task>, i: nat, added: seq<Task>, at: seq<nat>)
    requires i < |succs| && Released(before, succs, i, added, at)
    ensures succs[i] in before
    ensures forall t :: Times(succs[..i + 1], t) == Times(succs[..i], t) + if t == succs[i] then 1 else 0
    ensures if before[succs[i]] == Times(succs[..i + 1], succs[i])
            then Released(before, succs, i + 1, added + [succs[i]], at + [i])
            else Released(before, succs, i + 1, added, at)
  {
    assert succs[..i + 1] == succs[..i] + [succs[i]];
    OneMoreTime(succs[..i], succs[i]);
    NextOnce(before, succs, i, added);
    NextMarked(before, succs, i, added, at);
    hide Times, Once, Marked;
  }

  lemma NextOnce(before: map<Task, int>, succs: seq<Task>, i: nat, added: seq<Task>)
    requires i < |succs| && before.Keys == (set t: Task | t in succs) && Once(before, succs, i, added)
    ensures if before[succs[i]] == Times(succs[..i + 1], succs[i]) then Once(before, succs, i + 1, added + [succs[i]])
            else Once(before, succs, i + 1, added)
  {
    assert succs[..i + 1] == succs[..i] + [succs[i]];
    OneMoreTime(succs[..i], succs[i]);
    OneMoreTime(added, succs[i]);
    hide Times;
  }

  lemma NextMarked(before: map<Task, int>, succs: seq<Task>, i: nat, added: seq<Task>, at: seq<nat>)
    requires i < |succs| && before.Keys == (set t: Task | t in succs) && Marked(before, succs, i, added, at)
    ensures Marked(before, succs, i + 1, added, at)
    ensures before[succs[i]] == Times(succs[..i + 1], succs[i]) ==>
      Marked(before, succs, i + 1, added + [succs[i]], at + [i])
  {
    hide Times;
  }

  lemma AllEdges(before: map<Task, int>, succs: seq<Task>, added: seq<Task>, at: seq<nat>)
    requires Released(before, succs, |succs|, added, at)
    ensures |at| == |added| && (forall t :: t in added ==> t in succs) && before.Keys == set t: Task | t in succs
    ensures forall t :: t in succs ==>
      multiset(added)[t] == if before[t] > 0 >= before[t] - multiset(succs)[t] then 1 else 0
    ensures forall t :: Times(succs[..|succs|], t) == multiset(succs)[t]
    ensures forall a, b :: 0 <= a < b < |at| ==> at[a] < at[b]
    ensures forall a :: 0 <= a < |at| ==> at[a] < |succs| && added[a] == succs[at[a]]
    ensures forall a :: 0 <= a < |at| ==> before[succs[at[a]]] == multiset(succs[..at[a] + 1])[succs[at[a]]]
  {
    assert succs[..|succs|] == succs;
  }

  /** The executor as `post_run_()` sees it: an unbounded queue of submitted tasks. */
  class Executor {
    var queue: seq<Task>

    method AddTask(t: Task)
      modifies this`queue
      ensures queue == old(queue) + [t]
    {
      queue := queue + [t];
    }
  }

  ghost function SuccessorsOf(all: set<Task>): map<Task, seq<Task>>
    reads all
  {
    map t | t in all :: t.successors
  }

  ghost function PrecedesOf(all: set<Task>): map<Task, seq<Task>>
    reads all
  {
    map t | t in all :: t.precedes
  }

  ghost function ConditionsOf(all: set<Task>): map<Task, int>
    reads all
  {
    map t | t in all :: t.condition
  }

  /**
   * What `set_precede` keeps for any set of tasks closed under it: each counter is the number of
   * precede edges, and both ends of an edge record it equally often.
   */
  ghost predicate Linked(all: set<Task>)
    reads all
  {
    LinkedFields(SuccessorsOf(all), PrecedesOf(all), ConditionsOf(all))
  }

  ghost predicate LinkedFields(succ: map<Task, seq<Task>>, prec: map<Task, seq<Task>>, cond: map<Task, int>) {
    && succ.Keys == prec.Keys == cond.Keys
    && (forall t :: t in cond ==> cond[t] == |prec[t]|)
    && (forall p, t :: p in succ && t in prec ==> multiset(succ[p])[t] == multiset(prec[t])[p])
    && (forall t, u :: t in succ && u in succ[t] ==> u in succ)
    && forall t, u :: t in prec && u in prec[t] ==> u in prec
  }

  lemma LinkedGrows(succ: map<Task, seq<Task>>, prec: map<Task, seq<Task>>, cond: map<Task, int>, t: Task, pre: Task)
    requires LinkedFields(succ, prec, cond) && t in succ && pre in succ
    ensures LinkedFields(succ[pre := succ[pre] + [t]], prec[t := prec[t] + [pre]], cond[t := cond[t] + 1])
  {
    var succ', prec' := succ[pre := succ[pre] + [t]], prec[t := prec[t] + [pre]];
    forall p, u | p in succ' && u in prec' ensures multiset(succ'[p])[u] == multiset(prec'[u])[p] {
      OneMoreCounts(succ[pre], t, u);
      OneMoreCounts(prec[t], pre, p);
    }
  }

  lemma OneMoreCounts(ts: seq<Task>, t: Task, u: Task)
    ensures multiset(ts + [t])[u] == multiset(ts)[u] + if t == u then 1 else 0
  {
  }

  class Scheduler {
    var tasks: seq<Task>
    var waitExecuted: int

    method AddTask(t: Task)
      modifies this`tasks
      ensures tasks == old(tasks) + [t]
    {
      tasks := tasks + [t];
    }

    /**
     * The seeding loop of `work_()` without interruption: submitted are the tasks whose counter is zero, in
     * the order in which they were added (`at`).
     */
    method Seed(executor: Executor) returns (ghost at: seq<nat>)
      modifies this`waitExecuted, executor`queue
      ensures waitExecuted == |tasks|
      ensures old(executor.queue) <= executor.queue && |executor.queue| == |old(executor.queue)| + |at|
      ensures forall a :: 0 <= a < |at| ==>
        at[a] < |tasks| && executor.queue[|old(executor.queue)| + a] == tasks[at[a]]
      ensures forall a, b :: 0 <= a < b < |at| ==> at[a] < at[b]
      ensures forall i :: 0 <= i < |tasks| ==> (i in at <==> tasks[i].condition == 0)
    {
      waitExecuted := |tasks|;
      at := [];
      for i := 0 to |tasks|
        invariant waitExecuted == |tasks|
        invariant old(executor.queue) <= executor.queue && |executor.queue| == |old(executor.queue)| + |at|
        invariant forall a :: 0 <= a < |at| ==>
          at[a] < i && executor.queue[|old(executor.queue)| + a] == tasks[at[a]]
        invariant forall a, b :: 0 <= a < b < |at| ==> at[a] < at[b]
        invariant forall j :: 0 <= j < i ==> (j in at <==> tasks[j].condition == 0)
      {
        if tasks[i].condition == 0 {
          executor.AddTask(tasks[i]);
          at := at + [i];
        }
      }
    }
  }
}

/** The numbers the transition system of `Execution` starts from, read off the objects. */
module SchedulingRefinement {
  import opened Graphs
  import opened Sums
  import opened Execution
  import opened Scheduling

  ghost function IndexOf(tasks: seq<Task>, t: Task): nat
    requires t in tasks
    ensures IndexOf(tasks, t) < |tasks| && tasks[IndexOf(tasks, t)] == t
  {
    var i :| 0 <= i < |tasks| && tasks[i] == t;
    i
  }

  /** The tasks of a scheduler as numbers, in the order they were added. */
  ghost function Ids(tasks: seq<Task>, ts: seq<Task>): seq<nat>
    requires forall t :: t in ts ==> t in tasks
  {
    seq(|ts|, i requires 0 <= i < |ts| => assert ts[i] in ts; IndexOf(tasks, ts[i]))
  }

  /** Every task that waits or is waited for was added, once. */
  ghost predicate Complete(tasks: seq<Task>)
    reads tasks
  {
    Distinct(tasks) && forall i, u :: 0 <= i < |tasks| && u in tasks[i].successors ==> u in tasks
  }

  ghost function SuccessorIds(tasks: seq<Task>, i: nat): seq<nat>
    requires Complete(tasks) && i < |tasks|
    reads tasks
  {
    Ids(tasks, tasks[i].successors)
  }

  ghost function ConfigOf(tasks: seq<Task>, atomicSeed: bool): Config
    requires Complete(tasks)
    reads tasks
  {
    Config(
      seq(|tasks|, i requires 0 <= i < |tasks| && Complete(tasks) reads tasks => SuccessorIds(tasks, i)),
      atomicSeed)
  }

  lemma {:induction false} CountIds(tasks: seq<Task>, ts: seq<Task>, t: nat, i: nat)
    requires Distinct(tasks) && t < |tasks| && i <= |ts| && forall u :: u in ts ==> u in tasks
    ensures CountFrom(Ids(tasks, ts), t, i) == multiset(ts[i..])[tasks[t]]
    decreases |ts| - i
  {
    if i < |ts| {
      CountIds(tasks, ts, t, i + 1);
      assert ts[i..] == [ts[i]] + ts[i + 1..];
      assert ts[i] in ts;
    }
  }

  ghost function TimesIn(ts: seq<Task>, tasks: seq<Task>): nat -> int {
    (p: nat) => if p < |tasks| then multiset(ts)[tasks[p]] else 0
  }

  /** Counting a list's elements one distinct object at a time gives its length. */
  lemma {:induction false} TimesAddUp(ts: seq<Task>, tasks: seq<Task>)
    requires Distinct(tasks) && forall u :: u in ts ==> u in tasks
    ensures SumTo(TimesIn(ts, tasks), |tasks|) == |ts|
  {
    if ts == [] {
      SumConstant(TimesIn(ts, tasks), |tasks|, 0);
    } else {
      TimesAddUp(ts[1..], tasks);
      assert ts == [ts[0]] + ts[1..];
      SumUpdate(TimesIn(ts[1..], tasks), TimesIn(ts, tasks), |tasks|, IndexOf(tasks, ts[0]));
    }
  }

  lemma LinkedFacts(tasks: seq<Task>)
    requires Distinct(tasks) && Linked(set u | u in tasks)
    ensures Complete(tasks)
    ensures forall i, u :: 0 <= i < |tasks| && u in tasks[i].precedes ==> u in tasks
    ensures forall t :: t in tasks ==> t.condition == |t.precedes|
    ensures forall p, t :: p in tasks && t in tasks ==> multiset(p.successors)[t] == multiset(t.precedes)[p]
  {
    var all := set u | u in tasks;
    assert forall u :: u in tasks ==> u in SuccessorsOf(all) && u in PrecedesOf(all) && u in ConditionsOf(all);
    forall i, u | 0 <= i < |tasks| && u in tasks[i].successors ensures u in tasks {
      assert tasks[i] in SuccessorsOf(all) && u in SuccessorsOf(all);
    }
    forall i, u | 0 <= i < |tasks| && u in tasks[i].precedes ensures u in tasks {
      assert tasks[i] in PrecedesOf(all) && u in PrecedesOf(all);
    }
  }

  /** The counters `set_precede` leaves are exactly those the transition system starts from. */
  lemma CountersAreInDegrees(tasks: seq<Task>, atomicSeed: bool, t: nat)
    requires t < |tasks| && Distinct(tasks) && Linked(set u | u in tasks)
    ensures Complete(tasks) && ValidConfig(ConfigOf(tasks, atomicSeed))
    ensures tasks[t].condition == Init(ConfigOf(tasks, atomicSeed)).cond[t]
  {
    hide Linked;
    LinkedFacts(tasks);
    var c := ConfigOf(tasks, atomicSeed);
    forall p: nat | p < |tasks|
      ensures PendingFrom(c, seq(|tasks|, _ => []), t)(p) == TimesIn(tasks[t].precedes, tasks)(p)
    {
      CountIds(tasks, tasks[p].successors, t, 0);
      assert tasks[p].successors[0..] == tasks[p].successors;
      assert tasks[p] in tasks;
    }
    SumSame(PendingFrom(c, seq(|tasks|, _ => []), t), TimesIn(tasks[t].precedes, tasks), |tasks|);
    TimesAddUp(tasks[t].precedes, tasks);
  }

  // ----- the undisturbed loops are runs of the transition system --------------------------

  ghost predicate StepsFrom(c: Config, tr: seq<State>, s: State)
    requires ValidConfig(c)
  {
    |tr| > 0 && tr[0] == s && forall i :: 0 <= i < |tr| - 1 ==> Step(c, tr[i], tr[i + 1])
  }

  lemma PathGrows(c: Config, tr: seq<State>, s: State, a: Action)
    requires ValidConfig(c) && StepsFrom(c, tr, s) && Enabled(c, Last(tr), a)
    ensures StepsFrom(c, tr + [Apply(c, Last(tr), a)], s)
  {
    var longer := tr + [Apply(c, Last(tr), a)];
    forall i | 0 <= i < |longer| - 1 ensures Step(c, longer[i], longer[i + 1]) {
      if i < |tr| - 1 {
        assert Step(c, tr[i], tr[i + 1]);
      }
    }
  }

  /** `n` scans in a row submit, of the first `n` tasks, those whose counter is zero. */
  lemma {:induction false} ScansInARow(c: Config, n: nat) returns (tr: seq<State>)
    requires ValidConfig(c) && n <= |c.succ|
    ensures IsRun(c, tr) && Last(tr) == Init(c).(scan := n, runs := Last(tr).runs) && |Last(tr).runs| == |c.succ|
    ensures forall i :: 0 <= i < |c.succ| ==>
      Last(tr).runs[i] == if i < n && Init(c).cond[i] == 0 then [Queued] else []
  {
    if n == 0 {
      tr := [Init(c)];
    } else {
      tr := ScansInARow(c, n - 1);
      PathGrows(c, tr, Init(c), Scan);
      var s := Last(tr);
      assert s.runs[n - 1] + [Queued] == [Queued];
      tr := tr + [Apply(c, s, Scan)];
    }
  }

  /** A counter is zero exactly if the task waits for nobody, which makes it a root. */
  lemma ZeroIsRoot(tasks: seq<Task>, atomicSeed: bool, t: nat)
    requires t < |tasks| && Distinct(tasks) && Linked(set u | u in tasks)
    ensures Complete(tasks) && ValidConfig(ConfigOf(tasks, atomicSeed))
    ensures tasks[t].condition == 0 <==> tasks[t].precedes == []
    ensures tasks[t].condition == 0 <==> Root(ConfigOf(tasks, atomicSeed), t)
  {
    LinkedFacts(tasks);
    CountersAreInDegrees(tasks, atomicSeed, t);
    hide Linked;
    var c := ConfigOf(tasks, atomicSeed);
    assert tasks[t] in tasks;
    forall p: nat | p < |tasks| ensures Precedes(c, p, t) <==> tasks[p] in tasks[t].precedes {
      IdsMember(tasks, tasks[p].successors, t);
      assert tasks[p] in tasks;
      SameSides(tasks[p].successors, tasks[t], tasks[t].precedes, tasks[p]);
    }
    HeadIn(tasks[t].precedes);
    if tasks[t].precedes != [] {
      var q := tasks[t].precedes[0];
      assert q in tasks[t].precedes && q in tasks;
      var p: nat :| p < |tasks| && tasks[p] == q;
      assert Precedes(c, p, t);
    }
  }

  lemma SameSides(succs: seq<Task>, t: Task, pres: seq<Task>, p: Task)
    requires multiset(succs)[t] == multiset(pres)[p]
    ensures t in succs <==> p in pres
  {
    assert t in succs <==> t in multiset(succs);
    assert p in pres <==> p in multiset(pres);
  }

  lemma IdsMember(tasks: seq<Task>, ts: seq<Task>, t: nat)
    requires Distinct(tasks) && t < |tasks| && forall u :: u in ts ==> u in tasks
    ensures t in Ids(tasks, ts) <==> tasks[t] in ts
  {
    if tasks[t] in ts {
      var i :| 0 <= i < |ts| && ts[i] == tasks[t];
      assert Ids(tasks, ts)[i] == t;
    }
    if t in Ids(tasks, ts) {
      var i :| 0 <= i < |ts| && Ids(tasks, ts)[i] == t;
      assert ts[i] in ts;
    }
  }

  /**
   * The beginning of `work_()`, undisturbed, over tasks linked by `set_precede`: it is the run of scans from
   * the initial state, and submits the roots, in the order in which they were added.
   */
  method StartWork(scheduler: Scheduler, executor: Executor, ghost atomicSeed: bool)
    returns (ghost at: seq<nat>, ghost tr: seq<State>)
    requires Distinct(scheduler.tasks) && Linked(set u | u in scheduler.tasks)
    modifies scheduler`waitExecuted, executor`queue
    ensures Complete(scheduler.tasks) && ValidConfig(ConfigOf(scheduler.tasks, atomicSeed))
    ensures old(executor.queue) <= executor.queue && |executor.queue| == |old(executor.queue)| + |at|
    ensures forall a :: 0 <= a < |at| ==>
      at[a] < |scheduler.tasks| && executor.queue[|old(executor.queue)| + a] == scheduler.tasks[at[a]]
    ensures forall a, b :: 0 <= a < b < |at| ==> at[a] < at[b]
    ensures forall i: nat :: i < |scheduler.tasks| ==> (i in at <==> scheduler.tasks[i].precedes == [])
    ensures var c := ConfigOf(scheduler.tasks, atomicSeed);
      && IsRun(c, tr) && Last(tr).scan == |c.succ| && Last(tr).wait == scheduler.waitExecuted
      && |Last(tr).runs| == |c.succ|
      && forall i: nat :: i < |c.succ| ==> Last(tr).runs[i] == if i in at then [Queued] else []
  {
    ghost var tasks := scheduler.tasks;
    at := scheduler.Seed(executor);
    LinkedFacts(tasks);
    assert ValidConfig(ConfigOf(tasks, atomicSeed)) by {
      ConfigIsValid(tasks, atomicSeed);
    }
    tr := ScansInARow(ConfigOf(tasks, atomicSeed), |tasks|);
    forall i: nat | i < |tasks|
      ensures Init(ConfigOf(tasks, atomicSeed)).cond[i] == tasks[i].condition
      ensures tasks[i].condition == 0 <==> tasks[i].precedes == []
    {
      CountersAreInDegrees(tasks, atomicSeed, i);
      ZeroIsRoot(tasks, atomicSeed, i);
    }
  }

  lemma ConfigIsValid(tasks: seq<Task>, atomicSeed: bool)
    requires Complete(tasks)
    ensures ValidConfig(ConfigOf(tasks, atomicSeed))
  {
  }

  // ----- `post_run_()` --------------------------------------------------------------------

  /** The notifications from position `i` on, in a row: every counter falls, and who passes zero is submitted. */
  lemma {:induction false} NotifiesInARow(c: Config, tr: seq<State>, s: State, t: nat, k: nat, i: nat)
    returns (tr': seq<State>)
    requires ValidConfig(c) && StepsFrom(c, tr, s) && Execution.Fits(c, Last(tr)) && PastSeeding(c, Last(tr))
    requires t < |c.succ| && HasPhase(Last(tr), t, k, Notifying(i)) && i <= |c.succ[t]|
    ensures StepsFrom(c, tr', s) && HasPhase(Last(tr'), t, k, Notifying(|c.succ[t]|))
    ensures HasNotified(c, Last(tr), Last(tr'), t, i)
    decreases |c.succ[t]| - i
  {
    tr' := tr;
    if i < |c.succ[t]| {
      var m := Last(tr);
      PathGrows(c, tr, s, Notify(t, k));
      OneNotified(c, m, t, k, i);
      tr' := tr + [Apply(c, m, Notify(t, k))];
      var n := Last(tr');
      hide Apply, Enabled;
      tr' := NotifiesInARow(c, tr', s, t, k, i + 1);
      NotifiedAfter(c, m, n, Last(tr'), t, i);
    }
  }

  /** From `s` to `s'` task `t` has notified its successors from position `i` on. */
  ghost predicate HasNotified(c: Config, s: State, s': State, t: nat, i: nat)
    requires t < |c.succ|
  {
    && Execution.Fits(c, s) && Execution.Fits(c, s') && s'.scan == s.scan
    && s'.wait == s.wait && s'.log == s.log && s'.returned == s.returned
    && (forall v: nat :: v < |s.cond| ==> s'.cond[v] == s.cond[v] - CountFrom(c.succ[t], v, i))
    && forall v: nat :: v < |s.runs| ==> |s'.runs[v]| == |s.runs[v]| + if s.cond[v] > 0 >= s'.cond[v] then 1 else 0
  }

  lemma OneNotified(c: Config, s: State, t: nat, k: nat, i: nat)
    requires ValidConfig(c) && Execution.Fits(c, s) && PastSeeding(c, s)
    requires t < |c.succ| && HasPhase(s, t, k, Notifying(i)) && i < |c.succ[t]|
    ensures Enabled(c, s, Notify(t, k))
    ensures var s' := Apply(c, s, Notify(t, k));
      && HasPhase(s', t, k, Notifying(i + 1)) && Execution.Fits(c, s') && s'.scan == s.scan
      && s'.wait == s.wait && s'.log == s.log && s'.returned == s.returned
      && (forall v: nat :: v < |s.cond| ==> s'.cond[v] == s.cond[v] - if v == c.succ[t][i] then 1 else 0)
      && forall v: nat :: v < |s.runs| ==> |s'.runs[v]| == |s.runs[v]| + if s.cond[v] > 0 >= s'.cond[v] then 1 else 0
  {
  }

  lemma NotifiedAfter(c: Config, s: State, m: State, s': State, t: nat, i: nat)
    requires t < |c.succ| && i < |c.succ[t]| && HasNotified(c, m, s', t, i + 1)
    requires Execution.Fits(c, s) && m.scan == s.scan
    requires m.wait == s.wait && m.log == s.log && m.returned == s.returned
    requires forall v: nat :: v < |s.cond| ==> m.cond[v] == s.cond[v] - if v == c.succ[t][i] then 1 else 0
    requires forall v: nat :: v < |s.runs| ==> |m.runs[v]| == |s.runs[v]| + if s.cond[v] > 0 >= m.cond[v] then 1 else 0
    ensures HasNotified(c, s, s', t, i)
  {
  }

  /** What the objects show of a state. */
  ghost predicate Shows(tasks: seq<Task>, scheduler: Scheduler, s: State)
    reads tasks, scheduler
  {
    && |tasks| == |s.cond| && scheduler.waitExecuted == s.wait
    && forall j: nat :: j < |tasks| ==> tasks[j].condition == s.cond[j]
  }

  /**
   * `post_run_()` of task `t`, undisturbed, is a path of the transition system: its notifications in order and
   * then the count. Every task is submitted as often as it is there.
   */
  method PostRunSteps(tasks: seq<Task>, t: nat, executor: Executor, scheduler: Scheduler,
                      ghost c: Config, ghost s: State, ghost k: nat) returns (ghost tr: seq<State>)
    requires Complete(tasks) && t < |tasks| && c == ConfigOf(tasks, c.atomicSeed) && ValidConfig(c)
    requires Execution.Fits(c, s) && PastSeeding(c, s) && HasPhase(s, t, k, Notifying(0)) && Shows(tasks, scheduler, s)
    modifies (set u | u in tasks[t].successors)`condition, executor`queue, scheduler`waitExecuted
    ensures StepsFrom(c, tr, s) && HasPhase(Last(tr), t, k, Done) && Shows(tasks, scheduler, Last(tr))
    ensures old(executor.queue) <= executor.queue && |Last(tr).runs| == |s.runs|
    ensures forall j: nat :: j < |tasks| ==>
      |Last(tr).runs[j]| == |s.runs[j]| + multiset(executor.queue[|old(executor.queue)|..])[tasks[j]]
  {
    ghost var succs := tasks[t].successors;
    forall j: nat | j < |tasks| ensures CountFrom(c.succ[t], j, 0) == multiset(succs)[tasks[j]] {
      CountIds(tasks, succs, j, 0);
      assert succs[0..] == succs;
    }
    ghost var at := tasks[t].PostRun(executor, scheduler);
    tr := NotifiesInARow(c, [s], s, t, k, 0);
    PathGrows(c, tr, s, Count(t, k));
    tr := tr + [Apply(c, Last(tr), Count(t, k))];
  }
}
