/** Every order the graph allows is the order of some run: one task after the other, to the end. */
module Replays {
  import opened Graphs
  import opened Sums
  import opened Execution
  import opened ExecutionRuns

  /** Tasks each once, each after everything it waits for. */
  ghost predicate IsOrder(c: Config, order: seq<nat>) {
    && Distinct(order) && (forall t: nat :: t in order <==> t < |c.succ|)
    && forall i, j :: 0 <= i < |order| && 0 <= j < |order| && Precedes(c, order[j], order[i]) ==> j < i
  }

  /** The log of doing one work after the other. */
  function OneByOne(order: seq<nat>): seq<Event> {
    if order == [] then []
    else OneByOne(order[..|order| - 1]) + [Began(order[|order| - 1]), Ended(order[|order| - 1])]
  }

  /** Seeding is over, and nobody but possibly `busy` is between its beginning and its end. */
  ghost predicate Calm(c: Config, s: State, busy: set<nat>) {
    && Inv(c, s) && s.scan == |c.succ| && !s.returned
    && forall t: nat :: t < |c.succ| && t !in busy ==> s.runs[t] == [] || s.runs[t] == [Queued] || s.runs[t] == [Done]
  }

  lemma {:induction false} LogOfOrder(order: seq<nat>, t: nat)
    ensures Began(t) in OneByOne(order) <==> t in order
  {
    if order != [] {
      LogOfOrder(order[..|order| - 1], t);
      assert order == order[..|order| - 1] + [order[|order| - 1]];
    }
  }

  /** Done are exactly the tasks whose work began. */
  lemma DoneIsLogged(c: Config, s: State, t: nat)
    requires Calm(c, s, {}) && t < |c.succ|
    ensures s.runs[t] == [Done] <==> Began(t) in s.log
  {
  }

  /** A task is submitted once all it waits for is done. */
  lemma ReadyIsSubmitted(c: Config, s: State, t: nat)
    requires ValidConfig(c) && Calm(c, s, {}) && t < |c.succ|
    requires forall p: nat :: Precedes(c, p, t) ==> s.runs[p] == [Done]
    ensures s.runs[t] != []
  {
    forall p: nat | p < |c.succ| ensures PendingFrom(c, s.runs, t)(p) == 0 {
      CountFromZero(c.succ[p], t, Notified(s.runs[p], |c.succ[p]|));
      assert Precedes(c, p, t) <==> t in c.succ[p];
    }
    SumConstant(PendingFrom(c, s.runs, t), |c.succ|, 0);
  }

  lemma Take(c: Config, tr: seq<State>, a: Action) returns (tr': seq<State>)
    requires ValidConfig(c) && IsRun(c, tr) && Inv(c, Last(tr)) && Enabled(c, Last(tr), a) && !a.Scan?
    ensures IsRun(c, tr') && Last(tr') == Apply(c, Last(tr), a) && Inv(c, Last(tr'))
  {
    StepKeepsInv(c, Last(tr), a);
    Extend(c, tr, a);
    tr' := tr + [Apply(c, Last(tr), a)];
  }

  /** The notifications of one task, to the last. */
  lemma {:induction false} NotifyAll(c: Config, tr: seq<State>, t: nat, i: nat) returns (tr': seq<State>)
    requires ValidConfig(c) && IsRun(c, tr) && t < |c.succ| && i <= |c.succ[t]| && Calm(c, Last(tr), {t})
    requires Last(tr).runs[t] == [Notifying(i)]
    ensures IsRun(c, tr') && Calm(c, Last(tr'), {t}) && Last(tr').runs[t] == [Notifying(|c.succ[t]|)]
    ensures Last(tr').log == Last(tr).log
    decreases |c.succ[t]| - i
  {
    hide Inv, Enabled, Apply;
    tr' := tr;
    if i < |c.succ[t]| {
      OneNotify(c, Last(tr), t, i);
      tr' := Take(c, tr, Notify(t, 0));
      tr' := NotifyAll(c, tr', t, i + 1);
    }
  }

  lemma OneNotify(c: Config, s: State, t: nat, i: nat)
    requires ValidConfig(c) && t < |c.succ| && i < |c.succ[t]| && Calm(c, s, {t}) && s.runs[t] == [Notifying(i)]
    ensures Enabled(c, s, Notify(t, 0))
    ensures var s' := Apply(c, s, Notify(t, 0));
      Calm(c, s', {t}) && s'.runs[t] == [Notifying(i + 1)] && s'.log == s.log
  {
    hide Unnotified, Left, Inv;
    InvFits(c, s);
    NotifyFacts(c, s, t);
    NotifyKeepsInv(c, s, t);
    assert [] + [Queued] == [Queued];
  }

  /** One whole task. */
  lemma DoOne(c: Config, tr: seq<State>, t: nat) returns (tr': seq<State>)
    requires ValidConfig(c) && IsRun(c, tr) && t < |c.succ| && Calm(c, Last(tr), {}) && Last(tr).runs[t] == [Queued]
    ensures IsRun(c, tr') && Calm(c, Last(tr'), {}) && Last(tr').log == Last(tr).log + [Began(t), Ended(t)]
  {
    hide CountInv, LogInv;
    InvFits(c, Last(tr));
    tr' := Take(c, tr, Begin(t, 0));
    tr' := Take(c, tr', EndWork(t, 0));
    tr' := NotifyAll(c, tr', t, 0);
    InvFits(c, Last(tr'));
    tr' := Take(c, tr', Count(t, 0));
  }

  lemma {:induction false} Replay(c: Config, order: seq<nat>, k: nat) returns (tr: seq<State>)
    requires ValidConfig(c) && IsOrder(c, order) && k <= |order|
    ensures IsRun(c, tr) && Calm(c, Last(tr), {}) && Last(tr).log == OneByOne(order[..k])
  {
    hide Inv;
    if k == 0 {
      tr := ScanUpTo(c, |c.succ|);
      FreshIsCalm(c, Last(tr));
    } else {
      tr := Replay(c, order, k - 1);
      var t := order[k - 1];
      assert t in order;
      NextIsQueued(c, order, k - 1, Last(tr));
      tr := DoOne(c, tr, t);
      assert order[..k][..k - 1] == order[..k - 1];
    }
  }

  lemma FreshIsCalm(c: Config, s: State)
    requires Inv(c, s) && s.scan == |c.succ| && !s.returned && s.log == []
    ensures Calm(c, s, {})
  {
    forall t: nat | t < |c.succ| ensures s.runs[t] == [] || s.runs[t] == [Queued] {
      assert Began(t) !in s.log;
    }
  }

  lemma NextIsQueued(c: Config, order: seq<nat>, k: nat, s: State)
    requires ValidConfig(c) && IsOrder(c, order) && k < |order| && Calm(c, s, {}) && s.log == OneByOne(order[..k])
    ensures order[k] < |c.succ| && s.runs[order[k]] == [Queued]
  {
    hide Inv;
    InvFits(c, s);
    var t := order[k];
    assert t in order;
    forall p: nat | Precedes(c, p, t) ensures s.runs[p] == [Done] {
      assert p in order;
      var j :| 0 <= j < |order| && order[j] == p;
      assert order[..k][j] == p;
      LogOfOrder(order[..k], p);
      DoneIsLogged(c, s, p);
    }
    ReadyIsSubmitted(c, s, t);
    LogOfOrder(order[..k], t);
    DoneIsLogged(c, s, t);
  }

  /** Every order the graph allows is the order of works of a run that returns. */
  lemma EveryOrderRuns(c: Config, order: seq<nat>) returns (tr: seq<State>)
    requires ValidConfig(c) && IsOrder(c, order)
    ensures IsRun(c, tr) && Last(tr).returned && Last(tr).log == OneByOne(order)
  {
    tr := Replay(c, order, |order|);
    assert order[..|order|] == order;
    AllDone(c, order, Last(tr));
    tr := Take(c, tr, Return);
  }

  lemma AllDone(c: Config, order: seq<nat>, s: State)
    requires IsOrder(c, order) && Calm(c, s, {}) && s.log == OneByOne(order)
    ensures Enabled(c, s, Return)
  {
    hide Inv;
    InvFits(c, s);
    forall t: nat | t < |c.succ| ensures s.runs[t] == [Done] {
      LogOfOrder(order, t);
      DoneIsLogged(c, s, t);
    }
    CountsOf(c, s);
    NobodyLeft(c, s);
  }

  lemma CountsOf(c: Config, s: State)
    requires Inv(c, s)
    ensures CountInv(c, s)
  {
  }

  lemma NobodyLeft(c: Config, s: State)
    requires CountInv(c, s) && forall t: nat :: t < |c.succ| ==> s.runs[t] == [Done]
    ensures s.wait == 0
  {
    hide Counters, Submitted;
    SumConstant(Open(s.runs), |c.succ|, 0);
  }
}
