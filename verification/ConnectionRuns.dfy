/** What holds of an asynchronous connection in every run of its callbacks and of the threads that use it. */
module ConnectionRuns {
  import opened ConnectionProtocol

  ghost predicate Step(c: Conn, d: Conn) {
    exists a :: Enabled(c, a) && d == Apply(c, a)
  }

  ghost predicate IsPath(tr: seq<Conn>) {
    |tr| > 0 && forall i :: 0 <= i < |tr| - 1 ==> Step(tr[i], tr[i + 1])
  }

  ghost predicate IsRun(tr: seq<Conn>, opts: Options, sentinel: bool, hostKnown: bool) {
    IsPath(tr) && tr[0] == Init(opts, sentinel, hostKnown)
  }

  lemma {:induction false} PathKeepsInv(tr: seq<Conn>, i: nat)
    requires IsPath(tr) && Inv(tr[0]) && i < |tr|
    ensures Inv(tr[i]) && tr[i].opts == tr[0].opts
  {
    hide Inv, Apply, Enabled;
    if i > 0 {
      PathKeepsInv(tr, i - 1);
      assert Step(tr[i - 1], tr[i - 1 + 1]);
      var a :| Enabled(tr[i - 1], a) && tr[i] == Apply(tr[i - 1], a);
      StepKeepsInv(tr[i - 1], a);
      StepKeepsOptions(tr[i - 1], a);
    }
  }

  lemma StepKeepsOptions(c: Conn, a: Action)
    requires Enabled(c, a)
    ensures Apply(c, a).opts == c.opts
  {
    hide NextStage, Settle, Swap;
  }

  lemma RunsKeepInv(tr: seq<Conn>, opts: Options, sentinel: bool, hostKnown: bool, i: nat)
    requires IsRun(tr, opts, sentinel, hostKnown) && i < |tr|
    ensures Inv(tr[i]) && tr[i].opts == opts
  {
    hide Inv;
    InitHolds(opts, sentinel, hostKnown);
    PathKeepsInv(tr, i);
  }

  // ----- conservation and order -----------------------------------------------------------

  lemma {:induction false} EventsCounted(done: seq<Settled>)
    ensures |EventsOf(done)| == |done|
  {
    if done != [] {
      EventsCounted(done[..|done| - 1]);
    }
  }

  /**
   * In every reachable state the events submitted are, in order, those settled, each with one fate,
   * then those a callback holds, then those waiting; and after the first failure all fail.
   */
  lemma EventsConserved(tr: seq<Conn>, opts: Options, sentinel: bool, hostKnown: bool, i: nat)
    requires IsRun(tr, opts, sentinel, hostKnown) && i < |tr|
    ensures var q := tr[i].queue;
      q.submitted == EventsOf(q.done) + q.batch + q.events && FailedLast(q.done)
  {
    hide Stages, Attached;
    RunsKeepInv(tr, opts, sentinel, hostKnown, i);
  }

  lemma NextSettles(c: Conn, o: Outcome)
    requires Owned(c) && CanContinue(c, o)
    ensures var d, e := c.queue.done, Continue(c, o).queue.done;
      e == d || (|e| == |d| + 1 && d <= e && c.queue.batch != [] && e[|d|].event == c.queue.batch[0]
        && (e[|d|].fate.Failed? <==> c.pc != Sending))
  {
  }

  /** One step settles at most one event; only a callback in its sending loop, while READY, takes one. */
  lemma StepSettles(c: Conn, a: Action)
    requires Inv(c) && Enabled(c, a)
    ensures var d, e := c.queue.done, Apply(c, a).queue.done;
      e == d || (a.Next? && |e| == |d| + 1 && d <= e && c.queue.batch != [] && e[|d|].event == c.queue.batch[0]
        && (e[|d|].fate.Failed? <==> c.pc != Sending))
    ensures a.Next? && c.pc == Sending ==> c.link.st == Ready && c.link.ctx && Complete(c.opts, c.link) && c.alive
  {
    assert c.link.st == Ready ==> Complete(c.opts, c.link);
    hide Conserved, Fates, Stages, Complete, NextStage;
    if a.Next? {
      NextSettles(c, a.outcome);
    }
    hide Continue, CanContinue;
  }

  /** What is settled stays settled, with the same fate. */
  lemma {:induction false} SettledForGood(tr: seq<Conn>, i: nat, j: nat)
    requires IsPath(tr) && Inv(tr[0]) && i <= j < |tr|
    ensures tr[i].queue.done <= tr[j].queue.done
    decreases j - i
  {
    hide Inv, Apply, Enabled;
    if i < j {
      SettledForGood(tr, i, j - 1);
      PathKeepsInv(tr, j - 1);
      assert Step(tr[j - 1], tr[j - 1 + 1]);
      var a :| Enabled(tr[j - 1], a) && tr[j] == Apply(tr[j - 1], a);
      StepSettles(tr[j - 1], a);
    }
  }

  /**
   * Hand-over happens only while READY with a live context, after every handshake stage the options
   * call for has been sent, in order, and answered.
   */
  lemma HandedOnlyWhenReady(tr: seq<Conn>, opts: Options, sentinel: bool, hostKnown: bool, i: nat)
    requires IsRun(tr, opts, sentinel, hostKnown) && i + 1 < |tr|
    ensures var d, e := tr[i].queue.done, tr[i + 1].queue.done;
      e == d || (|e| == |d| + 1 && d <= e &&
        (!e[|d|].fate.Failed? ==>
           && tr[i].link.st == Ready && tr[i].link.ctx
           && tr[i].link.sent == Needed(opts) && tr[i].link.acked == |Needed(opts)|))
  {
    hide Inv, Apply, Enabled, Needed;
    RunsKeepInv(tr, opts, sentinel, hostKnown, i);
    assert Step(tr[i], tr[i + 1]);
    var a :| Enabled(tr[i], a) && tr[i + 1] == Apply(tr[i], a);
    StepSettles(tr[i], a);
  }

  // ----- BROKEN ---------------------------------------------------------------------------

  lemma StepKeepsBroken(c: Conn, a: Action)
    requires Inv(c) && Enabled(c, a) && c.link.st == Broken
    ensures Apply(c, a).link.st == Broken
  {
    hide Conserved, Fates, Stages, Settle, Swap;
  }

  /** BROKEN is never left, and everything settled from then on fails. */
  lemma {:induction false} BrokenIsFinal(tr: seq<Conn>, opts: Options, sentinel: bool, hostKnown: bool, i: nat, j: nat)
    requires IsRun(tr, opts, sentinel, hostKnown) && i <= j < |tr| && tr[i].link.st == Broken
    ensures tr[j].link.st == Broken && tr[i].queue.done <= tr[j].queue.done
    ensures forall k :: |tr[i].queue.done| <= k < |tr[j].queue.done| ==> tr[j].queue.done[k].fate.Failed?
    decreases j - i
  {
    hide Inv, Apply, Enabled;
    if i < j {
      BrokenIsFinal(tr, opts, sentinel, hostKnown, i, j - 1);
      RunsKeepInv(tr, opts, sentinel, hostKnown, j - 1);
      assert Step(tr[j - 1], tr[j - 1 + 1]);
      var a :| Enabled(tr[j - 1], a) && tr[j] == Apply(tr[j - 1], a);
      StepKeepsBroken(tr[j - 1], a);
      StepSettles(tr[j - 1], a);
    }
  }

  /** An event fails only once the connection is, or is about to be, BROKEN, or is being destroyed. */
  lemma FailureMeansBroken(tr: seq<Conn>, opts: Options, sentinel: bool, hostKnown: bool, i: nat)
    requires IsRun(tr, opts, sentinel, hostKnown) && i < |tr| && tr[i].pc == Idle && tr[i].alive
    ensures (exists k :: 0 <= k < |tr[i].queue.done| && tr[i].queue.done[k].fate.Failed?) ==> tr[i].link.st == Broken
  {
    hide Stages, Attached, Conserved;
    RunsKeepInv(tr, opts, sentinel, hostKnown, i);
  }

  // ----- the source's assertions ----------------------------------------------------------

  /**
   * `connect_callback()` without an error meets only the states its switch lists, so its default
   * branch only `ENABLE_READONLY`; no stage is sent on a broken connection; `_context()` is not null.
   */
  lemma AssertionsHold(tr: seq<Conn>, opts: Options, sentinel: bool, hostKnown: bool, i: nat)
    requires IsRun(tr, opts, sentinel, hostKnown) && i < |tr|
    ensures var c := tr[i];
      && (c.link.connectPending ==> c.link.st == Connecting || c.link.st == Broken)
      && (c.link.replyPending ==> c.link.st == Broken || c.link.st in STAGES)
      && (c.pc == ToSend || c.pc == Sending ==> c.link.ctx)
      && (c.link.st == Broken ==> !c.link.ctx)
  {
    hide Stages, Conserved, Fates;
    RunsKeepInv(tr, opts, sentinel, hostKnown, i);
    StagesAre(tr[i].link);
  }

  lemma StagesAre(l: Link)
    ensures InHandshake(l.st) <==> l.st == Connecting || l.st in STAGES
  {
    assert STAGES[0] == Authing && STAGES[1] == SetResp && STAGES[2] == SetName && STAGES[3] == SelectingDb;
    assert STAGES[4] == EnableReadonly;
  }

  /** The handshake commands sent are always a prefix of those needed; while READY they are all of them. */
  lemma HandshakeIsExact(tr: seq<Conn>, opts: Options, sentinel: bool, hostKnown: bool, i: nat)
    requires IsRun(tr, opts, sentinel, hostKnown) && i < |tr|
    ensures tr[i].link.sent <= Needed(opts)
    ensures tr[i].link.st == Ready ==> tr[i].link.sent == Needed(opts) && tr[i].link.acked == |Needed(opts)|
  {
    hide Attached, Conserved, Fates, Owned;
    RunsKeepInv(tr, opts, sentinel, hostKnown, i);
    assert tr[i].link.st == Ready ==> StageNumber(tr[i].link.st) == 5;
  }

  /** The stages that are needed, by the options themselves. */
  lemma NeededByOptions(o: Options)
    ensures Needed(o) == (if o.password != "" || o.user != "default" then [Authing] else [])
      + (if o.resp > 2 then [SetResp] else []) + (if o.name != "" then [SetName] else [])
      + (if o.db != 0 then [SelectingDb] else []) + (if o.readonly then [EnableReadonly] else [])
  {
    assert STAGES == [Authing, SetResp, SetName, SelectingDb, EnableReadonly];
    assert NeededUpTo(o, 0) == [];
    assert NeededUpTo(o, 1) == if o.password != "" || o.user != "default" then [Authing] else [];
    assert NeededUpTo(o, 2) == NeededUpTo(o, 1) + if o.resp > 2 then [SetResp] else [];
    assert NeededUpTo(o, 3) == NeededUpTo(o, 2) + if o.name != "" then [SetName] else [];
    assert NeededUpTo(o, 4) == NeededUpTo(o, 3) + if o.db != 0 then [SelectingDb] else [];
  }

  lemma MembersOfFive(a: seq<ConnState>, b: seq<ConnState>, c: seq<ConnState>, d: seq<ConnState>, e: seq<ConnState>)
    ensures forall x :: x in a + b + c + d + e <==> x in a || x in b || x in c || x in d || x in e
  {
  }

  lemma AskedByOptions(o: Options)
    ensures Authing in Needed(o) <==> o.password != "" || o.user != "default"
    ensures SetResp in Needed(o) <==> o.resp > 2
    ensures SetName in Needed(o) <==> o.name != ""
    ensures SelectingDb in Needed(o) <==> o.db != 0
    ensures EnableReadonly in Needed(o) <==> o.readonly
  {
    NeededByOptions(o);
    hide Needed;
    var auth := o.password != "" || o.user != "default";
    var name := o.name != "";
    MembersOfFive(if auth then [Authing] else [], if o.resp > 2 then [SetResp] else [], if name then [SetName] else [],
      if o.db != 0 then [SelectingDb] else [], if o.readonly then [EnableReadonly] else []);
  }

  /**
   * A connection that is READY has authenticated exactly if there is a password or a user other than the
   * default one, has set protocol, name, database and read-only mode exactly if the options ask for them, in
   * this order, and has an answer to each.
   */
  lemma ReadyMeansAsked(tr: seq<Conn>, opts: Options, sentinel: bool, hostKnown: bool, i: nat)
    requires IsRun(tr, opts, sentinel, hostKnown) && i < |tr| && tr[i].link.st == Ready
    ensures var sent := tr[i].link.sent;
      && (Authing in sent <==> opts.password != "" || opts.user != "default")
      && (SetResp in sent <==> opts.resp > 2) && (SetName in sent <==> opts.name != "")
      && (SelectingDb in sent <==> opts.db != 0) && (EnableReadonly in sent <==> opts.readonly)
    ensures tr[i].link.sent == (if opts.password != "" || opts.user != "default" then [Authing] else [])
      + (if opts.resp > 2 then [SetResp] else []) + (if opts.name != "" then [SetName] else [])
      + (if opts.db != 0 then [SelectingDb] else []) + (if opts.readonly then [EnableReadonly] else [])
    ensures tr[i].link.acked == |tr[i].link.sent|
  {
    HandshakeIsExact(tr, opts, sentinel, hostKnown, i);
    hide IsRun, Needed;
    AskedByOptions(opts);
    NeededByOptions(opts);
  }

  /** Before that, what has been sent is a first part of the same list. */
  lemma SentByOptions(tr: seq<Conn>, opts: Options, sentinel: bool, hostKnown: bool, i: nat)
    requires IsRun(tr, opts, sentinel, hostKnown) && i < |tr|
    ensures tr[i].link.sent <= (if opts.password != "" || opts.user != "default" then [Authing] else [])
      + (if opts.resp > 2 then [SetResp] else []) + (if opts.name != "" then [SetName] else [])
      + (if opts.db != 0 then [SelectingDb] else []) + (if opts.readonly then [EnableReadonly] else [])
  {
    HandshakeIsExact(tr, opts, sentinel, hostKnown, i);
    hide IsRun, Needed;
    NeededByOptions(opts);
  }

  /** A command that has not failed has been handed over, and a request to update the mapping discarded. */
  lemma {:induction false} FateByKind(tr: seq<Conn>, opts: Options, sentinel: bool, hostKnown: bool, i: nat)
    requires IsRun(tr, opts, sentinel, hostKnown) && i < |tr|
    ensures forall k :: 0 <= k < |tr[i].queue.done| && !tr[i].queue.done[k].fate.Failed? ==>
      tr[i].queue.done[k].fate == if tr[i].queue.done[k].event.sendsData then Handed else Discarded
    decreases i
  {
    hide Inv, Apply, Enabled;
    if i > 0 {
      FateByKind(tr, opts, sentinel, hostKnown, i - 1);
      assert Step(tr[i - 1], tr[i - 1 + 1]);
      var a :| Enabled(tr[i - 1], a) && tr[i] == Apply(tr[i - 1], a);
      StepFate(tr[i - 1], a);
    }
  }

  lemma StepFate(c: Conn, a: Action)
    requires Enabled(c, a)
    ensures var d, e := c.queue.done, Apply(c, a).queue.done;
      e == d || (|e| == |d| + 1 && d <= e
        && (e[|d|].fate.Failed? || e[|d|].fate == if e[|d|].event.sendsData then Handed else Discarded))
  {
    hide NextStage;
  }

  // ----- nothing is forgotten -------------------------------------------------------------

  /**
   * An event that waits while no callback is running is announced to the loop, or about to be, unless
   * the connection is not usable yet: in its handshake, or waiting for a node's address.
   */
  lemma WaitingIsAnnounced(tr: seq<Conn>, opts: Options, sentinel: bool, hostKnown: bool, i: nat)
    requires IsRun(tr, opts, sentinel, hostKnown) && i < |tr| && tr[i].pc == Idle && tr[i].alive
    requires tr[i].link.st == Ready || tr[i].link.st == NotConnected || tr[i].link.st == Broken
    ensures tr[i].queue.batch == []
    ensures tr[i].queue.events != [] ==> tr[i].wake || tr[i].announcing > 0
  {
    hide Attached, Conserved, Fates, Stages;
    RunsKeepInv(tr, opts, sentinel, hostKnown, i);
  }

  /** Once destroyed, with its clean-up over, the connection has settled every event ever submitted. */
  lemma DestroyedMeansSettled(tr: seq<Conn>, opts: Options, sentinel: bool, hostKnown: bool, i: nat)
    requires IsRun(tr, opts, sentinel, hostKnown) && i < |tr| && tr[i].pc == Idle && !tr[i].alive
    ensures EventsOf(tr[i].queue.done) == tr[i].queue.submitted
  {
    hide Attached, Fates, Stages;
    RunsKeepInv(tr, opts, sentinel, hostKnown, i);
    var q := tr[i].queue;
    assert EventsOf(q.done) + [] + [] == EventsOf(q.done);
  }

  /** How far the running callback is from its end, if nothing more is pushed. */
  function Remaining(c: Conn): nat {
    |c.queue.batch| + |c.queue.events| +
    match c.pc
    case ToSend => 6
    case Sending => 5
    case FailRest(_) => 4
    case ToFail(_) => 3
    case ToClean => 2
    case Cleaning => 1
    case Idle => 0
  }

  lemma NextShrinks(c: Conn, o: Outcome)
    requires Owned(c) && CanContinue(c, o)
    ensures Remaining(Continue(c, o)) < Remaining(c)
  {
  }

  /** The running callback carried through to its end, every event accepted by the server's library. */
  function Finish(c: Conn): (d: Conn)
    requires Owned(c) && NotStranded(c)
    ensures d.pc == Idle
    decreases Remaining(c)
  {
    if c.pc == Idle then c
    else
      LoopKeepsOwned(c, Taken);
      NextShrinks(c, Taken);
      Finish(Continue(c, Taken))
  }

  /** From any state in which the connection has started to fail, the callback ends with nothing pending. */
  lemma {:induction false} FailureSettlesAll(c: Conn)
    requires Inv(c) && (c.pc.FailRest? || c.pc.ToFail? || c.pc == ToClean)
    ensures var d := Finish(c);
      && d.pc == Idle && (c.alive ==> d.link.st == Broken)
      && d.queue.submitted == c.queue.submitted == EventsOf(d.queue.done)
    decreases Remaining(c)
  {
    hide Conserved, Fates, Stages, Attached;
    NextShrinks(c, Taken);
    NextKeepsInv(c, Taken);
    var d := Continue(c, Taken);
    if d.pc == Cleaning {
      CleaningSettlesAll(d);
    } else {
      FailureSettlesAll(d);
    }
  }

  lemma {:induction false} CleaningSettlesAll(c: Conn)
    requires Inv(c) && c.pc == Cleaning && c.queue.events == []
    ensures var d := Finish(c);
      && d.pc == Idle && (c.alive ==> d.link.st == Broken)
      && d.queue.submitted == c.queue.submitted == EventsOf(d.queue.done)
    decreases Remaining(c)
  {
    hide Fates, Stages, Attached;
    if c.queue.batch == [] {
      assert EventsOf(c.queue.done) + [] + [] == EventsOf(c.queue.done);
    } else {
      NextShrinks(c, Taken);
      NextKeepsInv(c, Taken);
      hide Conserved;
      CleaningSettlesAll(Continue(c, Taken));
    }
  }
}
