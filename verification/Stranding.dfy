/** When a waiting event is certain to be settled, and when only a disconnect can settle it. */
module Stranding {
  import opened ConnectionProtocol
  import opened ConnectionRuns

  /** In its handshake, with no result and no reply to come. */
  predicate Stranded(c: Conn) {
    c.alive && c.pc == Idle && InHandshake(c.link.st) && !c.link.connectPending && !c.link.replyPending
  }

  /** Between callbacks a handshake waits for the result of connecting or for one reply, or has lost it. */
  predicate Awaits(c: Conn) {
    c.alive && c.pc == Idle && InHandshake(c.link.st) ==>
      if c.link.st == Connecting then c.link.connectPending
      else c.link.replyPending || c.link.acked == |c.link.sent| - 1
  }

  /** What the loop's thread and the senders do by themselves. */
  predicate Own(a: Action) {
    a.Announce? || a.EventCallback? || a.ConnectResult? || a.Reply? || a.Next?
  }

  predicate EmptyReply(a: Action) {
    a.Reply? && a.answer == Closed
  }

  predicate Ends(a: Action) {
    a.Disconnect? || a.Destroy?
  }

  lemma StepKeepsAwaits(c: Conn, a: Action)
    requires Inv(c) && Awaits(c) && Enabled(c, a)
    ensures Awaits(Apply(c, a))
  {
    hide Conserved, Fates, Settle, Swap;
    NextIsStage(c.opts, c.link.st);
    hide NextStage, NeededUpTo, Needed;
  }

  lemma NextIsStage(o: Options, st: ConnState)
    ensures var n := NextStage(o, st);
      if InHandshake(st) then n == Ready || (InHandshake(n) && n != Connecting && StagesLeft(n) < StagesLeft(st))
      else n == Ready
  {
    if InHandshake(st) {
      NextStageAfter(o, st);
    }
  }

  lemma {:induction false} NextStageAfter(o: Options, st: ConnState)
    requires InHandshake(st)
    ensures var n := NextStage(o, st);
      n == Ready || (InHandshake(n) && n != Connecting && StageNumber(st) < StageNumber(n))
    decreases 5 - StageNumber(st)
  {
    if st != EnableReadonly && !Needs(o, STAGES[StageNumber(st)]) {
      NextStageAfter(o, STAGES[StageNumber(st)]);
    }
  }

  /** Only an empty reply strands a connection, and every empty reply in a handshake does. */
  lemma StrandedByEmptyReply(c: Conn, a: Action)
    requires Inv(c) && Enabled(c, a) && !Stranded(c)
    ensures Stranded(Apply(c, a)) <==> EmptyReply(a) && InHandshake(c.link.st)
  {
    hide Conserved, Fates, Stages, Settle, Swap;
    NextIsStage(c.opts, c.link.st);
    hide NextStage;
  }

  /** A stranded connection settles nothing, whatever arrives, until it is disconnected or destroyed. */
  lemma StrandedStays(c: Conn, a: Action)
    requires Enabled(c, a) && Stranded(c) && !Ends(a)
    ensures Stranded(Apply(c, a)) && Apply(c, a).queue.done == c.queue.done
  {
  }

  /** In every reachable state. */
  lemma {:induction false} RunsAwait(tr: seq<Conn>, opts: Options, sentinel: bool, hostKnown: bool, i: nat)
    requires IsRun(tr, opts, sentinel, hostKnown) && i < |tr|
    ensures Awaits(tr[i])
  {
    hide Inv, Awaits, Apply, Enabled, Init;
    if i == 0 {
      InitAwaits(opts, sentinel, hostKnown);
    } else {
      RunsAwait(tr, opts, sentinel, hostKnown, i - 1);
      RunsKeepInv(tr, opts, sentinel, hostKnown, i - 1);
      assert Step(tr[i - 1], tr[i - 1 + 1]);
      var a :| Enabled(tr[i - 1], a) && tr[i] == Apply(tr[i - 1], a);
      StepKeepsAwaits(tr[i - 1], a);
    }
  }

  lemma InitAwaits(opts: Options, sentinel: bool, hostKnown: bool)
    ensures Awaits(Init(opts, sentinel, hostKnown)) && !Stranded(Init(opts, sentinel, hostKnown))
  {
  }

  // ----- left alone -----------------------------------------------------------------------

  ghost predicate OwnStep(c: Conn, d: Conn) {
    exists a :: Own(a) && Enabled(c, a) && d == Apply(c, a)
  }

  /** An own step that is not an empty reply. */
  ghost predicate HelpedStep(c: Conn, d: Conn) {
    exists a :: Own(a) && !EmptyReply(a) && Enabled(c, a) && d == Apply(c, a)
  }

  /** From `c` only own steps. */
  ghost predicate LeftAlone(c: Conn, p: seq<Conn>) {
    |p| > 0 && p[0] == c && forall i :: 0 <= i < |p| - 1 ==> OwnStep(p[i], p[i + 1])
  }

  /** From `c` only own steps, and every stage that is answered is answered with something. */
  ghost predicate Helped(c: Conn, p: seq<Conn>) {
    |p| > 0 && p[0] == c && forall i :: 0 <= i < |p| - 1 ==> HelpedStep(p[i], p[i + 1])
  }

  ghost function End(p: seq<Conn>): Conn
    requires |p| > 0
  {
    p[|p| - 1]
  }

  /** Every event submitted by the state `c` is settled in `d`. */
  ghost predicate SettledBy(c: Conn, d: Conn) {
    |c.queue.submitted| <= |d.queue.done|
  }

  function StagesLeft(st: ConnState): nat {
    match st
    case NotConnected | WaitSentinel => 8
    case Connecting => 7
    case Authing => 6
    case SetResp => 5
    case SetName => 4
    case SelectingDb => 3
    case EnableReadonly => 2
    case Ready | Broken => 0
  }

  function One(b: bool): nat {
    if b then 10 else 0
  }

  /** A bound on the own steps still to come. */
  function Work(c: Conn): nat {
    Remaining(c) + 10 * StagesLeft(c.link.st) + One(c.link.connectPending) + One(c.link.replyPending) + One(c.wake)
    + 11 * c.announcing
  }

  lemma OwnStepShrinks(c: Conn, a: Action)
    requires Owned(c) && Own(a) && Enabled(c, a)
    ensures Work(Apply(c, a)) < Work(c)
  {
    if a.Next? {
      NextShrinks(c, a.outcome);
      NextKeepsWait(c, a.outcome);
    } else {
      CallbackShrinks(c, a);
    }
  }

  lemma NextKeepsWait(c: Conn, o: Outcome)
    requires CanContinue(c, o)
    ensures var d := Continue(c, o);
      && d.link.connectPending == c.link.connectPending && d.link.replyPending == c.link.replyPending
      && d.wake == c.wake && d.announcing == c.announcing && StagesLeft(d.link.st) <= StagesLeft(c.link.st)
  {
  }

  lemma CallbackShrinks(c: Conn, a: Action)
    requires Own(a) && Enabled(c, a) && !a.Next?
    ensures Work(Apply(c, a)) < Work(c)
  {
    hide Work;
    if a.ConnectResult? || a.Reply? {
      hide Apply;
      AnswerShrinks(c, a);
    } else {
      LoopShrinks(c, a);
    }
  }

  lemma AnswerShrinks(c: Conn, a: Action)
    requires Enabled(c, a) && (a.ConnectResult? || a.Reply?)
    ensures Work(Apply(c, a)) < Work(c)
  {
    hide ConnectCallback, Callback, Continue;
    if a.ConnectResult? {
      StageShrinks(c.(link := c.link.(connectPending := false)), a.secure, a.sent, a.why);
    } else {
      StageShrinks(c.(link := c.link.(replyPending := false, acked := c.link.acked + 1)), true, a.sent, a.why);
    }
  }

  lemma LoopShrinks(c: Conn, a: Action)
    requires Enabled(c, a) && (a.Announce? || a.EventCallback?)
    ensures Work(Apply(c, a)) < Work(c)
  {
    hide ConnectCallback, Continue;
  }

  lemma StageShrinks(c: Conn, secure: bool, sent: bool, why: Failure)
    requires c.pc == Idle
    ensures Work(ConnectCallback(c, secure, sent, why)) <= Work(c) + 6
  {
    NextIsStage(c.opts, c.link.st);
    hide NextStage;
  }

  lemma OwnStepKeeps(c: Conn, a: Action)
    requires Inv(c) && Own(a) && Enabled(c, a) && c.alive
    ensures Inv(Apply(c, a)) && Apply(c, a).alive
    ensures Apply(c, a).queue.submitted == c.queue.submitted
    ensures c.link.st != WaitSentinel ==> Apply(c, a).link.st != WaitSentinel
    ensures !Stranded(c) && !EmptyReply(a) ==> !Stranded(Apply(c, a))
  {
    hide Inv, Stranded, Apply, Enabled;
    StepKeepsInv(c, a);
    if !Stranded(c) {
      StrandedByEmptyReply(c, a);
    }
    OwnStepFrame(c, a);
  }

  lemma OwnStepFrame(c: Conn, a: Action)
    requires Own(a) && Enabled(c, a)
    ensures var d := Apply(c, a);
      d.alive == c.alive && d.queue.submitted == c.queue.submitted
      && (c.link.st != WaitSentinel ==> d.link.st != WaitSentinel)
  {
    if a.Next? {
      hide ConnectCallback, Callback;
    } else {
      CallbackFrame(c, a);
    }
  }

  lemma CallbackFrame(c: Conn, a: Action)
    requires Own(a) && Enabled(c, a) && !a.Next?
    ensures var d := Apply(c, a);
      d.alive == c.alive && d.queue == c.queue && (c.link.st != WaitSentinel ==> d.link.st != WaitSentinel)
  {
    NextIsStage(c.opts, c.link.st);
    hide NextStage, Continue;
  }

  /** Nothing is left to do: then nothing is left at all, unless a node's address is missing or a reply was empty. */
  lemma RestMeansSettled(c: Conn)
    requires Inv(c) && c.alive && !Stranded(c) && c.link.st != WaitSentinel
    requires forall d :: !HelpedStep(c, d)
    ensures EventsOf(c.queue.done) == c.queue.submitted
  {
    hide Fates, Stages, Apply;
    IsHelp(c, Announce);
    IsHelp(c, EventCallback(true, Closing));
    IsHelp(c, ConnectResult(true, true, true, Closing));
    IsHelp(c, Reply(Fine, true, Closing));
    IsHelp(c, Next(Taken));
    assert c.queue.batch == [] && c.queue.events == [];
    assert EventsOf(c.queue.done) + [] + [] == EventsOf(c.queue.done);
  }

  lemma IsHelp(c: Conn, a: Action)
    requires Own(a) && !EmptyReply(a)
    ensures Enabled(c, a) ==> HelpedStep(c, Apply(c, a))
  {
  }

  lemma {:induction false} HelpedKeeps(c: Conn, p: seq<Conn>, i: nat)
    requires Inv(c) && c.alive && !Stranded(c) && Helped(c, p) && i < |p|
    ensures Inv(p[i]) && p[i].alive && !Stranded(p[i]) && p[i].queue.submitted == c.queue.submitted
    ensures c.link.st != WaitSentinel ==> p[i].link.st != WaitSentinel
    ensures i + Work(p[i]) <= Work(c)
  {
    hide Inv, Stranded, Apply, Enabled, Work, Own, EmptyReply;
    if i > 0 {
      HelpedKeeps(c, p, i - 1);
      assert HelpedStep(p[i - 1], p[i - 1 + 1]);
      var a :| Own(a) && !EmptyReply(a) && Enabled(p[i - 1], a) && p[i] == Apply(p[i - 1], a);
      OwnStepKeeps(p[i - 1], a);
      OwnedOf(p[i - 1]);
      OwnStepShrinks(p[i - 1], a);
    }
  }

  lemma OwnedOf(c: Conn)
    requires Inv(c)
    ensures Owned(c)
  {
  }

  /**
   * Liveness: a connection that is not stranded and not waiting for a node's address, left alone and
   * given no empty reply, comes to rest, and when it rests every event ever submitted is settled.
   */
  lemma LeftAloneSettles(c: Conn, p: seq<Conn>)
    requires Inv(c) && c.alive && !Stranded(c) && c.link.st != WaitSentinel && Helped(c, p)
    ensures |p| <= Work(c) + 1
    ensures (forall d :: !HelpedStep(End(p), d)) ==> EventsOf(End(p).queue.done) == c.queue.submitted
  {
    hide Inv, Stranded, Work, HelpedStep;
    HelpedKeeps(c, p, |p| - 1);
    if forall d :: !HelpedStep(End(p), d) {
      RestMeansSettled(End(p));
    }
  }

  lemma {:induction false} GoOn(c: Conn, p: seq<Conn>) returns (q: seq<Conn>)
    requires Inv(c) && c.alive && !Stranded(c) && c.link.st != WaitSentinel && Helped(c, p)
    ensures Helped(c, q) && forall d :: !HelpedStep(End(q), d)
    decreases Work(c) + 1 - |p|
  {
    hide Inv, Stranded, Work, HelpedStep;
    q := p;
    if d :| HelpedStep(End(p), d) {
      forall i | 0 <= i < |p + [d]| - 1 ensures HelpedStep((p + [d])[i], (p + [d])[i + 1]) {
        if i < |p| - 1 {
          assert HelpedStep(p[i], p[i + 1]);
        }
      }
      LeftAloneSettles(c, p + [d]);
      q := GoOn(c, p + [d]);
    }
  }

  // ----- stranded for good ----------------------------------------------------------------

  ghost predicate EndsHere(c: Conn, d: Conn) {
    exists a :: Ends(a) && Enabled(c, a) && d == Apply(c, a)
  }

  /** From a stranded state, along any path without a disconnect and without destruction. */
  lemma {:induction false} StrandedForGood(tr: seq<Conn>, i: nat, j: nat)
    requires IsPath(tr) && i <= j < |tr| && Stranded(tr[i])
    requires forall k :: i <= k < j ==> !EndsHere(tr[k], tr[k + 1])
    ensures Stranded(tr[j]) && tr[j].queue.done == tr[i].queue.done
    decreases j - i
  {
    hide Stranded, Apply, Enabled, Ends;
    if i < j {
      StrandedForGood(tr, i, j - 1);
      assert Step(tr[j - 1], tr[j - 1 + 1]);
      var a :| Enabled(tr[j - 1], a) && tr[j] == Apply(tr[j - 1], a);
      assert !EndsHere(tr[j - 1], tr[j - 1 + 1]);
      StrandedStays(tr[j - 1], a);
    }
  }

  /** Whoever is stranded has been so since an empty reply to a stage of its handshake. */
  lemma {:induction false} StrandedSince(tr: seq<Conn>, opts: Options, sentinel: bool, hostKnown: bool, i: nat)
    returns (k: nat, a: Action)
    requires IsRun(tr, opts, sentinel, hostKnown) && i < |tr| && Stranded(tr[i])
    ensures k < i && EmptyReply(a) && Enabled(tr[k], a) && tr[k + 1] == Apply(tr[k], a)
    ensures tr[k].link.st in STAGES && forall j :: k < j <= i ==> Stranded(tr[j])
  {
    hide Inv, Stranded, Apply, EmptyReply, Init;
    if i == 0 {
      InitAwaits(opts, sentinel, hostKnown);
      assert false;
    }
    assert Step(tr[i - 1], tr[i - 1 + 1]);
    a :| Enabled(tr[i - 1], a) && tr[i] == Apply(tr[i - 1], a);
    RunsKeepInv(tr, opts, sentinel, hostKnown, i - 1);
    if Stranded(tr[i - 1]) {
      k, a := StrandedSince(tr, opts, sentinel, hostKnown, i - 1);
    } else {
      k := i - 1;
      StrandedByEmptyReply(tr[k], a);
      RepliesAreToStages(tr[k], a);
    }
  }

  lemma RepliesAreToStages(c: Conn, a: Action)
    requires Inv(c) && Enabled(c, a) && EmptyReply(a) && InHandshake(c.link.st)
    ensures c.link.st in STAGES
  {
    hide Conserved, Fates, Stages;
    StagesAre(c.link);
  }

  lemma {:induction false} StrandedAlone(c: Conn, p: seq<Conn>, i: nat)
    requires Stranded(c) && LeftAlone(c, p) && i < |p|
    ensures Stranded(p[i]) && p[i].queue.done == c.queue.done
  {
    hide Stranded, Apply, Enabled;
    if i > 0 {
      StrandedAlone(c, p, i - 1);
      assert OwnStep(p[i - 1], p[i - 1 + 1]);
      var a :| Own(a) && Enabled(p[i - 1], a) && p[i] == Apply(p[i - 1], a);
      StrandedStays(p[i - 1], a);
    }
  }

  /**
   * No event is left behind unless its connection is stranded: in every reachable state between two
   * callbacks, save while waiting for a node's address, some way of being left alone settles all
   * that has been submitted if and only if the connection is not stranded.
   */
  lemma NoEventStranded(tr: seq<Conn>, opts: Options, sentinel: bool, hostKnown: bool, i: nat)
    requires IsRun(tr, opts, sentinel, hostKnown) && i < |tr|
    requires tr[i].pc == Idle && tr[i].alive && tr[i].link.st != WaitSentinel && tr[i].queue.events != []
    ensures (exists p :: LeftAlone(tr[i], p) && SettledBy(tr[i], End(p))) <==> !Stranded(tr[i])
  {
    hide Inv, Stranded;
    var c := tr[i];
    RunsKeepInv(tr, opts, sentinel, hostKnown, i);
    if !Stranded(c) {
      var p := GoOn(c, [c]);
      LeftAloneSettles(c, p);
      EventsCounted(End(p).queue.done);
      HelpedIsAlone(c, p);
    } else {
      SomePending(c);
      forall p | LeftAlone(c, p) ensures !SettledBy(c, End(p)) {
        StrandedAlone(c, p, |p| - 1);
      }
    }
  }

  lemma HelpedIsAlone(c: Conn, p: seq<Conn>)
    requires Helped(c, p)
    ensures LeftAlone(c, p)
  {
    hide Apply, Enabled, Own, EmptyReply;
    forall i | 0 <= i < |p| - 1 ensures OwnStep(p[i], p[i + 1]) {
      assert HelpedStep(p[i], p[i + 1]);
    }
  }

  lemma SomePending(c: Conn)
    requires Inv(c) && c.queue.events != []
    ensures |c.queue.submitted| > |c.queue.done|
  {
    EventsCounted(c.queue.done);
  }

  // ----- every stage can be lost ----------------------------------------------------------

  ghost function After(tr: seq<Conn>, a: Action): seq<Conn>
    requires |tr| > 0 && Enabled(End(tr), a)
  {
    tr + [Apply(End(tr), a)]
  }

  lemma Extends(tr: seq<Conn>, a: Action)
    requires IsPath(tr) && Enabled(End(tr), a)
    ensures IsPath(After(tr, a))
  {
    hide Apply, Enabled;
    var t := After(tr, a);
    forall i | 0 <= i < |t| - 1 ensures Step(t[i], t[i + 1]) {
      if i < |tr| - 1 {
        assert Step(tr[i], tr[i + 1]);
      }
    }
  }

  /** The handshake does not pass over a stage that is needed. */
  lemma {:induction false} NextIsNoLater(o: Options, st: ConnState, stage: ConnState)
    requires InHandshake(st) && InHandshake(stage) && StageNumber(st) < StageNumber(stage) && Needs(o, stage)
    ensures var n := NextStage(o, st);
      InHandshake(n) && n != Connecting && StageNumber(st) < StageNumber(n) <= StageNumber(stage)
    decreases 5 - StageNumber(st)
  {
    var next := STAGES[StageNumber(st)];
    if !Needs(o, next) {
      NextIsNoLater(o, next, stage);
    }
  }

  /** Waiting for the answer to one stage, with an event in the queue. */
  ghost predicate AtStage(tr: seq<Conn>, opts: Options, e: Event, stage: ConnState) {
    && IsRun(tr, opts, false, true)
    && var c := End(tr);
      && c.pc == Idle && c.alive && c.opts == opts && c.queue.events == [e] && !c.wake && c.announcing == 0
      && c.link.st == stage && InHandshake(stage)
      && (c.link.connectPending <==> stage == Connecting) && (c.link.replyPending <==> stage != Connecting)
  }

  lemma ToConnecting(opts: Options, e: Event) returns (tr: seq<Conn>)
    ensures AtStage(tr, opts, e, Connecting)
  {
    tr := [Init(opts, false, true)];
    Extends(tr, Push(e));
    tr := After(tr, Push(e));
    Extends(tr, Announce);
    tr := After(tr, Announce);
    Extends(tr, EventCallback(true, Closing));
    tr := After(tr, EventCallback(true, Closing));
  }

  lemma OneStageOn(tr: seq<Conn>, opts: Options, e: Event, st: ConnState) returns (tr': seq<Conn>)
    requires AtStage(tr, opts, e, st) && NextStage(opts, st) != Ready
    ensures AtStage(tr', opts, e, NextStage(opts, st))
  {
    NextIsStage(opts, st);
    hide NextStage;
    var a := if st == Connecting then ConnectResult(true, true, true, Closing) else Reply(Fine, true, Closing);
    Extends(tr, a);
    tr' := After(tr, a);
  }

  lemma {:induction false} ToStage(tr: seq<Conn>, opts: Options, e: Event, st: ConnState, stage: ConnState)
    returns (tr': seq<Conn>)
    requires AtStage(tr, opts, e, st) && InHandshake(stage) && Needs(opts, stage)
    requires st == stage || StageNumber(st) < StageNumber(stage)
    ensures AtStage(tr', opts, e, stage)
    decreases StageNumber(stage) - StageNumber(st)
  {
    tr' := tr;
    if st != stage {
      NextIsNoLater(opts, st, stage);
      SameNumber(NextStage(opts, st), stage);
      tr' := OneStageOn(tr, opts, e, st);
      tr' := ToStage(tr', opts, e, NextStage(opts, st), stage);
    }
  }

  lemma SameNumber(st: ConnState, stage: ConnState)
    requires InHandshake(st) && InHandshake(stage)
    ensures StageNumber(st) == StageNumber(stage) ==> st == stage
  {
  }

  /** Whatever the options: at every stage of their handshake an empty reply leaves the event stranded. */
  lemma EmptyReplyStrands(opts: Options, e: Event, stage: ConnState) returns (tr: seq<Conn>)
    requires InHandshake(stage) && stage != Connecting && Needs(opts, stage)
    ensures IsRun(tr, opts, false, true)
    ensures Stranded(End(tr)) && End(tr).link.st == stage && End(tr).queue.events == [e]
  {
    hide NextStage, Needs;
    tr := ToConnecting(opts, e);
    tr := ToStage(tr, opts, e, Connecting, stage);
    Extends(tr, Reply(Closed, true, Closing));
    tr := After(tr, Reply(Closed, true, Closing));
  }
}
