/**
 * The asynchronous connection as a transition system: other threads push events and wake the event
 * loop, while the loop's thread runs the callbacks one lock section or one event at a time.
 */
module ConnectionProtocol {

  datatype Option<T> = None | Some(value: T)

  /** A command, or (with `sendsData` false) a request to update the node-slot mapping. */
  datatype Event = Event(id: nat, sendsData: bool)

  /** Why an event fails: "connection is closing", or the exception that was raised. */
  datatype Failure = Closing | Cause(code: int)

  /** `Discarded`: handled by returning false, so nothing was sent and the event is freed. */
  datatype Fate = Handed | Discarded | Failed(why: Failure)

  datatype Settled = Settled(event: Event, fate: Fate)

  datatype ConnState = Broken | NotConnected | Connecting | Authing | SetResp | SetName | SelectingDb
    | EnableReadonly | Ready | WaitSentinel

  datatype Options = Options(user: string, password: string, resp: int, name: string, db: int, readonly: bool)

  predicate NeedAuth(o: Options) {
    o.password != "" || o.user != "default"
  }

  predicate NeedSetResp(o: Options) {
    o.resp > 2
  }

  predicate NeedSetName(o: Options) {
    o.name != ""
  }

  predicate NeedSelectDb(o: Options) {
    o.db != 0
  }

  predicate NeedReadonly(o: Options) {
    o.readonly
  }

  /** Where the loop's thread is: before the swap in `_send`, in its loop, in its handler, in `_fail_events`, ... */
  datatype Pc = Idle | ToSend | Sending | FailRest(why: Failure) | ToFail(err: Option<Failure>) | ToClean | Cleaning

  /** The connection to the server: `sent` and `acked` record the handshake. */
  datatype Link = Link(st: ConnState, ctx: bool, connectPending: bool, replyPending: bool,
                       sent: seq<ConnState>, acked: nat)

  /** The events: `_events`, the vector a callback has swapped out, and the history of both. */
  datatype Queue = Queue(events: seq<Event>, batch: seq<Event>, submitted: seq<Event>, done: seq<Settled>)

  datatype Conn = Conn(opts: Options, hostKnown: bool, link: Link, queue: Queue, err: Option<Failure>, pc: Pc,
                       wake: bool, announcing: nat, alive: bool)

  datatype Answer = Closed | Error(why: Failure) | Fine

  /** What `handle` does with the event at the front of the batch. */
  datatype Outcome = Taken | Thrown(why: Failure)

  /** `ok`, `secure` and `sent` are the outcomes of the foreign calls a step makes; `why` its error. */
  datatype Action =
    | Push(e: Event) | Announce | LearnHost
    | EventCallback(ok: bool, why: Failure)
    | ConnectResult(ok: bool, secure: bool, sent: bool, why: Failure)
    | Reply(answer: Answer, sent: bool, why: Failure)
    | Disconnect(err: Option<Failure>)
    | Destroy
    | Next(outcome: Outcome)

  // ----- the handshake --------------------------------------------------------------------

  predicate InHandshake(st: ConnState) {
    st == Connecting || st == Authing || st == SetResp || st == SetName || st == SelectingDb || st == EnableReadonly
  }

  /** The stage that follows `st`, skipping those the options do not need. */
  function NextStage(o: Options, st: ConnState): ConnState
    decreases 5 - StageNumber(st), if st == Connecting then 1 else 0
  {
    match st
    case Connecting => if NeedAuth(o) then Authing else NextStage(o, Authing)
    case Authing => if NeedSetResp(o) then SetResp else NextStage(o, SetResp)
    case SetResp => if NeedSetName(o) then SetName else NextStage(o, SetName)
    case SetName => if NeedSelectDb(o) then SelectingDb else NextStage(o, SelectingDb)
    case SelectingDb => if NeedReadonly(o) then EnableReadonly else Ready
    case _ => Ready
  }

  const STAGES := [Authing, SetResp, SetName, SelectingDb, EnableReadonly]

  /** Whether the options call for the stage `st`. */
  predicate Needs(o: Options, st: ConnState) {
    match st
    case Authing => NeedAuth(o)
    case SetResp => NeedSetResp(o)
    case SetName => NeedSetName(o)
    case SelectingDb => NeedSelectDb(o)
    case EnableReadonly => NeedReadonly(o)
    case _ => true
  }

  /** The stages among the first `k` that the options call for, in the order of the protocol. */
  function NeededUpTo(o: Options, k: nat): seq<ConnState>
    requires k <= 5
  {
    if k == 0 then [] else NeededUpTo(o, k - 1) + (if Needs(o, STAGES[k - 1]) then [STAGES[k - 1]] else [])
  }

  function Needed(o: Options): seq<ConnState> {
    NeededUpTo(o, 5)
  }

  /** How many of the stages are behind or in progress. */
  function StageNumber(st: ConnState): nat {
    match st
    case Authing => 1
    case SetResp => 2
    case SetName => 3
    case SelectingDb => 4
    case EnableReadonly | Ready => 5
    case _ => 0
  }

  // ----- steps ----------------------------------------------------------------------------

  function Settle(q: Queue, fate: Fate): Queue
    requires q.batch != []
  {
    q.(batch := q.batch[1..], done := q.done + [Settled(q.batch[0], fate)])
  }

  function Swap(q: Queue): Queue {
    q.(batch := q.events, events := [])
  }

  /** `_connect()`. */
  function Connect(c: Conn, ok: bool, why: Failure): Conn {
    if ok then c.(link := c.link.(st := Connecting, ctx := true, connectPending := true))
    else c.(pc := ToFail(Some(why)))
  }

  /** `connect_callback()` without an error, from the handler of `CONNECTING` to `_set_ready()`. */
  function ConnectCallback(c: Conn, secure: bool, sent: bool, why: Failure): Conn {
    if c.link.st == Broken then c
    else if c.link.st == Connecting && !secure then c.(pc := ToFail(Some(why)))
    else
      var n := NextStage(c.opts, c.link.st);
      if n == Ready then c.(link := c.link.(st := Ready), pc := ToSend)
      else if sent then c.(link := c.link.(st := n, replyPending := true, sent := c.link.sent + [n]))
      else c.(pc := ToFail(Some(why)))
  }

  predicate Enabled(c: Conn, a: Action) {
    match a
    case Push(e) => c.alive
    case Announce => c.announcing > 0
    case LearnHost => c.alive
    case EventCallback(_, _) => c.alive && c.pc == Idle && c.wake
    case ConnectResult(_, _, _, _) => c.alive && c.pc == Idle && c.link.connectPending
    case Reply(_, _, _) => c.alive && c.pc == Idle && c.link.replyPending
    case Disconnect(_) => c.alive && c.pc == Idle
    case Destroy => c.alive && c.pc == Idle && !c.wake && c.announcing == 0
    case Next(o) => CanContinue(c, o)
  }

  predicate CanContinue(c: Conn, o: Outcome) {
    c.pc != Idle && (o.Thrown? ==> c.pc == Sending && c.queue.batch != [] && c.queue.batch[0].sendsData)
  }

  function Apply(c: Conn, a: Action): Conn
    requires Enabled(c, a)
  {
    match a
    case Push(e) =>
      c.(queue := c.queue.(events := c.queue.events + [e], submitted := c.queue.submitted + [e]),
         announcing := c.announcing + 1)
    case Announce => c.(announcing := c.announcing - 1, wake := true)
    case LearnHost => c.(hostKnown := true)
    case EventCallback(ok, why) => Callback(c.(wake := false), ok, why)
    case ConnectResult(ok, secure, sent, why) =>
      var c' := c.(link := c.link.(connectPending := false));
      if ok then ConnectCallback(c', secure, sent, why) else c'.(pc := ToFail(Some(why)))
    case Reply(answer, sent, why) =>
      var c' := c.(link := c.link.(replyPending := false));
      (match answer
       case Closed => c'
       case Error(w) => c'.(pc := ToFail(Some(w)))
       case Fine => ConnectCallback(c'.(link := c'.link.(acked := c.link.acked + 1)), true, sent, why))
    case Disconnect(err) => c.(pc := ToFail(err))
    case Destroy => c.(alive := false, pc := ToClean)
    case Next(o) => Continue(c, o)
  }

  /** `event_callback()`. */
  function Callback(c: Conn, ok: bool, why: Failure): Conn {
    match c.link.st
    case WaitSentinel => if c.hostKnown then Connect(c.(link := c.link.(st := NotConnected)), ok, why) else c
    case NotConnected => Connect(c, ok, why)
    case Ready => c.(pc := ToSend)
    case Broken => c.(pc := ToClean)
    case _ => c
  }

  /** The next lock section or event of the callback that is running. */
  function Continue(c: Conn, o: Outcome): Conn
    requires CanContinue(c, o)
  {
    match c.pc
    case ToSend => c.(queue := Swap(c.queue), pc := Sending)
    case Sending =>
      if c.queue.batch == [] then c.(pc := Idle)
      else if o.Thrown? then c.(pc := FailRest(o.why))
      else c.(queue := Settle(c.queue, if c.queue.batch[0].sendsData then Handed else Discarded))
    case FailRest(why) =>
      if c.queue.batch == [] then c.(pc := ToFail(Some(why))) else c.(queue := Settle(c.queue, Failed(why)))
    case ToFail(err) => c.(link := c.link.(ctx := false, st := Broken), err := err, pc := ToClean)
    case ToClean => c.(queue := Swap(c.queue), err := Some(Reason(c.err)), pc := Cleaning)
    case Cleaning =>
      if c.queue.batch == [] then c.(pc := Idle) else c.(queue := Settle(c.queue, Failed(Reason(c.err))))
  }

  function Reason(err: Option<Failure>): Failure {
    if err.Some? then err.value else Closing
  }

  function Init(opts: Options, sentinel: bool, hostKnown: bool): Conn {
    Conn(opts, hostKnown, Link(if sentinel then WaitSentinel else NotConnected, false, false, false, [], 0),
         Queue([], [], [], []), None, Idle, false, 0, true)
  }

  // ----- the invariant --------------------------------------------------------------------

  function EventsOf(done: seq<Settled>): seq<Event> {
    if done == [] then [] else EventsOf(done[..|done| - 1]) + [done[|done| - 1].event]
  }

  /** Every event submitted is settled once, or in the batch, or waiting: in the order of submission. */
  predicate Conserved(q: Queue) {
    q.submitted == EventsOf(q.done) + q.batch + q.events
  }

  predicate Owned(c: Conn) {
    && (c.queue.batch != [] ==> c.pc == Sending || c.pc.FailRest? || c.pc == Cleaning)
    && (c.pc == ToSend || c.pc == Sending || c.pc.FailRest? ==> c.link.st == Ready && c.alive)
    && (c.pc == ToClean || c.pc == Cleaning ==> c.link.st == Broken || !c.alive)
    && (!c.alive ==> c.pc == ToClean || c.pc == Cleaning || c.pc == Idle)
    && (!c.alive && c.pc != ToClean ==> c.queue.events == [])
  }

  predicate Attached(l: Link) {
    && (l.ctx <==> InHandshake(l.st) || l.st == Ready)
    && (l.connectPending ==> l.st == Connecting || l.st == Broken)
    && (l.replyPending ==> (InHandshake(l.st) && l.st != Connecting) || l.st == Broken)
    && !(l.connectPending && l.replyPending)
  }

  predicate SomeFailed(done: seq<Settled>) {
    exists i :: 0 <= i < |done| && done[i].fate.Failed?
  }

  predicate SomeTaken(done: seq<Settled>) {
    exists i :: 0 <= i < |done| && !done[i].fate.Failed?
  }

  /** Once one event has failed, so do all after it. */
  predicate FailedLast(done: seq<Settled>) {
    forall i, j :: 0 <= i < j < |done| && done[i].fate.Failed? ==> done[j].fate.Failed?
  }

  predicate Failing(c: Conn) {
    c.pc.FailRest? || c.pc.ToFail? || c.link.st == Broken || !c.alive
  }

  predicate Complete(o: Options, l: Link) {
    l.sent == Needed(o) && l.acked == |l.sent|
  }

  predicate Fates(c: Conn) {
    && FailedLast(c.queue.done)
    && (SomeFailed(c.queue.done) ==> Failing(c))
    && (SomeTaken(c.queue.done) ==> Complete(c.opts, c.link))
  }

  /** The handshake so far, in every state that has one. */
  predicate Stages(o: Options, l: Link) {
    && Needs(o, l.st) && l.sent <= Needed(o)
    && l.acked + (if l.replyPending then 1 else 0) <= |l.sent|
    && (l.st != Broken ==> l.sent == NeededUpTo(o, StageNumber(l.st)))
    && (l.st == Ready ==> l.acked == |l.sent|)
    && (InHandshake(l.st) && l.replyPending ==> l.acked == |l.sent| - 1)
  }

  /** Whoever finds nothing to do leaves no event behind: the loop has been, or will be, told. */
  predicate NotStranded(c: Conn) {
    c.queue.events != [] && c.alive && (c.pc == Idle || c.pc == Sending || c.pc == Cleaning)
    ==> c.wake || c.announcing > 0 || InHandshake(c.link.st) || c.link.st == WaitSentinel
  }

  predicate Inv(c: Conn) {
    Conserved(c.queue) && Owned(c) && Attached(c.link) && Fates(c) && Stages(c.opts, c.link) && NotStranded(c)
  }

  lemma InitHolds(opts: Options, sentinel: bool, hostKnown: bool)
    ensures Inv(Init(opts, sentinel, hostKnown))
  {
  }

  // ----- every step keeps the invariant ---------------------------------------------------

  lemma {:induction false} UpToIsPrefix(o: Options, k: nat)
    requires k <= 5
    ensures NeededUpTo(o, k) <= Needed(o)
    decreases 5 - k
  {
    if k < 5 {
      UpToIsPrefix(o, k + 1);
    }
  }

  /** One stage on, the handshake is one needed stage longer, or complete. */
  lemma {:induction false} NextStageExtends(o: Options, st: ConnState)
    requires InHandshake(st)
    ensures var n, k := NextStage(o, st), StageNumber(st);
      if n == Ready then NeededUpTo(o, k) == Needed(o)
      else InHandshake(n) && n != Connecting && Needs(o, n) && NeededUpTo(o, StageNumber(n)) == NeededUpTo(o, k) + [n]
    decreases 5 - StageNumber(st)
  {
    if st != EnableReadonly {
      var k := StageNumber(st);
      if !Needs(o, STAGES[k]) {
        assert NeededUpTo(o, k + 1) == NeededUpTo(o, k);
        NextStageExtends(o, STAGES[k]);
      }
    }
  }

  lemma SettleKeeps(q: Queue, fate: Fate)
    requires Conserved(q) && q.batch != []
    ensures Conserved(Settle(q, fate))
  {
    var d := q.done + [Settled(q.batch[0], fate)];
    assert d[..|d| - 1] == q.done;
    assert q.batch == [q.batch[0]] + q.batch[1..];
    assert EventsOf(q.done) + q.batch + q.events == EventsOf(q.done) + [q.batch[0]] + q.batch[1..] + q.events;
  }

  lemma SwapKeeps(q: Queue)
    requires Conserved(q) && q.batch == []
    ensures Conserved(Swap(q))
  {
    assert EventsOf(q.done) + [] + q.events == EventsOf(q.done) + q.events + [];
  }

  lemma SettleFates(c: Conn, fate: Fate)
    requires Fates(c) && c.queue.batch != []
    requires if fate.Failed? then Failing(c) else !Failing(c) && Complete(c.opts, c.link)
    ensures Fates(c.(queue := Settle(c.queue, fate)))
  {
    hide Complete;
    var d := Settle(c.queue, fate).done;
    assert forall i :: 0 <= i < |c.queue.done| ==> d[i] == c.queue.done[i];
  }

  lemma LoopKeepsConserved(c: Conn, o: Outcome)
    requires Conserved(c.queue) && Owned(c) && CanContinue(c, o)
    ensures Conserved(Continue(c, o).queue)
  {
    hide Conserved;
    if c.queue.batch != [] {
      if c.pc != Sending || !o.Thrown? {
        SettleKeeps(c.queue, FateOf(c));
      }
    } else {
      SwapKeeps(c.queue);
    }
  }

  function FateOf(c: Conn): Fate
    requires c.queue.batch != []
  {
    if c.pc.FailRest? then Failed(c.pc.why)
    else if c.pc == Cleaning then Failed(Reason(c.err))
    else if c.queue.batch[0].sendsData then Handed else Discarded
  }

  lemma LoopKeepsFates(c: Conn, o: Outcome)
    requires Owned(c) && Fates(c) && Stages(c.opts, c.link) && CanContinue(c, o)
    ensures Fates(Continue(c, o))
  {
    assert c.link.st == Ready ==> Complete(c.opts, c.link);
    hide Complete, FailedLast;
    if c.queue.batch != [] && c.pc != ToSend && !(c.pc == Sending && o.Thrown?) {
      SettleFates(c, FateOf(c));
      hide Fates, Settle;
    }
  }

  lemma LoopKeepsOwned(c: Conn, o: Outcome)
    requires Owned(c) && NotStranded(c) && CanContinue(c, o)
    ensures Owned(Continue(c, o)) && NotStranded(Continue(c, o))
  {
  }

  lemma LoopKeepsLink(c: Conn, o: Outcome)
    requires Attached(c.link) && Stages(c.opts, c.link) && CanContinue(c, o)
    ensures Attached(Continue(c, o).link) && Stages(c.opts, Continue(c, o).link)
    ensures Continue(c, o).opts == c.opts
  {
    hide Needed, NeededUpTo;
  }

  lemma NextKeepsInv(c: Conn, o: Outcome)
    requires Inv(c) && CanContinue(c, o)
    ensures Inv(Continue(c, o))
  {
    hide Conserved, Fates, Owned, NotStranded, Attached, Stages, Continue, CanContinue;
    LoopKeepsConserved(c, o);
    LoopKeepsFates(c, o);
    LoopKeepsOwned(c, o);
    LoopKeepsLink(c, o);
  }

  /** All stages so far are answered, and the next may start. */
  predicate Answered(o: Options, l: Link) {
    && Attached(l) && !l.connectPending && !l.replyPending && InHandshake(l.st) && Needs(o, l.st)
    && l.sent <= Needed(o) && l.acked == |l.sent| && l.sent == NeededUpTo(o, StageNumber(l.st))
  }

  lemma NextStageKeeps(o: Options, l: Link)
    requires Answered(o, l)
    ensures Attached(l) && Stages(o, l)
    ensures var n := NextStage(o, l.st);
      if n == Ready then
        Attached(l.(st := Ready)) && Stages(o, l.(st := Ready)) && Complete(o, l)
      else
        var l' := l.(st := n, replyPending := true, sent := l.sent + [n]);
        Attached(l') && Stages(o, l') && !Complete(o, l) && InHandshake(n)
  {
    NextStageExtends(o, l.st);
    UpToIsPrefix(o, StageNumber(NextStage(o, l.st)));
    hide NeededUpTo, NextStage, Needs;
  }

  lemma ConnectCallbackKeeps(c: Conn, secure: bool, sent: bool, why: Failure)
    requires Conserved(c.queue) && Owned(c) && Fates(c) && NotStranded(c) && c.alive && c.pc == Idle
    requires if c.link.st == Broken then Attached(c.link) && Stages(c.opts, c.link) else Answered(c.opts, c.link)
    ensures Inv(ConnectCallback(c, secure, sent, why))
  {
    hide Conserved, FailedLast, SomeFailed, SomeTaken, Needed, NeededUpTo, Needs;
    if c.link.st != Broken {
      assert InHandshake(c.link.st);
      NextStageKeeps(c.opts, c.link);
      hide NextStage, Attached, Stages, Answered;
    }
  }

  lemma PushKeepsInv(c: Conn, e: Event)
    requires Inv(c) && Enabled(c, Push(e))
    ensures Inv(Apply(c, Push(e)))
  {
    hide Stages, Attached, FailedLast, SomeFailed, SomeTaken, EventsOf, Complete;
    var q := c.queue;
    assert EventsOf(q.done) + q.batch + (q.events + [e]) == EventsOf(q.done) + q.batch + q.events + [e];
  }

  lemma ConnectKeepsInv(c: Conn, ok: bool, why: Failure)
    requires Inv(c) && (c.link.st == NotConnected || c.link.st == WaitSentinel) && c.alive && c.pc == Idle
    ensures Inv(Connect(c.(wake := false, link := c.link.(st := NotConnected)), ok, why))
  {
    hide Conserved, FailedLast, SomeFailed, SomeTaken, Needed;
    assert c.link.sent == [];
  }

  lemma CallbackKeepsInv(c: Conn, ok: bool, why: Failure)
    requires Inv(c) && Enabled(c, EventCallback(ok, why))
    ensures Inv(Apply(c, EventCallback(ok, why)))
  {
    hide Needed, NeededUpTo, Conserved, FailedLast, SomeFailed, SomeTaken, Complete;
    if c.link.st == NotConnected || (c.link.st == WaitSentinel && c.hostKnown) {
      ConnectKeepsInv(c, ok, why);
      hide Inv, Connect;
    } else {
      hide Connect, Stages, Attached;
    }
  }

  lemma OtherStepKeepsInv(c: Conn, a: Action)
    requires Inv(c) && Enabled(c, a) && (a.Announce? || a.LearnHost? || a.Disconnect? || a.Destroy?)
    ensures Inv(Apply(c, a))
  {
    hide Stages, Attached, Conserved, FailedLast, SomeFailed, SomeTaken, Complete;
  }

  lemma ConnectResultKeepsInv(c: Conn, a: Action)
    requires Inv(c) && Enabled(c, a) && a.ConnectResult?
    ensures Inv(Apply(c, a))
  {
    assert c.link.st == Connecting ==> c.link.sent == [];
    hide NeededUpTo, Conserved, FailedLast, SomeFailed, SomeTaken, ConnectCallback;
    if a.ok {
      ConnectCallbackKeeps(c.(link := c.link.(connectPending := false)), a.secure, a.sent, a.why);
    }
  }

  lemma AnswerAdvances(o: Options, l: Link)
    requires Attached(l) && Stages(o, l) && l.replyPending
    ensures !Complete(o, l)
    ensures var l' := l.(replyPending := false, acked := l.acked + 1);
      if l.st == Broken then Attached(l') && Stages(o, l') else Answered(o, l')
  {
    hide NeededUpTo, Needs;
  }

  lemma ReplyKeepsInv(c: Conn, a: Action)
    requires Inv(c) && Enabled(c, a) && a.Reply?
    ensures Inv(Apply(c, a))
  {
    hide Conserved, FailedLast, SomeFailed, SomeTaken, ConnectCallback;
    AnswerAdvances(c.opts, c.link);
    if a.answer == Fine {
      hide Attached, Stages, Complete, Answered;
      ConnectCallbackKeeps(c.(link := c.link.(replyPending := false, acked := c.link.acked + 1)), true, a.sent, a.why);
    } else {
      hide Needed, NeededUpTo, Needs;
    }
  }

  lemma StepKeepsInv(c: Conn, a: Action)
    requires Inv(c) && Enabled(c, a)
    ensures Inv(Apply(c, a))
  {
    hide Inv, Continue;
    match a
    case Push(e) =>
      hide Apply;
      PushKeepsInv(c, e);
    case Next(o) => NextKeepsInv(c, o);
    case ConnectResult(_, _, _, _) =>
      hide Apply;
      ConnectResultKeepsInv(c, a);
    case Reply(_, _, _) =>
      hide Apply;
      ReplyKeepsInv(c, a);
    case EventCallback(ok, why) =>
      hide Apply;
      CallbackKeepsInv(c, ok, why);
    case _ =>
      hide Apply;
      OtherStepKeepsInv(c, a);
  }
}
