/**
 * The methods of `AsyncConnection`, with their loops and branches. `path` records the run: every
 * method extends it by steps of `ConnectionProtocol`, other threads acting wherever they can.
 */
module AsyncConnections {
  import opened ConnectionProtocol
  import opened ConnectionRuns

  class AsyncConnection {
    const opts: Options
    var hostKnown: bool
    var state: ConnState
    var ctx: bool
    var err: Option<Failure>
    var events: seq<Event>
    var alive: bool
    ghost var path: seq<Conn>
    /** What became of the calls into other code, in order. */
    ghost var calls: seq<bool>

    ghost function Now(): Conn
      requires path != []
      reads this
    {
      path[|path| - 1]
    }

    ghost predicate Valid()
      reads this
    {
      && path != [] && IsPath(path) && Inv(Now())
      && Now().opts == opts && Now().hostKnown == hostKnown && Now().link.st == state && Now().link.ctx == ctx
      && Now().err == err && Now().queue.events == events && Now().alive == alive
    }

    constructor (opts: Options, sentinel: bool, hostKnown: bool)
      ensures Valid() && path == [Init(opts, sentinel, hostKnown)]
      ensures state == (if sentinel then WaitSentinel else NotConnected) && !ctx && events == [] && alive
    {
      this.opts, this.hostKnown := opts, hostKnown;
      state := if sentinel then WaitSentinel else NotConnected;
      ctx, err, events, alive := false, None, [], true;
      calls := [];
      path := [Init(opts, sentinel, hostKnown)];
    }

    /** The run goes on with the step `a`. */
    ghost method Record(a: Action)
      requires path != [] && IsPath(path) && Inv(Now()) && Enabled(Now(), a)
      modifies this`path
      ensures path == old(path) + [Apply(old(Now()), a)] && IsPath(path) && Inv(Now())
    {
      hide Inv, Apply, Enabled;
      StepKeepsInv(Now(), a);
      PathGrows(path, a);
      path := path + [Apply(Now(), a)];
    }

    /** The loop of the running callback settles the event at the front of its vector. */
    ghost method SettleFront()
      requires path != [] && IsPath(path) && Inv(Now()) && Now().queue.batch != []
      requires Now().pc == Sending || Now().pc.FailRest? || Now().pc == Cleaning
      modifies this`path
      ensures path != [] && path == old(path) + [Now()] && IsPath(path) && Inv(Now())
      ensures Now() == old(Now()).(queue := Settle(old(Now()).queue, FateOf(old(Now()))))
    {
      hide Inv, IsPath, Settle;
      Record(Next(Taken));
    }

    /** The running callback has swapped the waiting events out. */
    ghost method SwapOut()
      requires path != [] && IsPath(path) && Inv(Now()) && (Now().pc == ToSend || Now().pc == ToClean)
      modifies this`path
      ensures path != [] && path == old(path) + [Now()] && IsPath(path) && Inv(Now())
      ensures var c := old(Now());
        Now() == if c.pc == ToSend then c.(queue := Swap(c.queue), pc := Sending)
                 else c.(queue := Swap(c.queue), pc := Cleaning, err := Some(Reason(c.err)))
    {
      hide Inv, IsPath, Swap;
      Record(Next(Taken));
    }

    /** The event at the front of the vector could not be sent. */
    ghost method HandleThrew(why: Failure)
      requires path != [] && IsPath(path) && Inv(Now()) && Now().queue.batch != [] && Now().queue.batch[0].sendsData
      requires Now().pc == Sending
      modifies this`path
      ensures path != [] && path == old(path) + [Now()] && IsPath(path) && Inv(Now())
      ensures Now() == old(Now()).(pc := FailRest(why))
    {
      hide Inv, IsPath;
      Record(Next(Thrown(why)));
    }

    /** The loop of the running callback is over. */
    ghost method LoopOver()
      requires path != [] && IsPath(path) && Inv(Now()) && Now().queue.batch == []
      requires Now().pc == Sending || Now().pc.FailRest? || Now().pc == Cleaning
      modifies this`path
      ensures path != [] && path == old(path) + [Now()] && IsPath(path) && Inv(Now())
      ensures Now() == old(Now()).(pc := if old(Now()).pc.FailRest? then ToFail(Some(old(Now()).pc.why)) else Idle)
    {
      hide Inv, IsPath;
      Record(Next(Taken));
    }

    // ----- what is not this thread or not this class --------------------------------------

    /** A call into the client library or the operating system; `why` is its error, if it fails. */
    method ForeignCall() returns (ok: bool, why: Failure)
      modifies this`calls
      ensures calls == old(calls) + [ok]
    {
      ok := *;
      var code: int := *;
      why := Cause(code);
      calls := calls + [ok];
    }

    /** Other threads, between two steps of this one: `send()` and `update_node_info()`, any number of times. */
    method Others()
      requires Valid()
      modifies this`events, this`hostKnown, this`path
      ensures Valid() && old(path) <= path && Undisturbed(old(Now()), Now())
    {
      hide Inv, IsPath;
      var n: int := *;
      for i := 0 to if alive && n > 0 then n else 0
        invariant Valid() && old(path) <= path && Undisturbed(old(Now()), Now())
      {
        var kind: int := *;
        if kind == 0 {
          var id: int := *;
          var sendsData: bool := *;
          var e := Event(if id < 0 then 0 else id, sendsData);
          Record(Push(e));
          events := events + [e];
        } else if kind == 1 {
          Record(LearnHost);
          hostKnown := true;
        } else {
          ghost var announced := Now().announcing > 0;
          if announced {
            Record(Announce);
          }
        }
      }
    }

    // ----- send ---------------------------------------------------------------------------

    /** `send()`: the event is queued, then the event loop is told. */
    method Send(e: Event)
      requires Valid() && alive
      modifies this`events, this`path
      ensures Valid() && old(path) <= path
      ensures events == old(events) + [e] && Now().queue.submitted == old(Now().queue.submitted) + [e] && Now().wake
      ensures Now().queue.done == old(Now().queue.done) && Now().link == old(Now().link) && Now().pc == old(Now().pc)
    {
      hide Inv, IsPath;
      events := events + [e];
      Record(Push(e));
      Record(Announce);
    }

    /** `_get_events()`: the vector is swapped out under the lock. */
    method GetEvents() returns (taken: seq<Event>)
      modifies this`events
      ensures taken == old(events) && events == []
    {
      taken := events;
      events := [];
    }

    /** The loop of `_clean_up()`: every event swapped out fails with `_err`. */
    method FailBatch(taken: seq<Event>, why: Failure)
      requires Valid() && Now().pc == Cleaning && Now().queue.batch == taken && err == Some(why)
      modifies this`events, this`hostKnown, this`path
      ensures Valid() && old(path) <= path && Now().pc == Idle && Now().link == old(Now().link)
      ensures old(Now().queue.done) <= Now().queue.done && |Now().queue.done| == |old(Now().queue.done)| + |taken|
      ensures old(Now().queue.submitted) <= Now().queue.submitted
      ensures forall k :: |old(Now().queue.done)| <= k < |Now().queue.done| ==> Now().queue.done[k].fate == Failed(why)
    {
      hide Inv, IsPath, Apply, Enabled;
      ghost var n := |Now().queue.done|;
      for i := 0 to |taken|
        invariant Valid() && old(path) <= path && Now().pc == Cleaning && Now().queue.batch == taken[i..]
        invariant Now().link == old(Now().link) && err == Some(why)
        invariant old(Now().queue.done) <= Now().queue.done && |Now().queue.done| == n + i
        invariant old(Now().queue.submitted) <= Now().queue.submitted
        invariant forall k :: n <= k < |Now().queue.done| ==> Now().queue.done[k].fate == Failed(why)
      {
        Others();
        SettleFront();
      }
      LoopOver();
    }

    /** `_clean_up()`: on return every event sent before the call has failed, unless it was settled before. */
    method CleanUp()
      requires Valid() && Now().pc == ToClean
      modifies this`events, this`hostKnown, this`err, this`path
      ensures Valid() && old(path) <= path && Now().pc == Idle
      ensures Now().link == old(Now().link) && Settles(old(Now()), Now())
      ensures forall k :: |old(Now().queue.done)| <= k < |Now().queue.done| ==>
        Now().queue.done[k].fate == Failed(if old(Now().err).Some? then old(Now().err).value else Closing)
      ensures !alive ==> EventsOf(Now().queue.done) == Now().queue.submitted
    {
      hide Inv, IsPath, Apply, Enabled;
      Others();
      if err == None {
        err := Some(Closing);
      }
      var taken := GetEvents();
      SettledSoFar(Now());
      SwapOut();
      FailBatch(taken, err.value);
      if !alive {
        NothingLeft(Now());
      }
    }

    /** `_fail_events()`. */
    method FailEvents(e: Option<Failure>)
      requires Valid() && Now().pc == ToFail(e)
      modifies this`events, this`hostKnown, this`err, this`ctx, this`state, this`path
      ensures Valid() && old(path) <= path && Now().pc == Idle
      ensures state == Broken && !ctx && Settles(old(Now()), Now())
      ensures forall k :: |old(Now().queue.done)| <= k < |Now().queue.done| ==>
        Now().queue.done[k].fate == Failed(if e.Some? then e.value else Closing)
    {
      hide Inv, IsPath;
      ctx := false;
      err := e;
      state := Broken;
      Record(Next(Taken));
      CleanUp();
    }

    /** `disconnect()`, as a callback of its own or from within one. */
    method Disconnect(e: Option<Failure>)
      requires Valid() && alive && (Now().pc == Idle || Now().pc == ToFail(e))
      modifies this`events, this`hostKnown, this`err, this`ctx, this`state, this`path
      ensures Valid() && old(path) <= path && Now().pc == Idle
      ensures state == Broken && !ctx && Settles(old(Now()), Now())
      ensures forall k :: |old(Now().queue.done)| <= k < |Now().queue.done| ==>
        Now().queue.done[k].fate == Failed(if e.Some? then e.value else Closing)
    {
      hide Inv, IsPath;
      if Now().pc == Idle {
        Record(Action.Disconnect(e));
      }
      FailEvents(e);
    }

    /** `AsyncEvent::handle`: only a command sends data, and only then can the call throw. */
    method Handle(e: Event) returns (thrown: Option<Failure>)
      modifies this`calls
      ensures thrown.Some? ==> e.sendsData
      ensures calls == if e.sendsData then old(calls) + [thrown == None] else old(calls)
    {
      thrown := None;
      if e.sendsData {
        var ok, why := ForeignCall();
        if !ok {
          thrown := Some(why);
        }
      }
    }

    /** The handler of `_send()`: the event that threw and all after it fail, and so does the connection. */
    method FailFrom(taken: seq<Event>, from: nat, why: Failure)
      requires Valid() && alive && Now().pc == FailRest(why) && from <= |taken| && Now().queue.batch == taken[from..]
      modifies this`events, this`hostKnown, this`err, this`ctx, this`state, this`path
      ensures Valid() && old(path) <= path && Now().pc == Idle && alive == old(alive)
      ensures state == Broken && Settles(old(Now()), Now())
      ensures forall k :: |old(Now().queue.done)| <= k < |Now().queue.done| ==> Now().queue.done[k].fate == Failed(why)
    {
      hide Inv, IsPath, Apply, Enabled;
      ghost var n := |Now().queue.done|;
      for idx := from to |taken|
        invariant Valid() && old(path) <= path && Now().pc == FailRest(why) && Now().queue.batch == taken[idx..]
        invariant alive && old(Now().queue.done) <= Now().queue.done && |Now().queue.done| == n + idx - from
        invariant old(Now().queue.submitted) <= Now().queue.submitted
        invariant forall k :: n <= k < |Now().queue.done| ==> Now().queue.done[k].fate == Failed(why)
      {
        Others();
        SettleFront();
      }
      LoopOver();
      Disconnect(Some(why));
    }

    /** One turn of the loop of `_send()`: the event at the front is taken, or throws. */
    method SendFront(e: Event) returns (thrown: Option<Failure>)
      requires Valid() && alive && state == Ready && Now().pc == Sending
      requires Now().queue.batch != [] && Now().queue.batch[0] == e
      modifies this`events, this`hostKnown, this`calls, this`path
      ensures Valid() && old(path) <= path && old(Now().queue.submitted) <= Now().queue.submitted
      ensures thrown.Some? ==> e.sendsData
      ensures thrown.Some? ==> Now().pc == FailRest(thrown.value)
      ensures thrown.Some? ==> Now().queue.batch == old(Now().queue.batch) && Now().queue.done == old(Now().queue.done)
      ensures thrown == None ==> Now().pc == Sending && Now().queue.batch == old(Now().queue.batch)[1..]
      ensures thrown == None ==>
        |Now().queue.done| == |old(Now().queue.done)| + 1 && old(Now().queue.done) <= Now().queue.done
      ensures thrown == None ==> !Now().queue.done[|Now().queue.done| - 1].fate.Failed?
      ensures calls == if e.sendsData then old(calls) + [thrown == None] else old(calls)
    {
      hide Inv, IsPath, Apply, Enabled;
      Others();
      thrown := Handle(e);
      if thrown.Some? {
        HandleThrew(thrown.value);
      } else {
        SettleFront();
      }
    }

    /** The loop of `_send()`; `thrown` says at which event it ended, if it did not get through. */
    method SendBatch(taken: seq<Event>) returns (idx: nat, thrown: Option<Failure>)
      requires Valid() && alive && state == Ready && Now().pc == Sending && Now().queue.batch == taken
      modifies this`events, this`hostKnown, this`calls, this`path
      ensures Valid() && old(path) <= path && idx <= |taken| && Now().queue.batch == taken[idx..]
      ensures if thrown == None then idx == |taken| && Now().pc == Idle else Now().pc == FailRest(thrown.value)
      ensures old(Now().queue.done) <= Now().queue.done && |Now().queue.done| == |old(Now().queue.done)| + idx
      ensures old(Now().queue.submitted) <= Now().queue.submitted
      ensures forall k :: |old(Now().queue.done)| <= k < |Now().queue.done| ==> !Now().queue.done[k].fate.Failed?
      ensures old(calls) <= calls && (thrown == None <==> AllWell(old(calls), calls))
      ensures |calls| == |old(calls)| + Commands(taken[..idx]) + if thrown == None then 0 else 1
    {
      CallsGoOn(calls);
      hide Inv, IsPath, Apply, Enabled, Init, Settle, AllWell;
      ghost var n := |Now().queue.done|;
      idx, thrown := 0, None;
      while idx < |taken|
        invariant idx <= |taken| && thrown == None
        invariant old(calls) <= calls && AllWell(old(calls), calls)
        invariant |calls| == |old(calls)| + Commands(taken[..idx])
        invariant Valid() && alive && old(path) <= path && Now().pc == Sending && Now().queue.batch == taken[idx..]
        invariant old(Now().queue.done) <= Now().queue.done && |Now().queue.done| == n + idx
        invariant old(Now().queue.submitted) <= Now().queue.submitted
        invariant forall k :: n <= k < |Now().queue.done| ==> !Now().queue.done[k].fate.Failed?
      {
        thrown := SendFront(taken[idx]);
        if thrown.Some? {
          return;
        }
        assert taken[..idx + 1][..idx] == taken[..idx];
        idx := idx + 1;
      }
      LoopOver();
    }

    method TakeBatch() returns (taken: seq<Event>)
      requires Valid() && Now().pc == ToSend
      modifies this`events, this`hostKnown, this`path
      ensures Valid() && old(path) <= path && state == Ready && ctx && alive
      ensures Now().pc == Sending && Now().queue.batch == taken && Now().queue.done == old(Now().queue.done)
      ensures old(Now().queue.submitted) <= Now().queue.submitted
      ensures |Now().queue.submitted| == |Now().queue.done| + |taken|
    {
      InvSending(Now());
      hide Inv, IsPath, Apply, Enabled, Init;
      Others();
      taken := GetEvents();
      SettledSoFar(Now());
      SwapOut();
    }

    /**
     * `_send()`: the waiting events are taken one by one, in order; if one throws, it and all that
     * follow fail, and so does the connection. On return nothing sent before the call is pending.
     */
    method SendPending()
      requires Valid() && Now().pc == ToSend
      modifies this`events, this`hostKnown, this`err, this`ctx, this`state, this`calls, this`path
      ensures Valid() && old(path) <= path && Now().pc == Idle && alive == old(alive)
      ensures Settles(old(Now()), Now())
      ensures state == Ready || state == Broken
      ensures state == Ready ==> forall k :: |old(Now().queue.done)| <= k < |Now().queue.done| ==>
        !Now().queue.done[k].fate.Failed?
      ensures old(calls) <= calls && (state == Ready <==> AllWell(old(calls), calls))
    {
      hide Inv, IsPath, Apply, Enabled, Init, AllWell;
      var taken := TakeBatch();
      assert ctx;
      var idx, thrown := SendBatch(taken);
      if thrown.Some? {
        ghost var mid := Now();
        FailFrom(taken, idx, thrown.value);
        SettlesAfter(old(Now()), mid, Now());
      }
    }

    // ----- connecting ---------------------------------------------------------------------

    /** Entering `event_callback()` in a state in which it does not connect. */
    ghost method Enter()
      requires Valid() && alive && Now().pc == Idle && Now().wake
      requires state != NotConnected && (state == WaitSentinel ==> !hostKnown)
      modifies this`path
      ensures Valid() && path == old(path) + [Now()]
      ensures Now() == old(Now()).(
        wake := false, pc := if state == Ready then ToSend else if state == Broken then ToClean else Idle)
    {
      hide Inv, IsPath;
      Record(Action.EventCallback(true, Closing));
    }

    /** `event_callback()`, called once the loop has been told. */
    method EventCallback()
      requires Valid() && alive && Now().pc == Idle && Now().wake
      modifies this`events, this`hostKnown, this`err, this`ctx, this`state, this`calls, this`path
      ensures Valid() && old(path) <= path && Now().pc == Idle
      ensures old(state) == Ready || state == Broken ==> Settles(old(Now()), Now())
      ensures old(state) == Ready ==> state == Ready || state == Broken
      ensures old(state) == Broken ==> state == Broken
      ensures old(state) == NotConnected || (old(state) == WaitSentinel && old(hostKnown)) ==>
        state == if ctx then Connecting else Broken
      ensures InHandshake(old(state)) || (old(state) == WaitSentinel && !old(hostKnown)) ==>
        state == old(state) && Now().link == old(Now().link) && Now().queue == old(Now().queue)
      ensures old(calls) <= calls && (state == Broken != old(state) <==> !AllWell(old(calls), calls))
    {
      CallsGoOn(calls);
      InvAlive(Now());
      hide Inv, IsPath, Apply, Enabled, Settles, Init, AllWell;
      match state {
        case WaitSentinel => ConnectWithSentinel();
        case NotConnected => Connect();
        case Ready => CallbackWhenReady();
        case Broken => CallbackWhenBroken();
        case _ => Enter();
      }
    }

    method CallbackWhenReady()
      requires Valid() && alive && Now().pc == Idle && Now().wake && state == Ready
      modifies this`events, this`hostKnown, this`err, this`ctx, this`state, this`calls, this`path
      ensures Valid() && old(path) <= path && Now().pc == Idle
      ensures Settles(old(Now()), Now()) && (state == Ready || state == Broken)
      ensures old(calls) <= calls && (state == Ready <==> AllWell(old(calls), calls))
    {
      hide Inv, IsPath, Settles, AllWell;
      Enter();
      ghost var mid := Now();
      SendPending();
      SettlesSame(old(Now()), mid, Now());
    }

    method CallbackWhenBroken()
      requires Valid() && alive && Now().pc == Idle && Now().wake && state == Broken
      modifies this`events, this`hostKnown, this`err, this`path
      ensures Valid() && old(path) <= path && Now().pc == Idle && Settles(old(Now()), Now())
    {
      hide Inv, IsPath, Settles;
      Enter();
      ghost var mid := Now();
      CleanUp();
      SettlesSame(old(Now()), mid, Now());
    }

    method ConnectWithSentinel()
      requires Valid() && alive && Now().pc == Idle && Now().wake && state == WaitSentinel
      modifies this`events, this`hostKnown, this`err, this`ctx, this`state, this`calls, this`path
      ensures Valid() && old(path) <= path && Now().pc == Idle
      ensures state == if old(hostKnown) then (if ctx then Connecting else Broken) else WaitSentinel
      ensures state == Broken ==> Settles(old(Now()), Now())
      ensures state == WaitSentinel ==> Now().link == old(Now().link) && Now().queue == old(Now().queue)
      ensures calls == if old(hostKnown) then old(calls) + [state == Connecting] else old(calls)
    {
      CallsGoOn(calls);
      InvAlive(Now());
      hide Inv, IsPath;
      if !hostKnown {
        Enter();
        return;
      }
      state := NotConnected;
      Connect();
    }

    /** `_connect()`; the state may just have been moved on from `WAIT_SENTINEL`. */
    method Connect()
      requires path != [] && IsPath(path) && Inv(Now()) && alive && Now().pc == Idle && Now().wake && !ctx
      requires Now().opts == opts && Now().hostKnown == hostKnown && Now().err == err && Now().queue.events == events
      requires Now().link.ctx == ctx && Now().alive == alive && state == NotConnected
      requires Now().link.st == NotConnected || (Now().link.st == WaitSentinel && hostKnown)
      modifies this`events, this`hostKnown, this`err, this`ctx, this`state, this`calls, this`path
      ensures Valid() && old(path) <= path && Now().pc == Idle
      ensures state == if ctx then Connecting else Broken
      ensures state == Broken ==> Settles(old(Now()), Now())
      ensures calls == old(calls) + [state == Connecting]
    {
      hide Inv, IsPath;
      var ok, why := ForeignCall();
      Record(Action.EventCallback(ok, why));
      if ok {
        ctx := true;
        state := Connecting;
      } else {
        FailEvents(Some(why));
      }
    }

    // ----- the handshake ------------------------------------------------------------------

    /** At the start of `connect_callback()`, for a reply or for the result of connecting. */
    ghost predicate Entering(reply: bool)
      reads this
    {
      && Valid() && alive && Now().pc == Idle && InHandshake(state)
      && if reply then Now().link.replyPending && state != Connecting
         else Now().link.connectPending && state == Connecting
    }

    ghost function Entry(reply: bool, secure: bool, sent: bool, why: Failure): Action {
      if reply then Reply(Fine, sent, why) else ConnectResult(true, secure, sent, why)
    }

    /** `_auth()`, `_set_resp()`, `_set_name()`, `_select_db()`, `_enable_readonly()`, by the state each sets. */
    method SendStage(stage: ConnState, ghost reply: bool) returns (thrown: Option<Failure>)
      requires Entering(reply) && stage == NextStage(opts, state) && stage != Ready
      modifies this`state, this`calls, this`path
      ensures Valid() && old(path) <= path && Now().queue == old(Now().queue)
      ensures thrown == None ==> Now().pc == Idle && state == stage && MovedOn(old(Now()), Now())
      ensures thrown.Some? ==> Now().pc == ToFail(thrown) && Unmoved(old(Now()), Now())
      ensures calls == old(calls) + [thrown == None]
    {
      hide Inv, IsPath, NextStage;
      var sent, why := ForeignCall();
      Record(Entry(reply, true, sent, why));
      if !sent {
        return Some(why);
      }
      state := stage;
      return None;
    }

    /** `_set_ready()`: pending commands are sent. */
    method SetReady(ghost reply: bool)
      requires Entering(reply) && NextStage(opts, state) == Ready
      modifies this`events, this`hostKnown, this`err, this`ctx, this`state, this`calls, this`path
      ensures Valid() && old(path) <= path && Now().pc == Idle && alive == old(alive) && Settles(old(Now()), Now())
      ensures (state == Ready || state == Broken) && MovedOn(old(Now()), Now())
      ensures old(calls) <= calls && (state == Ready <==> AllWell(old(calls), calls))
      ensures old(Now().queue.submitted) <= Now().queue.submitted
    {
      hide Inv, IsPath, NextStage, AllWell;
      Record(Entry(reply, true, true, Closing));
      state := Ready;
      SendPending();
    }

    method ConnectingCallback(ghost reply: bool) returns (thrown: Option<Failure>)
      requires Entering(reply) && state == Connecting
      modifies this`events, this`hostKnown, this`err, this`ctx, this`state, this`calls, this`path
      ensures Valid() && old(path) <= path && old(Now().queue.submitted) <= Now().queue.submitted
      ensures Now().pc == if thrown == None then Idle else ToFail(thrown)
      ensures alive == old(alive) && if thrown == None then MovedOn(old(Now()), Now()) else Unmoved(old(Now()), Now())
      ensures old(calls) <= calls && (thrown == None && state != Broken <==> AllWell(old(calls), calls))
      ensures NextStage(opts, old(state)) != Ready && thrown == None ==> |calls| == |old(calls)| + 2
      ensures old(state) == Connecting ==> |calls| > |old(calls)|
    {
      CallsGoOn(calls);
      hide Inv, IsPath, AllWell, MovedOn, Settles, Init;
      thrown := None;
      var secure, why := ForeignCall();
      assert AllWell(old(calls), calls) <==> secure;
      if !secure {
        Record(Entry(reply, false, false, why));
        return Some(why);
      }
      if NeedAuth(opts) {
        thrown := SendStage(Authing, reply);
      } else if NeedSetResp(opts) {
        thrown := SendStage(SetResp, reply);
      } else if NeedSetName(opts) {
        thrown := SendStage(SetName, reply);
      } else if NeedSelectDb(opts) {
        thrown := SendStage(SelectingDb, reply);
      } else if NeedReadonly(opts) {
        thrown := SendStage(EnableReadonly, reply);
      } else {
        SetReady(reply);
      }
    }

    method AuthingCallback(ghost reply: bool) returns (thrown: Option<Failure>)
      requires Entering(reply) && state == Authing
      modifies this`events, this`hostKnown, this`err, this`ctx, this`state, this`calls, this`path
      ensures Valid() && old(path) <= path && old(Now().queue.submitted) <= Now().queue.submitted
      ensures Now().pc == if thrown == None then Idle else ToFail(thrown)
      ensures alive == old(alive) && if thrown == None then MovedOn(old(Now()), Now()) else Unmoved(old(Now()), Now())
      ensures old(calls) <= calls && (thrown == None && state != Broken <==> AllWell(old(calls), calls))
      ensures NextStage(opts, old(state)) != Ready && thrown == None ==> |calls| == |old(calls)| + 1
    {
      CallsGoOn(calls);
      hide Inv, IsPath, AllWell;
      thrown := None;
      if NeedSetResp(opts) {
        thrown := SendStage(SetResp, reply);
      } else if NeedSetName(opts) {
        thrown := SendStage(SetName, reply);
      } else if NeedSelectDb(opts) {
        thrown := SendStage(SelectingDb, reply);
      } else if NeedReadonly(opts) {
        thrown := SendStage(EnableReadonly, reply);
      } else {
        SetReady(reply);
      }
    }

    method SetRespCallback(ghost reply: bool) returns (thrown: Option<Failure>)
      requires Entering(reply) && state == SetResp
      modifies this`events, this`hostKnown, this`err, this`ctx, this`state, this`calls, this`path
      ensures Valid() && old(path) <= path && old(Now().queue.submitted) <= Now().queue.submitted
      ensures Now().pc == if thrown == None then Idle else ToFail(thrown)
      ensures alive == old(alive) && if thrown == None then MovedOn(old(Now()), Now()) else Unmoved(old(Now()), Now())
      ensures old(calls) <= calls && (thrown == None && state != Broken <==> AllWell(old(calls), calls))
      ensures NextStage(opts, old(state)) != Ready && thrown == None ==> |calls| == |old(calls)| + 1
    {
      CallsGoOn(calls);
      hide Inv, IsPath, AllWell;
      thrown := None;
      if NeedSetName(opts) {
        thrown := SendStage(SetName, reply);
      } else if NeedSelectDb(opts) {
        thrown := SendStage(SelectingDb, reply);
      } else if NeedReadonly(opts) {
        thrown := SendStage(EnableReadonly, reply);
      } else {
        SetReady(reply);
      }
    }

    method SetNameCallback(ghost reply: bool) returns (thrown: Option<Failure>)
      requires Entering(reply) && state == SetName
      modifies this`events, this`hostKnown, this`err, this`ctx, this`state, this`calls, this`path
      ensures Valid() && old(path) <= path && old(Now().queue.submitted) <= Now().queue.submitted
      ensures Now().pc == if thrown == None then Idle else ToFail(thrown)
      ensures alive == old(alive) && if thrown == None then MovedOn(old(Now()), Now()) else Unmoved(old(Now()), Now())
      ensures old(calls) <= calls && (thrown == None && state != Broken <==> AllWell(old(calls), calls))
      ensures NextStage(opts, old(state)) != Ready && thrown == None ==> |calls| == |old(calls)| + 1
    {
      CallsGoOn(calls);
      hide Inv, IsPath, AllWell;
      thrown := None;
      if NeedSelectDb(opts) {
        thrown := SendStage(SelectingDb, reply);
      } else if NeedReadonly(opts) {
        thrown := SendStage(EnableReadonly, reply);
      } else {
        SetReady(reply);
      }
    }

    method SelectDbCallback(ghost reply: bool) returns (thrown: Option<Failure>)
      requires Entering(reply) && state == SelectingDb
      modifies this`events, this`hostKnown, this`err, this`ctx, this`state, this`calls, this`path
      ensures Valid() && old(path) <= path && old(Now().queue.submitted) <= Now().queue.submitted
      ensures Now().pc == if thrown == None then Idle else ToFail(thrown)
      ensures alive == old(alive) && if thrown == None then MovedOn(old(Now()), Now()) else Unmoved(old(Now()), Now())
      ensures old(calls) <= calls && (thrown == None && state != Broken <==> AllWell(old(calls), calls))
      ensures NextStage(opts, old(state)) != Ready && thrown == None ==> |calls| == |old(calls)| + 1
    {
      CallsGoOn(calls);
      hide Inv, IsPath, AllWell;
      thrown := None;
      if NeedReadonly(opts) {
        thrown := SendStage(EnableReadonly, reply);
      } else {
        SetReady(reply);
      }
    }

    /** The switch of `connect_callback()`, without its handler. */
    method Dispatch(ghost reply: bool) returns (thrown: Option<Failure>)
      requires Entering(reply)
      modifies this`events, this`hostKnown, this`err, this`ctx, this`state, this`calls, this`path
      ensures Valid() && old(path) <= path && old(Now().queue.submitted) <= Now().queue.submitted
      ensures Now().pc == if thrown == None then Idle else ToFail(thrown)
      ensures alive == old(alive) && if thrown == None then MovedOn(old(Now()), Now()) else Unmoved(old(Now()), Now())
      ensures old(calls) <= calls && (thrown == None && state != Broken <==> AllWell(old(calls), calls))
      ensures NextStage(opts, old(state)) != Ready && thrown == None ==>
        |calls| == |old(calls)| + (if old(state) == Connecting then 2 else 1)
      ensures old(state) == Connecting ==> |calls| > |old(calls)|
    {
      hide Inv, IsPath, Apply, Enabled, Init, Settles, AllWell;
      thrown := None;
      match state {
        case Connecting => thrown := ConnectingCallback(reply);
        case Authing => thrown := AuthingCallback(reply);
        case SetResp => thrown := SetRespCallback(reply);
        case SetName => thrown := SetNameCallback(reply);
        case SelectingDb => thrown := SelectDbCallback(reply);
        case EnableReadonly => EnableReadonlyCallback(reply);
        case _ => assert false;
      }
    }

    /** The default branch of the switch. */
    method EnableReadonlyCallback(ghost reply: bool)
      requires Entering(reply) && state == EnableReadonly
      modifies this`events, this`hostKnown, this`err, this`ctx, this`state, this`calls, this`path
      ensures Valid() && old(path) <= path && Now().pc == Idle && alive == old(alive) && Settles(old(Now()), Now())
      ensures old(Now().queue.submitted) <= Now().queue.submitted && MovedOn(old(Now()), Now())
      ensures old(calls) <= calls && (state != Broken <==> AllWell(old(calls), calls))
    {
      hide Inv, IsPath, AllWell;
      SetReady(reply);
    }

    /** The switch with its handler: whatever a stage throws breaks the connection. */
    method DispatchOrBreak(ghost reply: bool) returns (ghost thrown: Option<Failure>)
      requires Entering(reply)
      modifies this`events, this`hostKnown, this`err, this`ctx, this`state, this`calls, this`path
      ensures Valid() && old(path) <= path && Now().pc == Idle
      ensures state == Broken ==> Settles(old(Now()), Now())
      ensures if thrown == None then MovedOn(old(Now()), Now())
              else state == Broken && Fails(old(Now()), Now(), thrown.value)
      ensures old(calls) <= calls && (state != Broken <==> AllWell(old(calls), calls))
      ensures NextStage(opts, old(state)) != Ready && thrown == None ==>
        |calls| == |old(calls)| + (if old(state) == Connecting then 2 else 1)
      ensures old(state) == Connecting ==> |calls| > |old(calls)|
    {
      NextStageExtends(opts, state);
      hide Inv, IsPath, NextStage, Init, Apply, Enabled, Needs, NeededUpTo, AllWell;
      var threw := Dispatch(reply);
      thrown := threw;
      if threw.Some? {
        ghost var mid := Now();
        Disconnect(threw);
        SettlesAfter(old(Now()), mid, Now());
      }
    }

    /**
     * `connect_callback()`. It needs only that the loop owes it a result or a reply; that its switch
     * covers the state, its default branch being `ENABLE_READONLY`, follows.
     */
    method ConnectCallback(e: Option<Failure>, ghost reply: bool) returns (ghost thrown: Option<Failure>)
      requires Valid() && alive && Now().pc == Idle
      requires if reply then Now().link.replyPending && e == None else Now().link.connectPending
      modifies this`events, this`hostKnown, this`err, this`ctx, this`state, this`calls, this`path
      ensures Valid() && old(path) <= path && Now().pc == Idle
      ensures old(state) == Broken || e.Some? || thrown.Some? ==> state == Broken
      ensures state == Broken && old(state) != Broken ==> Settles(old(Now()), Now())
      ensures e == thrown == None && old(state) != Broken ==> MovedOn(old(Now()), Now())
      ensures e == None && thrown.Some? ==> Fails(old(Now()), Now(), thrown.value)
      ensures e.Some? ==> Fails(old(Now()), Now(), e.value)
      ensures state == Ready ==> Now().link.sent == Needed(opts)
      ensures state == Ready ==>
        && (Authing in Now().link.sent <==> opts.password != "" || opts.user != "default")
        && (SetResp in Now().link.sent <==> opts.resp > 2) && (SetName in Now().link.sent <==> opts.name != "")
        && (SelectingDb in Now().link.sent <==> opts.db != 0)
        && (EnableReadonly in Now().link.sent <==> opts.readonly)
      ensures old(calls) <= calls
      ensures e == None && old(state) != Broken ==> (state != Broken <==> AllWell(old(calls), calls))
      ensures e == None && old(state) != Broken ==> (old(state) == Connecting ==> |calls| > |old(calls)|)
      ensures e == None && old(state) != Broken ==> (thrown == None && NextStage(opts, old(state)) != Ready ==>
        |calls| == |old(calls)| + (if old(state) == Connecting then 2 else 1))
    {
      thrown := None;
      StateWhenCalled(Now());
      hide Inv, IsPath, NextStage, Init, AllWell, Apply, Enabled, Settles, MovedOn, Fails;
      if e.Some? {
        ConnectFailed(e);
        return;
      }
      if state == Broken {
        AlreadyBroken(reply);
        return;
      }
      thrown := DispatchOrBreak(reply);
      ReadyIsComplete(Now());
    }

    /** The loop reports that connecting has failed. */
    method ConnectFailed(e: Option<Failure>)
      requires Valid() && alive && Now().pc == Idle && Now().link.connectPending && e.Some?
      modifies this`events, this`hostKnown, this`err, this`ctx, this`state, this`path
      ensures Valid() && old(path) <= path && Now().pc == Idle && state == Broken
      ensures Settles(old(Now()), Now()) && Fails(old(Now()), Now(), e.value)
    {
      hide Inv, IsPath, Init;
      Record(ConnectResult(false, false, false, e.value));
      FailEvents(e);
    }

    /** `hello_callback` and `set_options_callback`: what the server's answer to a stage leads to. */
    method ReplyCallback(answer: Answer) returns (ghost thrown: Option<Failure>)
      requires Valid() && alive && Now().pc == Idle && Now().link.replyPending
      modifies this`events, this`hostKnown, this`err, this`ctx, this`state, this`calls, this`path
      ensures Valid() && old(path) <= path && Now().pc == Idle
      ensures answer == Closed ==> state == old(state) && events == old(events) && Now().queue == old(Now().queue)
      ensures answer.Error? ==> state == Broken && Settles(old(Now()), Now())
      ensures answer == Fine && old(state) != Broken ==>
        if thrown == None then MovedOn(old(Now()), Now()) else state == Broken && Fails(old(Now()), Now(), thrown.value)
      ensures state == Ready ==> Now().link.sent == Needed(opts)
      ensures state == Ready ==>
        && (Authing in Now().link.sent <==> opts.password != "" || opts.user != "default")
        && (SetResp in Now().link.sent <==> opts.resp > 2) && (SetName in Now().link.sent <==> opts.name != "")
        && (SelectingDb in Now().link.sent <==> opts.db != 0)
        && (EnableReadonly in Now().link.sent <==> opts.readonly)
      ensures old(calls) <= calls
      ensures answer == Fine && old(state) != Broken ==> (state != Broken <==> AllWell(old(calls), calls))
    {
      ReadyIsComplete(Now());
      StateWhenCalled(Now());
      hide Inv, IsPath, Init, NextStage, AllWell, MovedOn, Fails;
      thrown := None;
      match answer {
        case Closed =>
          Record(Reply(Closed, true, Closing));
        case Error(why) =>
          Record(Reply(Error(why), true, why));
          Disconnect(Some(why));
        case Fine =>
          thrown := ConnectCallback(None, true);
      }
    }

    /** The destructor: every event still waiting fails, so every event ever sent is settled. */
    method Destroy()
      requires Valid() && alive && Now().pc == Idle && !Now().wake && Now().announcing == 0
      modifies this
      ensures Valid() && old(path) <= path && !alive && Now().pc == Idle
      ensures EventsOf(Now().queue.done) == Now().queue.submitted
    {
      hide Inv, IsPath, Init;
      Record(Action.Destroy);
      alive := false;
      CleanUp();
    }

    /** The connection is closing, and its events have been dealt with. */
    ghost method AlreadyBroken(reply: bool)
      requires Valid() && alive && Now().pc == Idle && state == Broken
      requires if reply then Now().link.replyPending else Now().link.connectPending
      modifies this`path
      ensures Valid() && path != [] && path == old(path) + [Now()]
      ensures Now().pc == Idle && Now().queue == old(Now()).queue
    {
      hide Inv, IsPath, NextStage;
      Record(Entry(reply, true, true, Closing));
    }
  }

  // ----- facts the methods use ------------------------------------------------------------

  lemma PathGrows(path: seq<Conn>, a: Action)
    requires IsPath(path) && Enabled(path[|path| - 1], a)
    ensures IsPath(path + [Apply(path[|path| - 1], a)])
  {
    var p := path + [Apply(path[|path| - 1], a)];
    forall i | 0 <= i < |p| - 1 ensures Step(p[i], p[i + 1]) {
      if i < |path| - 1 {
        assert Step(path[i], path[i + 1]);
      }
    }
  }

  /** Other threads add events and learn the host; all else is this thread's. */
  ghost predicate Undisturbed(c: Conn, d: Conn) {
    && d.link == c.link && d.pc == c.pc && d.err == c.err && d.alive == c.alive && d.opts == c.opts
    && d.queue.batch == c.queue.batch && d.queue.done == c.queue.done && c.queue.submitted <= d.queue.submitted
  }

  /** Between `c` and `d` everything submitted by `c` has been settled, and what was settled stays so. */
  ghost predicate Settles(c: Conn, d: Conn) {
    && c.queue.done <= d.queue.done && c.queue.submitted <= d.queue.submitted
    && |c.queue.submitted| <= |d.queue.done|
  }

  /**
   * The handshake has gone on by one: to the next stage needed, whose command is sent and whose reply is
   * awaited, or past the last one, with everything waiting handed over or the connection broken in doing so.
   */
  ghost predicate MovedOn(c: Conn, d: Conn) {
    var n := NextStage(c.opts, c.link.st);
    if n == Ready then (d.link.st == Ready || d.link.st == Broken) && Settles(c, d)
    else d.link.st == n && d.link.sent == c.link.sent + [n] && d.link.replyPending && d.queue == c.queue
  }

  ghost predicate Unmoved(c: Conn, d: Conn) {
    d.link.st == c.link.st && d.link.sent == c.link.sent && d.queue == c.queue
  }

  /** Everything waiting has failed with `why`. */
  ghost predicate Fails(c: Conn, d: Conn, why: Failure) {
    Settles(c, d) && forall k :: |c.queue.done| <= k < |d.queue.done| ==> d.queue.done[k].fate == Failed(why)
  }

  /** Between the two all calls have succeeded. */
  ghost predicate AllWell(before: seq<bool>, after: seq<bool>) {
    before <= after && forall i :: |before| <= i < |after| ==> after[i]
  }

  lemma CallsGoOn(before: seq<bool>)
    ensures AllWell(before, before)
    ensures forall after: seq<bool>, ok: bool :: AllWell(before, after) ==> (AllWell(before, after + [ok]) <==> ok)
    ensures forall mid: seq<bool>, after: seq<bool> :: AllWell(before, mid) && mid <= after ==>
      (AllWell(before, after) <==> AllWell(mid, after))
  {
    forall after: seq<bool>, ok: bool | AllWell(before, after) ensures AllWell(before, after + [ok]) <==> ok {
      assert (after + [ok])[|after|] == ok;
    }
  }

  /** How many of the events send data: each of them takes one call. */
  ghost function Commands(events: seq<Event>): nat {
    if events == [] then 0
    else Commands(events[..|events| - 1]) + if events[|events| - 1].sendsData then 1 else 0
  }

  lemma SettlesSame(c: Conn, m: Conn, d: Conn)
    requires c.queue == m.queue && Settles(m, d)
    ensures Settles(c, d)
  {
  }

  lemma SettlesAfter(c: Conn, m: Conn, d: Conn)
    requires c.queue.done <= m.queue.done && c.queue.submitted <= m.queue.submitted && Settles(m, d)
    ensures Settles(c, d)
  {
  }

  lemma SettledSoFar(c: Conn)
    requires Inv(c)
    ensures |c.queue.submitted| == |c.queue.done| + |c.queue.batch| + |c.queue.events|
    ensures c.pc == ToClean || c.pc == ToSend ==> c.queue.batch == []
  {
    hide Stages, Attached, Fates;
    EventsCounted(c.queue.done);
  }

  lemma NothingLeft(c: Conn)
    requires Inv(c) && !c.alive && c.pc == Idle
    ensures EventsOf(c.queue.done) == c.queue.submitted
  {
    hide Stages, Attached, Fates;
    assert EventsOf(c.queue.done) + [] + [] == EventsOf(c.queue.done);
  }

  lemma InvSending(c: Conn)
    requires Inv(c) && (c.pc == ToSend || c.pc == Sending)
    ensures c.link.st == Ready && c.link.ctx && c.alive
  {
    hide Stages, Fates, Conserved;
  }

  lemma InvAlive(c: Conn)
    requires Inv(c)
    ensures c.link.ctx ==> c.link.st != NotConnected && c.link.st != WaitSentinel
  {
    hide Stages, Fates, Conserved;
  }

  lemma StateWhenCalled(c: Conn)
    requires Inv(c)
    ensures c.link.connectPending ==> c.link.st == Connecting || c.link.st == Broken
    ensures c.link.replyPending ==> (InHandshake(c.link.st) && c.link.st != Connecting) || c.link.st == Broken
  {
    hide Stages, Fates, Conserved;
  }

  lemma ReadyIsComplete(c: Conn)
    requires Inv(c)
    ensures c.link.st == Ready ==> c.link.sent == Needed(c.opts)
    ensures c.link.st == Ready ==>
      && (Authing in c.link.sent <==> c.opts.password != "" || c.opts.user != "default")
      && (SetResp in c.link.sent <==> c.opts.resp > 2) && (SetName in c.link.sent <==> c.opts.name != "")
      && (SelectingDb in c.link.sent <==> c.opts.db != 0) && (EnableReadonly in c.link.sent <==> c.opts.readonly)
  {
    hide Attached, Fates, Conserved;
    assert c.link.st == Ready ==> c.link.sent == Needed(c.opts);
    hide Inv, Needed;
    AskedByOptions(c.opts);
  }
}
