/**
 * The bounded connection pool as a transition system: any number of clients fetch, wait, time out,
 * reconnect and release, one critical section at a time.
 */
module ConnectionPoolSystem {
  import opened Sums

  /**
   * `_pool` (the idle connections) and `_used_connections`. Connections are numbered in the order
   * they were created; `returned` lists every connection ever put back, `taken` how many of those
   * were handed out again.
   */
  datatype Shelf = Shelf(size: nat, idle: seq<nat>, used: nat, returned: seq<nat>, taken: nat)

  /** What one client is doing; a connection belongs to it from `Checking` until it is put back. */
  datatype Client = Away | Asleep(signalled: bool) | Checking(conn: nat) | Holding(conn: nat) | Notifying

  datatype State = State(shelf: Shelf, clients: seq<Client>)

  /** Steps of client `c`; `w` is the sleeper a notification wakes. Only a positive wait timeout can expire. */
  datatype Action = Fetch(c: nat) | Wake(c: nat) | Timeout(c: nat) | Connected(c: nat) | ConnectFails(c: nat)
    | Release(c: nat) | Notify(c: nat, w: nat) | NotifyNobody(c: nat)

  // ----- critical sections ----------------------------------------------------------------

  /** `_fetch()`: the front connection is taken. */
  function Take(p: Shelf): Shelf
    requires p.idle != []
  {
    p.(idle := p.idle[1..], taken := p.taken + 1)
  }

  function Create(p: Shelf): Shelf {
    p.(used := p.used + 1)
  }

  /** The locked part of `release()`. */
  function Put(p: Shelf, conn: nat): Shelf {
    p.(idle := p.idle + [conn], returned := p.returned + [conn])
  }

  /** `_fetch(lock)` has to wait. */
  predicate MustWait(p: Shelf) {
    p.idle == [] && p.used == p.size
  }

  predicate Is(s: State, c: nat, x: Client) {
    c < |s.clients| && s.clients[c] == x
  }

  predicate Sleeps(s: State, c: nat) {
    c < |s.clients| && s.clients[c].Asleep?
  }

  ghost predicate Enabled(s: State, a: Action, canTimeOut: bool) {
    match a
    case Fetch(c) => Is(s, c, Away)
    case Wake(c) => Sleeps(s, c)
    case Timeout(c) => Sleeps(s, c) && canTimeOut
    case Connected(c) => c < |s.clients| && s.clients[c].Checking?
    case ConnectFails(c) => c < |s.clients| && s.clients[c].Checking?
    case Release(c) => c < |s.clients| && s.clients[c].Holding?
    case Notify(c, w) => Is(s, c, Notifying) && Is(s, w, Asleep(false))
    case NotifyNobody(c) => Is(s, c, Notifying) && forall w: nat :: !Is(s, w, Asleep(false))
  }

  function Set(s: State, c: nat, x: Client, p: Shelf): State
    requires c < |s.clients|
  {
    State(p, s.clients[c := x])
  }

  ghost function Apply(s: State, a: Action, canTimeOut: bool): State
    requires Enabled(s, a, canTimeOut)
  {
    var p := s.shelf;
    match a
    case Fetch(c) =>
      if MustWait(p) then Set(s, c, Asleep(false), p)
      else if p.idle == [] then Set(s, c, Checking(p.used), Create(p))
      else Set(s, c, Checking(p.idle[0]), Take(p))
    case Wake(c) => if p.idle == [] then Set(s, c, Asleep(false), p) else Set(s, c, Checking(p.idle[0]), Take(p))
    case Timeout(c) => if p.idle == [] then Set(s, c, Away, p) else Set(s, c, Checking(p.idle[0]), Take(p))
    case Connected(c) => Set(s, c, Holding(s.clients[c].conn), p)
    case ConnectFails(c) => Set(s, c, Notifying, Put(p, s.clients[c].conn))
    case Release(c) => Set(s, c, Notifying, Put(p, s.clients[c].conn))
    case Notify(c, w) => Set(Set(s, c, Away, p), w, Asleep(true), p)
    case NotifyNobody(c) => Set(s, c, Away, p)
  }

  function Init(size: nat, clients: nat): State {
    State(Shelf(size, [], 0, [], 0), seq(clients, _ => Away))
  }

  // ----- the invariant --------------------------------------------------------------------

  predicate Has(x: Client) {
    x.Checking? || x.Holding?
  }

  /** Each connection created so far is idle in one place or borrowed by one client. */
  predicate Placed(s: State) {
    && (forall i :: 0 <= i < |s.shelf.idle| ==> s.shelf.idle[i] < s.shelf.used)
    && (forall i, j :: 0 <= i < j < |s.shelf.idle| ==> s.shelf.idle[i] != s.shelf.idle[j])
    && (forall c :: 0 <= c < |s.clients| && Has(s.clients[c]) ==>
          s.clients[c].conn < s.shelf.used && s.clients[c].conn !in s.shelf.idle)
    && (forall c, d :: 0 <= c < d < |s.clients| && Has(s.clients[c]) && Has(s.clients[d]) ==>
          s.clients[c].conn != s.clients[d].conn)
  }

  function Marks(clients: seq<Client>, f: Client -> bool): nat -> int {
    (c: nat) => if c < |clients| && f(clients[c]) then 1 else 0
  }

  ghost function Count(clients: seq<Client>, f: Client -> bool): int {
    SumTo(Marks(clients, f), |clients|)
  }

  ghost function Borrowed(s: State): int {
    Count(s.clients, Has)
  }

  predicate AboutToAct(x: Client) {
    x == Notifying || x == Asleep(true)
  }

  /** Whoever sleeps without a signal sleeps beside no more idle connections than wake-ups on their way. */
  ghost predicate NoLostWakeUp(s: State) {
    (exists c :: 0 <= c < |s.clients| && s.clients[c] == Asleep(false)) ==>
      |s.shelf.idle| <= Count(s.clients, AboutToAct)
  }

  ghost predicate Inv(s: State) {
    && Placed(s) && NoLostWakeUp(s)
    && s.shelf.used == |s.shelf.idle| + Borrowed(s)
    && s.shelf.used <= s.shelf.size
    && (forall c :: 0 <= c < |s.clients| && s.clients[c].Asleep? ==> s.shelf.used == s.shelf.size)
    && s.shelf.taken <= |s.shelf.returned| && s.shelf.idle == s.shelf.returned[s.shelf.taken..]
  }

  lemma InitHolds(size: nat, clients: nat)
    ensures Inv(Init(size, clients))
  {
    var s := Init(size, clients);
    forall c: nat | c < clients ensures Marks(s.clients, Has)(c) == 0 {
      assert s.clients[c] == Away && !Has(s.clients[c]);
    }
    SumConstant(Marks(s.clients, Has), clients, 0);
  }

  lemma CountUpdate(clients: seq<Client>, f: Client -> bool, c: nat, x: Client)
    requires c < |clients|
    ensures Count(clients[c := x], f) == Count(clients, f) - (if f(clients[c]) then 1 else 0) + (if f(x) then 1 else 0)
  {
    SumUpdate(Marks(clients, f), Marks(clients[c := x], f), |clients|, c);
  }

  lemma CountIsNatural(clients: seq<Client>, f: Client -> bool)
    ensures Count(clients, f) >= 0
  {
    SumNonNegative(Marks(clients, f), |clients|);
  }

  // ----- every step keeps the invariant ---------------------------------------------------

  lemma TakeKeeps(s: State, c: nat)
    requires Inv(s) && c < |s.clients| && !Has(s.clients[c]) && s.shelf.idle != []
    requires s.clients[c] == Away || s.clients[c].Asleep?
    ensures Inv(Set(s, c, Checking(s.shelf.idle[0]), Take(s.shelf)))
  {
    hide Count;
    var x := Checking(s.shelf.idle[0]);
    CountUpdate(s.clients, Has, c, x);
    CountUpdate(s.clients, AboutToAct, c, x);
    var s' := Set(s, c, x, Take(s.shelf));
    assert Placed(s');
    hide Placed;
    assert forall d :: 0 <= d < |s.clients| && d != c ==> s'.clients[d] == s.clients[d];
  }

  lemma CreateKeeps(s: State, c: nat)
    requires Inv(s) && c < |s.clients| && s.clients[c] == Away && s.shelf.idle == [] && s.shelf.used < s.shelf.size
    ensures Inv(Set(s, c, Checking(s.shelf.used), Create(s.shelf)))
  {
    hide Count;
    var x := Checking(s.shelf.used);
    CountUpdate(s.clients, Has, c, x);
    CountIsNatural(s.clients[c := x], AboutToAct);
  }

  lemma PutKeeps(s: State, c: nat)
    requires Inv(s) && c < |s.clients| && Has(s.clients[c])
    ensures Inv(Set(s, c, Notifying, Put(s.shelf, s.clients[c].conn)))
  {
    hide Count;
    CountUpdate(s.clients, Has, c, Notifying);
    CountUpdate(s.clients, AboutToAct, c, Notifying);
    var s' := Set(s, c, Notifying, Put(s.shelf, s.clients[c].conn));
    assert Placed(s');
    hide Placed;
    assert forall d :: 0 <= d < |s.clients| && d != c ==> s'.clients[d] == s.clients[d];
  }

  ghost predicate NobodySleeps(s: State) {
    forall d :: 0 <= d < |s.clients| ==> s.clients[d] != Asleep(false)
  }

  /** The client neither takes nor gives up a connection, and the shelf stays as it is. */
  lemma MoveKeeps(s: State, c: nat, x: Client)
    requires Inv(s) && c < |s.clients|
    requires Has(s.clients[c]) == Has(x) && (Has(x) ==> x.conn == s.clients[c].conn)
    requires x.Asleep? ==> s.shelf.used == s.shelf.size
    requires if x == Asleep(false) then s.shelf.idle == []
             else AboutToAct(s.clients[c]) ==> AboutToAct(x) || s.shelf.idle == [] || NobodySleeps(s)
    ensures Inv(Set(s, c, x, s.shelf))
  {
    hide Count;
    CountUpdate(s.clients, Has, c, x);
    CountUpdate(s.clients, AboutToAct, c, x);
    CountIsNatural(s.clients[c := x], AboutToAct);
    var s' := Set(s, c, x, s.shelf);
    assert Placed(s');
    hide Placed;
    assert forall d :: 0 <= d < |s.clients| && d != c ==> s'.clients[d] == s.clients[d];
  }

  lemma NotifyKeeps(s: State, c: nat, w: nat)
    requires Inv(s) && Is(s, c, Notifying) && Is(s, w, Asleep(false))
    ensures Inv(Set(Set(s, c, Away, s.shelf), w, Asleep(true), s.shelf))
  {
    hide Count;
    var m := s.clients[c := Away];
    CountUpdate(s.clients, Has, c, Away);
    CountUpdate(s.clients, AboutToAct, c, Away);
    CountUpdate(m, Has, w, Asleep(true));
    CountUpdate(m, AboutToAct, w, Asleep(true));
    var s' := Set(Set(s, c, Away, s.shelf), w, Asleep(true), s.shelf);
    assert Placed(s');
    hide Placed;
    assert forall d :: 0 <= d < |s.clients| && d != c && d != w ==> s'.clients[d] == s.clients[d];
  }

  lemma StepKeepsInv(s: State, a: Action, canTimeOut: bool)
    requires Inv(s) && Enabled(s, a, canTimeOut)
    ensures Inv(Apply(s, a, canTimeOut))
  {
    hide Count, Placed;
    match a
    case Fetch(c) =>
      if MustWait(s.shelf) {
        MoveKeeps(s, c, Asleep(false));
      } else if s.shelf.idle == [] {
        CreateKeeps(s, c);
      } else {
        TakeKeeps(s, c);
      }
    case Wake(c) =>
      if s.shelf.idle == [] {
        MoveKeeps(s, c, Asleep(false));
      } else {
        TakeKeeps(s, c);
      }
    case Timeout(c) =>
      if s.shelf.idle == [] {
        MoveKeeps(s, c, Away);
      } else {
        TakeKeeps(s, c);
      }
    case Connected(c) => MoveKeeps(s, c, Holding(s.clients[c].conn));
    case ConnectFails(c) => PutKeeps(s, c);
    case Release(c) => PutKeeps(s, c);
    case Notify(c, w) => NotifyKeeps(s, c, w);
    case NotifyNobody(c) =>
      forall d | 0 <= d < |s.clients| ensures s.clients[d] != Asleep(false) {
        assert !Is(s, d, Asleep(false));
      }
      MoveKeeps(s, c, Away);
  }

  // ----- runs -----------------------------------------------------------------------------

  ghost predicate Step(s: State, s': State, canTimeOut: bool) {
    exists a :: Enabled(s, a, canTimeOut) && s' == Apply(s, a, canTimeOut)
  }

  ghost predicate IsRun(tr: seq<State>, size: nat, clients: nat, canTimeOut: bool) {
    |tr| > 0 && tr[0] == Init(size, clients) && forall i :: 0 <= i < |tr| - 1 ==> Step(tr[i], tr[i + 1], canTimeOut)
  }

  lemma {:induction false} RunsKeepInv(tr: seq<State>, size: nat, clients: nat, canTimeOut: bool, i: nat)
    requires IsRun(tr, size, clients, canTimeOut) && i < |tr|
    ensures Inv(tr[i]) && tr[i].shelf.size == size && |tr[i].clients| == clients
  {
    hide Inv, Apply, Enabled;
    if i == 0 {
      InitHolds(size, clients);
    } else {
      RunsKeepInv(tr, size, clients, canTimeOut, i - 1);
      assert Step(tr[i - 1], tr[i - 1 + 1], canTimeOut);
      var a :| Enabled(tr[i - 1], a, canTimeOut) && tr[i] == Apply(tr[i - 1], a, canTimeOut);
      StepKeepsInv(tr[i - 1], a, canTimeOut);
      StepKeepsSize(tr[i - 1], a, canTimeOut);
    }
  }

  lemma StepKeepsSize(s: State, a: Action, canTimeOut: bool)
    requires Enabled(s, a, canTimeOut)
    ensures Apply(s, a, canTimeOut).shelf.size == s.shelf.size && |Apply(s, a, canTimeOut).clients| == |s.clients|
  {
  }

  /**
   * In every reachable state the used count is the idle connections plus those borrowed, never above
   * the pool's size, and no connection is idle twice, borrowed twice, or both.
   */
  lemma ConnectionsConserved(tr: seq<State>, size: nat, clients: nat, canTimeOut: bool, i: nat)
    requires IsRun(tr, size, clients, canTimeOut) && i < |tr|
    ensures tr[i].shelf.used == |tr[i].shelf.idle| + Borrowed(tr[i]) <= size
    ensures Placed(tr[i])
  {
    RunsKeepInv(tr, size, clients, canTimeOut, i);
  }

  /** Returned connections are handed out again in the order they came back. */
  lemma FirstReturnedFirstTaken(tr: seq<State>, size: nat, clients: nat, canTimeOut: bool, i: nat)
    requires IsRun(tr, size, clients, canTimeOut) && i < |tr|
    ensures tr[i].shelf.taken <= |tr[i].shelf.returned|
    ensures tr[i].shelf.idle == tr[i].shelf.returned[tr[i].shelf.taken..]
  {
    hide Count, Placed;
    RunsKeepInv(tr, size, clients, canTimeOut, i);
  }

  /** A fetch goes to sleep exactly when every connection there may be is borrowed. */
  lemma WaitsOnlyWhenAllBorrowed(tr: seq<State>, size: nat, clients: nat, canTimeOut: bool, i: nat, c: nat)
    requires IsRun(tr, size, clients, canTimeOut) && i < |tr| && Enabled(tr[i], Fetch(c), canTimeOut)
    ensures Apply(tr[i], Fetch(c), canTimeOut).clients[c].Asleep? <==> Borrowed(tr[i]) == size
    ensures Apply(tr[i], Fetch(c), canTimeOut).clients[c].Asleep? ==>
      Apply(tr[i], Fetch(c), canTimeOut).shelf == tr[i].shelf
  {
    hide Count, Placed;
    RunsKeepInv(tr, size, clients, canTimeOut, i);
  }

  /** Of the connections put back and not handed out again `c` has the one put back first, alone. */
  predicate GotOldest(s: State, s': State, c: nat) {
    && s.shelf.taken < |s.shelf.returned| && Is(s', c, Checking(s.shelf.returned[s.shelf.taken]))
    && forall d :: 0 <= d < |s'.clients| && d != c && Has(s'.clients[d]) ==> s'.clients[d].conn != s'.clients[c].conn
  }

  /**
   * A wait that expires fails exactly if at that moment all `size` connections are borrowed, and then it
   * leaves the pool and every other client as they were; otherwise the client gets, of all connections
   * put back and not handed out again, the one put back first, and nobody else has it.
   */
  lemma TimeoutMeansAllBorrowed(tr: seq<State>, size: nat, clients: nat, canTimeOut: bool, i: nat, c: nat)
    requires IsRun(tr, size, clients, canTimeOut) && i < |tr| && Enabled(tr[i], Timeout(c), canTimeOut)
    ensures var s, s' := tr[i], Apply(tr[i], Timeout(c), canTimeOut);
      if s'.clients[c] == Away then Borrowed(s) == size && s' == s.(clients := s.clients[c := Away])
      else Borrowed(s) < size && Borrowed(s') == Borrowed(s) + 1 && GotOldest(s, s', c)
  {
    hide Count;
    RunsKeepInv(tr, size, clients, canTimeOut, i);
    var s := tr[i];
    var x := if s.shelf.idle == [] then Away else Checking(s.shelf.idle[0]);
    CountUpdate(s.clients, Has, c, x);
  }

  lemma {:induction false} SomeoneCounts(clients: seq<Client>, f: Client -> bool) returns (c: nat)
    requires Count(clients, f) > 0
    ensures c < |clients| && f(clients[c])
  {
    c := SumWitness(Marks(clients, f), |clients|);
  }

  /**
   * No client waits in vain: while one sleeps unsignalled, another holds a connection, is checking
   * one, has just put one back, or is being woken. It takes a pool of size zero to break this.
   */
  lemma NobodyWaitsInVain(tr: seq<State>, size: nat, clients: nat, canTimeOut: bool, i: nat, c: nat) returns (d: nat)
    requires IsRun(tr, size, clients, canTimeOut) && i < |tr| && size > 0
    requires Is(tr[i], c, Asleep(false))
    ensures d < |tr[i].clients| && (Has(tr[i].clients[d]) || AboutToAct(tr[i].clients[d]))
  {
    hide Count, Placed;
    RunsKeepInv(tr, size, clients, canTimeOut, i);
    if tr[i].shelf.idle == [] {
      d := SomeoneCounts(tr[i].clients, Has);
    } else {
      d := SomeoneCounts(tr[i].clients, AboutToAct);
    }
  }

  /** With size zero, which only the constructor without a sentinel refuses, no client ever gets one. */
  lemma EmptyPoolNeverServes(tr: seq<State>, clients: nat, canTimeOut: bool, i: nat, c: nat)
    requires IsRun(tr, 0, clients, canTimeOut) && i < |tr| && c < clients
    ensures |tr[i].clients| == clients && !Has(tr[i].clients[c])
  {
    RunsKeepInv(tr, 0, clients, canTimeOut, i);
  }
}
