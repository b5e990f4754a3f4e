/** The methods of `ConnectionPool`; what each does to the shelf is what `ConnectionPoolSystem` says. */
module ConnectionPools {
  import opened ConnectionPoolSystem

  /** What other clients do to the pool while this one waits; they cannot create connections then. */
  datatype Move = PutBack(conn: nat) | TakeAway

  /** `ConnectFailed` and `TimedOut` stand for the exceptions; `StillWaiting`: the story ends first. */
  datatype Outcome = Got(conn: nat) | ConnectFailed | TimedOut | StillWaiting

  class ConnectionPool {
    const size: nat
    const canTimeOut: bool
    var pool: seq<nat>
    var usedConnections: nat
    ghost var returned: seq<nat>
    ghost var taken: nat

    constructor (size: nat, canTimeOut: bool)
      ensures this.size == size && this.canTimeOut == canTimeOut && View() == Init(size, 0).shelf
    {
      this.size, this.canTimeOut := size, canTimeOut;
      pool, usedConnections, returned, taken := [], 0, [], 0;
    }

    ghost function View(): Shelf
      reads this
    {
      Shelf(size, pool, usedConnections, returned, taken)
    }

    /** The front connection is handed out. */
    method TakeFront() returns (conn: nat)
      requires pool != []
      modifies this
      ensures View() == Take(old(View())) && conn == old(pool[0])
    {
      conn := pool[0];
      pool := pool[1..];
      taken := taken + 1;
    }

    /** `release()` under its lock; the notification that follows touches nothing here. */
    method Release(conn: nat)
      modifies this
      ensures View() == Put(old(View()), conn)
      ensures pool == old(pool) + [conn] && usedConnections == old(usedConnections)
    {
      pool := pool + [conn];
      returned := returned + [conn];
    }

    method Others(moves: seq<Move>)
      modifies this
      ensures usedConnections == old(usedConnections)
    {
      for i := 0 to |moves|
        invariant usedConnections == old(usedConnections)
      {
        match moves[i]
        case PutBack(conn) =>
          Release(conn);
        case TakeAway =>
          if pool != [] {
            var conn := TakeFront();
          }
      }
    }

    /** `_wait_for_connection()`: `schedule` says what happens while the lock is given up, wake-up by wake-up. */
    method WaitForConnection(schedule: seq<seq<Move>>) returns (found: bool)
      requires MustWait(View())
      modifies this
      ensures usedConnections == old(usedConnections)
      ensures found <==> pool != []
    {
      var k := 0;
      while pool == [] && k < |schedule|
        invariant k <= |schedule| && usedConnections == old(usedConnections)
      {
        Others(schedule[k]);
        k := k + 1;
      }
      found := pool != [];
    }

    /**
     * `fetch()`. `before` is the shelf at the moment this call decides: then it takes the longest idle
     * connection, or creates one if none is idle and there is room, or gives up having changed nothing.
     * A connection that cannot be re-established goes back to the end of the shelf.
     */
    method Fetch(schedule: seq<seq<Move>>, needsReconnect: bool, connects: bool)
      returns (r: Outcome, ghost before: Shelf)
      modifies this
      ensures before.used == old(usedConnections) && before.size == size
      ensures !MustWait(old(View())) ==> before == old(View())
      ensures MustWait(old(View())) ==> (r.TimedOut? || r.StillWaiting? <==> before.idle == [])
      ensures r.Got? && before.idle == [] ==>
        r.conn == before.used != size && pool == [] && usedConnections == before.used + 1
      ensures r.Got? && before.idle != [] ==>
        r.conn == before.idle[0] && pool == before.idle[1..] && usedConnections == before.used
      ensures r.ConnectFailed? && before.idle == [] ==>
        before.used != size && pool == [before.used] && usedConnections == before.used + 1
      ensures r.ConnectFailed? && before.idle != [] ==>
        pool == before.idle[1..] + [before.idle[0]] && usedConnections == before.used
      ensures r.TimedOut? || r.StillWaiting? ==>
        before.idle == [] && before.used == size && pool == [] && usedConnections == size
      ensures match r
        case Got(conn) => View() == Served(before) && conn == Offered(before) && (needsReconnect ==> connects)
        case ConnectFailed => View() == Put(Served(before), Offered(before)) && needsReconnect && !connects
        case TimedOut => View() == before && MustWait(before) && canTimeOut
        case StillWaiting => View() == before && MustWait(before) && !canTimeOut
    {
      before := View();
      var conn: nat;
      if pool == [] && usedConnections != size {
        conn := usedConnections;
        usedConnections := usedConnections + 1;
      } else {
        if pool == [] {
          var found := WaitForConnection(schedule);
          before := View();
          if !found {
            return if canTimeOut then TimedOut else StillWaiting, before;
          }
        }
        conn := TakeFront();
      }
      if needsReconnect && !connects {
        Release(conn);
        return ConnectFailed, before;
      }
      r := Got(conn);
    }
  }

  /** The connection a fetch that need not wait is given, and the shelf it leaves. */
  function Offered(p: Shelf): nat {
    if p.idle == [] then p.used else p.idle[0]
  }

  function Served(p: Shelf): Shelf {
    if p.idle == [] then Create(p) else Take(p)
  }

  /**
   * The two are what the transition system makes of a fetch, whether it decides at once, after being
   * woken or when its time is up: it is served exactly if it does not have to wait at that moment.
   */
  lemma FetchServes(s: State, a: Action, c: nat, canTimeOut: bool)
    requires Inv(s) && Enabled(s, a, canTimeOut) && (a == Action.Fetch(c) || a == Wake(c) || a == Timeout(c))
    ensures var s' := Apply(s, a, canTimeOut);
      if MustWait(s.shelf) then s'.shelf == s.shelf && s'.clients[c] == if a == Timeout(c) then Away else Asleep(false)
      else s'.shelf == Served(s.shelf) && s'.clients[c] == Checking(Offered(s.shelf))
  {
    hide Count, Placed, NoLostWakeUp;
    assert a != Action.Fetch(c) ==> s.shelf.used == s.shelf.size;
  }

  /** The constructor without a sentinel refuses an empty pool; the one with a sentinel does not. */
  method MakePool(size: nat, canTimeOut: bool, sentinel: bool) returns (pool: ConnectionPool?)
    ensures pool == null <==> size == 0 && !sentinel
    ensures pool != null ==> fresh(pool) && pool.View() == Init(size, 0).shelf
  {
    if size == 0 && !sentinel {
      return null;
    }
    pool := new ConnectionPool(size, canTimeOut);
  }
}
