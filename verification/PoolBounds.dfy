/** How many submissions the pool is sure to take: exactly `Capacity`, with atomic deliveries or without. */
module PoolBounds {
  import opened PoolSystem
  import opened PoolRuns

  /** All queues together if deliveries are atomic; one queue if submitters can meet at the index. */
  ghost function Capacity(workers: nat, limit: nat, atomic: bool): nat {
    if atomic then workers * limit else limit
  }

  ghost predicate IsPush(a: Action) {
    a.Deliver? || a.Hand?
  }

  lemma {:induction false} MulMonotone(a: nat, b: nat, n: nat)
    requires a <= b
    ensures a * n <= b * n
    decreases b - a
  {
    if a < b {
      MulMonotone(a, b - 1, n);
      assert b * n == (b - 1) * n + n;
    }
  }

  lemma RoundsBelow(round: nat, offset: nat, n: nat, limit: nat)
    requires round * n + offset < n * limit
    ensures round < limit
  {
    if round >= limit {
      MulMonotone(limit, round, n);
    }
  }

  /** Below the capacity the queue a push is aimed at has room. */
  lemma HasRoom(p: Pool, w: nat)
    requires Inv(p) && w < |p.workers| && (p.atomic ==> w == p.idx)
    requires Delivered(p) < Capacity(|p.workers|, p.limit, p.atomic)
    ensures |p.workers[w].queue| < p.limit
  {
    assert WorkerInv(p.workers[w], p.limit);
    assert |p.workers[w].queue| <= |p.workers[w].accepted| <= p.count.tries[w] <= Delivered(p);
    if p.atomic {
      IndexMoves(p);
      RoundsBelow(p.count.round, p.count.offset, |p.workers|, p.limit);
    }
  }

  lemma DeliveredGrows(p: Pool, a: Action)
    requires Inv(p) && Enabled(p, a)
    ensures Delivered(Apply(p, a)) == Delivered(p) + (if IsPush(a) then 1 else 0)
  {
    if a.Deliver? {
      PushCounts(Done(p, a.th), p.pending[a.th].job, p.idx);
    } else if a.Hand? {
      PushCounts(SetStage(p, a.th, Pushed), p.pending[a.th].job, p.pending[a.th].stage.w);
    }
  }

  lemma PushIsTaken(p: Pool, a: Action)
    requires Inv(p) && Enabled(p, a)
    requires IsPush(a) ==> Delivered(p) < Capacity(|p.workers|, p.limit, p.atomic)
    ensures Apply(p, a).refused == p.refused
  {
    if a.Deliver? {
      HasRoom(p, p.idx);
    } else if a.Hand? {
      HasRoom(p, p.pending[a.th].stage.w);
    }
    hide Inv, Push;
  }

  /** No drop: while no more than the capacity has been delivered, nothing was refused, however slow the workers. */
  lemma {:induction false} NeverRefused(c: Setup, tr: seq<Pool>, i: nat)
    requires IsRun(c, tr) && i < |tr| && Delivered(tr[i]) <= Capacity(c.workers, c.limit, c.atomic)
    ensures tr[i].refused == []
  {
    hide Inv, Delivered, Apply, Enabled;
    if i > 0 {
      RunsKeepInv(c, tr, i - 1);
      assert Step(tr[i - 1], tr[i - 1 + 1]);
      var a :| Enabled(tr[i - 1], a) && tr[i] == Apply(tr[i - 1], a);
      DeliveredGrows(tr[i - 1], a);
      NeverRefused(c, tr, i - 1);
      PushIsTaken(tr[i - 1], a);
    }
  }

  // ----- racing submitters ----------------------------------------------------------------

  /** `k` threads have all read the index before any of them stored it. */
  ghost predicate Piled(c: Setup, p: Pool, k: nat) {
    && Inv(p) && !p.atomic && p.limit == c.limit && !p.stop && p.idx == c.start < |p.workers| && Delivered(p) == k
    && p.workers[p.idx].pc == AtLoop && |p.workers[p.idx].queue| == (if k <= c.limit then k else c.limit)
    && (forall th :: th in p.pending ==> 0 <= th < k)
    && |p.refused| == k - (if k <= c.limit then k else c.limit)
  }

  /** One more thread admits a job, reads the same index and pushes. */
  lemma PileOne(c: Setup, first: Pool, p: Pool, k: nat) returns (q: Pool)
    requires Reaches(first, p) && Piled(c, p, k)
    ensures Reaches(first, q) && Piled(c, q, k + 1)
  {
    hide Inv, Delivered;
    var job := Job(k, 0);
    assert |p.count.tries| == |p.workers| by {
      Sized(p);
    }
    var a, b, d := Admit(k, job), Choose(k), Hand(k);
    var q1 := Goes(first, p, a);
    StepKeepsInv(p, a);
    DeliveredGrows(p, a);
    var q2 := Goes(first, q1, b);
    StepKeepsInv(q1, b);
    DeliveredGrows(q1, b);
    q := Goes(first, q2, d);
    StepKeepsInv(q2, d);
    DeliveredGrows(q2, d);
  }

  lemma {:induction false} Pile(c: Setup, k: nat) returns (p: Pool)
    requires c.start < c.workers && !c.atomic
    ensures Reaches(Init(c.workers, c.limit, c.start, false), p) && Piled(c, p, k)
  {
    hide Inv, Delivered;
    if k == 0 {
      p := Init(c.workers, c.limit, c.start, false);
      Stays(p);
      InitHolds(c.workers, c.limit, c.start, false);
    } else {
      p := Pile(c, k - 1);
      p := PileOne(c, Init(c.workers, c.limit, c.start, false), p, k - 1);
    }
  }

  // ----- turns taken strictly -------------------------------------------------------------

  /** `k` deliveries have been made and no worker has moved. */
  ghost predicate Filled(c: Setup, p: Pool, k: nat) {
    && Inv(p) && p.atomic && p.limit == c.limit && |p.workers| == c.workers
    && !p.stop && p.pending == map[] && Delivered(p) == k
    && (forall w :: 0 <= w < |p.workers| ==> p.workers[w].pc == AtLoop && |p.workers[w].queue| == p.count.tries[w])
    && p.refused == []
  }

  lemma FillOne(c: Setup, first: Pool, p: Pool, k: nat) returns (q: Pool)
    requires Reaches(first, p) && Filled(c, p, k)
    ensures Reaches(first, q) && Delivered(q) == k + 1
    ensures if k < c.workers * c.limit then Filled(c, q, k + 1) else q.refused == [Job(k, 0)]
  {
    hide Inv, Delivered;
    Sized(p);
    var job := Job(k, 0);
    var a, b := Admit(0, job), Deliver(0);
    var p1 := Goes(first, p, a);
    StepKeepsInv(p, a);
    DeliveredGrows(p, a);
    Sized(p1);
    q := Goes(first, p1, b);
    StepKeepsInv(p1, b);
    DeliveredGrows(p1, b);
    if k < c.workers * c.limit {
      HasRoom(p1, p1.idx);
      assert q.pending == map[];
    } else {
      NoRoom(p1);
    }
  }

  lemma MulStep(a: nat, n: nat)
    ensures (a + 1) * n == a * n + n
  {
  }

  lemma RoundsFull(round: nat, offset: nat, n: nat, limit: nat)
    requires round * n + offset >= n * limit && offset < n
    ensures round >= limit
  {
    MulStep(round, n);
    if round < limit {
      MulMonotone(round + 1, limit, n);
    }
  }

  lemma NoRoom(p: Pool)
    requires Inv(p) && p.atomic && Delivered(p) >= |p.workers| * p.limit
    ensures p.count.tries[p.idx] >= p.limit
  {
    IndexMoves(p);
    RoundsFull(p.count.round, p.count.offset, |p.workers|, p.limit);
  }

  lemma {:induction false} Fill(c: Setup, k: nat) returns (p: Pool)
    requires c.start < c.workers && c.atomic && k <= c.workers * c.limit
    ensures Reaches(Init(c.workers, c.limit, c.start, true), p) && Filled(c, p, k)
  {
    hide Inv, Delivered;
    if k == 0 {
      p := Init(c.workers, c.limit, c.start, true);
      Stays(p);
      InitHolds(c.workers, c.limit, c.start, true);
    } else {
      p := Fill(c, k - 1);
      p := FillOne(c, Init(c.workers, c.limit, c.start, true), p, k - 1);
    }
  }

  // ----- the bound is exact ---------------------------------------------------------------

  /** For every pool there is a run in which one delivery beyond the capacity is refused. */
  lemma OneMoreIsRefused(c: Setup) returns (tr: seq<Pool>)
    requires c.start < c.workers
    ensures IsRun(c, tr) && Delivered(Last(tr)) == Capacity(c.workers, c.limit, c.atomic) + 1 && |Last(tr).refused| == 1
  {
    hide Inv, Delivered;
    var k := Capacity(c.workers, c.limit, c.atomic);
    var q: Pool;
    if c.atomic {
      var p := Fill(c, k);
      q := FillOne(c, Init(c.workers, c.limit, c.start, true), p, k);
    } else {
      q := Pile(c, k + 1);
    }
    tr := ReachesIsRun(c, q);
  }

  /** Exactly so many submissions are safe in every run: all queues with atomic deliveries, one queue without. */
  lemma CapacityIsExact(c: Setup, k: nat)
    requires c.start < c.workers
    ensures (forall tr :: IsRun(c, tr) && Delivered(Last(tr)) <= k ==> Last(tr).refused == [])
      <==> k <= Capacity(c.workers, c.limit, c.atomic)
  {
    hide Delivered;
    if k <= Capacity(c.workers, c.limit, c.atomic) {
      forall tr | IsRun(c, tr) && Delivered(Last(tr)) <= k ensures Last(tr).refused == [] {
        NeverRefused(c, tr, |tr| - 1);
      }
    } else {
      var tr := OneMoreIsRefused(c);
    }
  }
}
