/** What every reachable state of the thread pool satisfies. */
module PoolSafety {
  import opened Seqs
  import opened PoolQueues
  import opened PoolProtocol

  // ---------- counting workers ----------

  /** Groups of workers: unsignalled sleepers; those counted in `idle_threads`;
      those on their way to the mutex with no slow slot; those with a slow slot. */
  datatype Class = Sleeping | Idle | Coming | Holding

  predicate In(w: Worker, c: Class) {
    match c
    case Sleeping => w.Waiting?
    case Idle => w.Waiting? || w.Signaled?
    case Coming => w.Signaled? || w == AtLock(false)
    case Holding => w == AtLock(true) || (w.Picked? && w.isSlow) || (w.Ran? && w.isSlow)
  }

  function One(b: bool): nat {
    if b then 1 else 0
  }

  function Count(ws: seq<Worker>, c: Class): nat {
    if ws == [] then 0 else One(In(ws[0], c)) + Count(ws[1..], c)
  }

  lemma {:induction false} CountUpdate(ws: seq<Worker>, t: nat, w: Worker, c: Class)
    requires t < |ws|
    ensures Count(ws[t := w], c) == Count(ws, c) - One(In(ws[t], c)) + One(In(w, c))
  {
    if t > 0 {
      CountUpdate(ws[1..], t - 1, w, c);
      assert ws[t := w][1..] == ws[1..][t - 1 := w];
    } else {
      assert ws[t := w][1..] == ws[1..];
    }
  }

  lemma {:induction false} CountZero(ws: seq<Worker>, c: Class)
    ensures Count(ws, c) == 0 <==> forall t :: 0 <= t < |ws| ==> !In(ws[t], c)
  {
    if ws != [] {
      CountZero(ws[1..], c);
      assert forall t :: 0 < t < |ws| ==> ws[t] == ws[1..][t - 1];
      assert forall t :: 0 <= t < |ws| - 1 ==> ws[1..][t] == ws[t + 1];
    }
  }

  lemma {:induction false} SleepersIn(ws: seq<Worker>)
    ensures Count(ws, Sleeping) > 0 <==> Waiting in ws
    ensures Count(ws, Sleeping) <= Count(ws, Idle)
  {
    if ws != [] {
      SleepersIn(ws[1..]);
      assert forall x :: x in ws <==> x == ws[0] || x in ws[1..];
    }
  }

  // A signal moves one sleeper, if there is any, to those on their way.
  lemma {:induction false} WakeCounts(ws: seq<Worker>, signal: bool, wake: nat, ws': seq<Worker>)
    requires Wake(ws, signal, wake, ws')
    ensures |ws'| == |ws|
    ensures Count(ws', Idle) == Count(ws, Idle) && Count(ws', Holding) == Count(ws, Holding)
    ensures var k := One(signal && Count(ws, Sleeping) > 0);
      Count(ws', Sleeping) == Count(ws, Sleeping) - k && Count(ws', Coming) == Count(ws, Coming) + k
  {
    SleepersIn(ws);
    if signal && Waiting in ws {
      CountUpdate(ws, wake, Signaled, Sleeping);
      CountUpdate(ws, wake, Signaled, Idle);
      CountUpdate(ws, wake, Signaled, Coming);
      CountUpdate(ws, wake, Signaled, Holding);
    }
  }

  // ---------- the counters, the marker and the wake-ups ----------

  /** How many more workers could start on something right now. */
  function Load(q: Shared, threshold: nat): nat {
    |Items(q.wq)| + One(Markers(q.wq) > 0 && q.slowRunning < threshold)
  }

  /** True whenever the pool mutex is free. */
  predicate PoolInv(q: Shared, ws: seq<Worker>) {
    && |ws| > 0
    && Markers(q.wq) <= 1 && (q.slow != [] ==> Markers(q.wq) == 1)
    && q.slowRunning == Count(ws, Holding) <= Threshold(|ws|)
    && q.idle == Count(ws, Idle)
    && (Count(ws, Sleeping) > 0 ==> Load(q, Threshold(|ws|)) <= Count(ws, Coming))
  }

  lemma {:induction false} PoolInvInit(s: State)
    requires Init(s)
    ensures PoolInv(s.q, s.ws)
  {
    CountZero(s.ws, Holding);
    CountZero(s.ws, Idle);
    CountZero(s.ws, Sleeping);
  }

  lemma {:induction false} PoolInvPost(q: Shared, ws: seq<Worker>, id: nat, isSlow: bool, wake: nat, ws': seq<Worker>)
    requires PoolInv(q, ws) && Wake(ws, Post(q, id, isSlow).1, wake, ws')
    ensures PoolInv(Post(q, id, isSlow).0, ws')
  {
    WakeCounts(ws, Post(q, id, isSlow).1, wake, ws');
    SleepersIn(ws);
    MarkersIn(q.wq);
    ItemsAppend(q.wq, [if isSlow then Slow else Item(id)]);
  }

  // The four counts after worker `t` has become `w`.
  lemma {:induction false} CountsUpdate(ws: seq<Worker>, t: nat, w: Worker)
    requires t < |ws|
    ensures forall c :: Count(ws[t := w], c) == Count(ws, c) - One(In(ws[t], c)) + One(In(w, c))
  {
    forall c
      ensures Count(ws[t := w], c) == Count(ws, c) - One(In(ws[t], c)) + One(In(w, c))
    {
      CountUpdate(ws, t, w, c);
    }
  }

  // A worker on the counters makes them positive, so taking it off is exact.
  lemma {:induction false} ArriveCounts(q: Shared, ws: seq<Worker>, t: nat)
    requires PoolInv(q, ws) && t < |ws|
    ensures var q0 := Arrive(q, ws[t]);
      && q0.wq == q.wq && q0.slow == q.slow
      && q0.idle == q.idle - One(In(ws[t], Idle))
      && q0.slowRunning == q.slowRunning - One(ws[t] == AtLock(true))
  {
    CountZero(ws, Idle);
    CountZero(ws, Holding);
    assert In(ws[t], Idle) ==> q.idle > 0;
    assert In(ws[t], Holding) ==> q.slowRunning > 0;
  }

  lemma {:induction false} PoolInvSleep(q: Shared, ws: seq<Worker>, t: nat)
    requires PoolInv(q, ws) && t < |ws| && (ws[t].AtLock? || ws[t].Waiting? || ws[t].Signaled?)
    requires Pick(Arrive(q, ws[t]), Threshold(|ws|)).Sleep?
    ensures PoolInv(Pick(Arrive(q, ws[t]), Threshold(|ws|)).s, ws[t := Waiting])
  {
    ArriveCounts(q, ws, t);
    CountsUpdate(ws, t, Waiting);
    PickSleeps(Arrive(q, ws[t]), Threshold(|ws|));
  }

  lemma {:induction false} PoolInvRun(q: Shared, ws: seq<Worker>, t: nat, wake: nat, ws': seq<Worker>)
    requires PoolInv(q, ws) && t < |ws| && (ws[t].AtLock? || ws[t].Waiting? || ws[t].Signaled?)
    requires Pick(Arrive(q, ws[t]), Threshold(|ws|)).Run?
    requires var r := Pick(Arrive(q, ws[t]), Threshold(|ws|));
      Wake(ws[t := Picked(r.id, r.isSlow)], r.signal, wake, ws')
    ensures PoolInv(Pick(Arrive(q, ws[t]), Threshold(|ws|)).s, ws')
  {
    var q0, n := Arrive(q, ws[t]), Threshold(|ws|);
    var r := Pick(q0, n);
    var ws1 := ws[t := Picked(r.id, r.isSlow)];
    ArriveCounts(q, ws, t);
    CountsUpdate(ws, t, Picked(r.id, r.isSlow));
    WakeCounts(ws1, r.signal, wake, ws');
    SleepersIn(ws1);
    if r.isSlow {
      PickRunsSlow(q0, n);
    } else {
      PickRunsFast(q0, n);
    }
  }

  lemma {:induction false} PoolInvWorker(q: Shared, ws: seq<Worker>, t: nat, w: Worker)
    requires PoolInv(q, ws) && t < |ws|
    requires (ws[t].Picked? && w == Ran(ws[t].id, ws[t].isSlow)) || (ws[t].Ran? && w == AtLock(ws[t].isSlow))
    ensures PoolInv(q, ws[t := w])
  {
    CountsUpdate(ws, t, w);
  }

  lemma {:induction false} WithoutItems(wq: seq<Entry>, id: nat)
    ensures Items(Without(wq, Item(id))) == Without(Items(wq), id)
    ensures Markers(Without(wq, Item(id))) == Markers(wq)
  {
    if wq != [] {
      WithoutItems(wq[1..], id);
      var rest := Without(wq[1..], Item(id));
      if wq[0] != Item(id) {
        assert ([wq[0]] + rest)[1..] == rest;
      }
    }
  }

  lemma {:induction false} PoolInvCancel(q: Shared, ws: seq<Worker>, id: nat, fromWq: bool, fromSlow: bool)
    requires PoolInv(q, ws)
    ensures PoolInv(q.(wq := if fromWq then Without(q.wq, Item(id)) else q.wq,
                       slow := if fromSlow then Without(q.slow, id) else q.slow), ws)
  {
    WithoutItems(q.wq, id);
    WithoutLength(Items(q.wq), id);
    WithoutLength(q.slow, id);
  }

  /** Every step keeps the counters, the marker and the wake-ups right. */
  lemma {:induction false} PoolInvNext(s: State, e: Event, s': State)
    requires PoolInv(s.q, s.ws) && Next(s, e, s')
    ensures PoolInv(s'.q, s'.ws)
  {
    match e
    case Submit(l, isSlow, wake) => PoolInvPost(s.q, s.ws, |s.items|, isSlow, wake, s'.ws);
    case Enter(t, wake) =>
      if Pick(Arrive(s.q, s.ws[t]), Threshold(|s.ws|)).Sleep? {
        PoolInvSleep(s.q, s.ws, t);
      } else {
        PoolInvRun(s.q, s.ws, t, wake, s'.ws);
      }
    case CallWork(t) => PoolInvWorker(s.q, s.ws, t, s'.ws[t]);
    case Finish(t) => PoolInvWorker(s.q, s.ws, t, s'.ws[t]);
    case Cancel(id) =>
      if CanCancel(s.items[id]) {
        PoolInvCancel(s.q, s.ws, id, s.items[id].place.InWq?, s.items[id].place.InSlow?);
      }
    case HandOver(l) =>
    case Fire(l) =>
    case Grab(l) =>
    case Done(l) =>
  }

  /** No lost wake-up: while work that a worker could start is queued, not all workers sleep. */
  lemma {:induction false} NoLostWakeup(q: Shared, ws: seq<Worker>)
    requires PoolInv(q, ws)
    requires forall t :: 0 <= t < |ws| ==> ws[t] == Waiting
    ensures q.wq == [] && q.slow == []
  {
    CountZero(ws, Holding);
    CountZero(ws, Coming);
    CountZero(ws, Sleeping);
    assert In(ws[0], Sleeping);
    assert Load(q, Threshold(|ws|)) == 0;
    EmptyQueue(q.wq);
  }

  lemma {:induction false} EmptyQueue(wq: seq<Entry>)
    requires Items(wq) == [] && Markers(wq) == 0
    ensures wq == []
  {
  }
}
