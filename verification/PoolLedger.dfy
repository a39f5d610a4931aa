/** Where every work item is: in exactly one place, served in order, told once. */
module PoolLedger {
  import opened Seqs
  import opened PoolQueues
  import opened PoolProtocol
  import opened PoolSafety

  // ---------- one list of items ----------

  predicate Sorted(s: seq<nat>) {
    forall i, j :: 0 <= i < j < |s| ==> s[i] < s[j]
  }

  /** `l < 0` stands for any loop. */
  predicate Match(w: Work, l: int, p: Place) {
    w.place == p && (l < 0 || w.loop == l)
  }

  /** `list` names each item that is at `p` (for loop `l`) once, and no other. */
  ghost predicate Exactly(list: seq<nat>, items: seq<Work>, l: int, p: Place) {
    && NoDup(list)
    && forall i: nat :: i in list <==> i < |items| && Match(items[i], l, p)
  }

  lemma {:induction false} ExactlySame(list: seq<nat>, items: seq<Work>, id: nat, w: Work, l: int, p: Place)
    requires Exactly(list, items, l, p) && id < |items|
    requires Match(items[id], l, p) == Match(w, l, p)
    ensures Exactly(list, items[id := w], l, p)
  {
  }

  lemma {:induction false} ExactlyIn(list: seq<nat>, items: seq<Work>, id: nat, w: Work, l: int, p: Place)
    requires Exactly(list, items, l, p) && id < |items|
    requires !Match(items[id], l, p) && Match(w, l, p)
    ensures Exactly(list + [id], items[id := w], l, p)
  {
    assert id !in list;
    forall i: nat
      ensures i in list + [id] <==> i < |items| && Match(items[id := w][i], l, p)
    {
      assert i in list + [id] <==> i in list || i == id;
    }
  }

  lemma {:induction false} ExactlyOut(list: seq<nat>, items: seq<Work>, id: nat, w: Work, l: int, p: Place)
    requires Exactly(list, items, l, p) && id < |items|
    requires Match(items[id], l, p) && !Match(w, l, p)
    ensures Exactly(Without(list, id), items[id := w], l, p)
  {
    WithoutNoDup(list, id);
  }

  lemma {:induction false} ExactlyNew(list: seq<nat>, items: seq<Work>, w: Work, l: int, p: Place)
    requires Exactly(list, items, l, p)
    ensures Exactly(if Match(w, l, p) then list + [|items|] else list, items + [w], l, p)
  {
    var n := |items|;
    assert n !in list;
    forall i: nat
      ensures i in list + [n] <==> i in list || i == n
    {
    }
  }

  lemma {:induction false} WithoutSorted(q: seq<nat>, x: nat)
    requires Sorted(q)
    ensures Sorted(Without(q, x))
  {
    if q != [] {
      var h, t := q[0], q[1..];
      WithoutSorted(t, x);
      WithoutNoDup(t, x);
      var r := Without(t, x);
      if h != x {
        forall j | 0 <= j < |r|
          ensures h < r[j]
        {
          assert r[j] in t;
          var k :| 0 <= k < |t| && t[k] == r[j];
          assert q[k + 1] == t[k];
        }
      }
    }
  }

  lemma {:induction false} SortedHead(q: seq<nat>)
    requires Sorted(q) && q != []
    ensures Without(q, q[0]) == q[1..] && Sorted(q[1..])
    ensures forall x :: x in q ==> q[0] <= x
  {
    WithoutNone(q[1..], q[0]);
  }

  lemma {:induction false} SortedSnoc(q: seq<nat>, x: nat)
    requires Sorted(q) && forall y :: y in q ==> y < x
    ensures Sorted(q + [x])
  {
    assert forall i :: 0 <= i < |q| ==> q[i] in q;
  }

  // ---------- the ledger ----------

  /** What the history of an item says, by the place where it is. */
  predicate ItemOk(w: Work) {
    match w.place
    case InWq => !w.isSlow && w.fn == User && !w.picked && !w.ran && w.dones == 0
    case InSlow => w.isSlow && w.fn == User && !w.picked && !w.ran && w.dones == 0
    case InWorker(t) => w.fn == User && w.picked && w.dones == 0
    case Cancelling => w.fn != Null && !w.picked && !w.ran && w.dones == 0
    case InLoop => Settled(w) && w.dones == 0
    case InLocal => Settled(w) && w.dones == 0
    case Finished => Settled(w) && w.dones == 1 && w.ecanceled == !w.ran
  }

  /** Either the work function ran, or the item was cancelled before it could. */
  predicate Settled(w: Work) {
    if w.fn == Null then w.picked && w.ran else w.fn == Cancelled && !w.picked && !w.ran
  }

  predicate ItemsOk(items: seq<Work>, nloops: nat) {
    forall i :: 0 <= i < |items| ==> ItemOk(items[i]) && items[i].loop < nloops
  }

  ghost predicate QueuesOk(q: Shared, items: seq<Work>) {
    && Exactly(Items(q.wq), items, -1, InWq) && Sorted(Items(q.wq))
    && Exactly(q.slow, items, -1, InSlow) && Sorted(q.slow)
  }

  predicate Queued(w: Work) {
    w.place.InWq? || w.place.InSlow?
  }

  /** First come, first started: nothing is started while an older item of its kind is queued. */
  predicate InOrder(items: seq<Work>) {
    forall i, j :: 0 <= i < j < |items| && items[j].picked && items[i].isSlow == items[j].isSlow ==> !Queued(items[i])
  }

  predicate Busy(w: Worker) {
    w.Picked? || w.Ran?
  }

  predicate WorkersOk(ws: seq<Worker>, items: seq<Work>) {
    && (forall t :: 0 <= t < |ws| && Busy(ws[t]) ==>
          && ws[t].id < |items| && items[ws[t].id].place == InWorker(t)
          && items[ws[t].id].isSlow == ws[t].isSlow && items[ws[t].id].ran == ws[t].Ran?)
    && (forall i :: 0 <= i < |items| && items[i].place.InWorker? ==>
          items[i].place.t < |ws| && Busy(ws[items[i].place.t]) && ws[items[i].place.t].id == i)
  }

  ghost predicate LoopOk(lp: Loop, items: seq<Work>, l: nat) {
    && Exactly(lp.wq, items, l, InLoop) && Exactly(lp.local, items, l, InLocal)
    && Exactly(lp.cancel, items, l, Cancelling) && |lp.cancel| <= 1
    && (lp.wq != [] ==> lp.pending || lp.grabbing)
    && (lp.grabbing ==> lp.local == [] && lp.cancel == [])
  }

  ghost predicate LoopsOk(loops: seq<Loop>, items: seq<Work>) {
    forall l :: 0 <= l < |loops| ==> LoopOk(loops[l], items, l)
  }

  ghost predicate Ledger(s: State) {
    && QueuesOk(s.q, s.items) && ItemsOk(s.items, |s.loops|) && InOrder(s.items)
    && WorkersOk(s.ws, s.items) && LoopsOk(s.loops, s.items)
  }

  lemma {:induction false} LedgerInit(s: State)
    requires Init(s)
    ensures Ledger(s)
  {
  }

  // ---------- submit ----------

  lemma {:induction false} QueuesSubmit(q: Shared, items: seq<Work>, w: Work, isSlow: bool)
    requires QueuesOk(q, items)
    requires w.place == (if isSlow then InSlow else InWq)
    ensures QueuesOk(Post(q, |items|, isSlow).0, items + [w])
  {
    var n := |items|;
    ItemsAppend(q.wq, [if isSlow then Slow else Item(n)]);
    ExactlyNew(Items(q.wq), items, w, -1, InWq);
    ExactlyNew(q.slow, items, w, -1, InSlow);
    SortedSnoc(Items(q.wq), n);
    SortedSnoc(q.slow, n);
    assert Items([Item(n)]) == [n] && Items([Slow]) == [];
    assert Items(q.wq) + [] == Items(q.wq);
  }

  lemma {:induction false} LoopsSubmit(loops: seq<Loop>, items: seq<Work>, w: Work)
    requires LoopsOk(loops, items) && Queued(w)
    ensures LoopsOk(loops, items + [w])
  {
    forall k | 0 <= k < |loops|
      ensures LoopOk(loops[k], items + [w], k)
    {
      ExactlyNew(loops[k].wq, items, w, k, InLoop);
      ExactlyNew(loops[k].local, items, w, k, InLocal);
      ExactlyNew(loops[k].cancel, items, w, k, Cancelling);
    }
  }

  lemma {:induction false} WorkersSubmit(ws: seq<Worker>, items: seq<Work>, w: Work)
    requires WorkersOk(ws, items) && Queued(w)
    ensures WorkersOk(ws, items + [w])
  {
  }

  lemma {:induction false} LedgerSubmit(s: State, s': State, l: nat, isSlow: bool, wake: nat)
    requires Ledger(s) && SubmitStep(s, s', l, isSlow, wake)
    ensures Ledger(s')
  {
    var w := Work(l, isSlow, User, if isSlow then InSlow else InWq, false, false, 0, false);
    QueuesSubmit(s.q, s.items, w, isSlow);
    LoopsSubmit(s.loops, s.items, w);
    WorkersSubmit(s.ws, s.items, w);
    WorkersWake(s.ws, Post(s.q, |s.items|, isSlow).1, wake, s'.ws, s'.items);
  }

  lemma {:induction false} WorkersWake(ws: seq<Worker>, signal: bool, wake: nat, ws': seq<Worker>, items: seq<Work>)
    requires WorkersOk(ws, items) && Wake(ws, signal, wake, ws')
    ensures WorkersOk(ws', items)
  {
    assert |ws'| == |ws| && forall t :: 0 <= t < |ws| ==> ws'[t] == ws[t] || (!Busy(ws[t]) && !Busy(ws'[t]));
  }

  // ---------- workers ----------

  predicate AtLoop(p: Place) {
    p.InLoop? || p.InLocal? || p.Cancelling?
  }

  lemma {:induction false} LoopsSame(loops: seq<Loop>, items: seq<Work>, id: nat, w: Work)
    requires LoopsOk(loops, items) && id < |items| && !AtLoop(items[id].place) && !AtLoop(w.place)
    ensures LoopsOk(loops, items[id := w])
  {
    forall k | 0 <= k < |loops|
      ensures LoopOk(loops[k], items[id := w], k)
    {
      ExactlySame(loops[k].wq, items, id, w, k, InLoop);
      ExactlySame(loops[k].local, items, id, w, k, InLocal);
      ExactlySame(loops[k].cancel, items, id, w, k, Cancelling);
    }
  }

  lemma {:induction false} QueuesSame(q: Shared, items: seq<Work>, id: nat, w: Work)
    requires QueuesOk(q, items) && id < |items| && !Queued(items[id]) && !Queued(w)
    ensures QueuesOk(q, items[id := w])
  {
    ExactlySame(Items(q.wq), items, id, w, -1, InWq);
    ExactlySame(q.slow, items, id, w, -1, InSlow);
  }

  // The worker that gets a task gets the oldest queued one of its kind.
  lemma {:induction false} QueuesRun(q: Shared, items: seq<Work>, nloops: nat, threshold: nat, t: nat)
    requires QueuesOk(q, items) && ItemsOk(items, nloops) && InOrder(items)
    requires Markers(q.wq) <= 1 && Pick(q, threshold).Run? && Pick(q, threshold).id < |items|
    ensures var r := Pick(q, threshold);
      var items' := items[r.id := items[r.id].(place := InWorker(t), picked := true)];
      && items[r.id].place == (if r.isSlow then InSlow else InWq) && items[r.id].isSlow == r.isSlow
      && QueuesOk(r.s, items') && InOrder(items')
  {
    var r := Pick(q, threshold);
    var w := items[r.id].(place := InWorker(t), picked := true);
    if r.isSlow {
      PickRunsSlow(q, threshold);
      assert q.slow[0] == r.id && q.slow[1..] == r.s.slow;
      SortedHead(q.slow);
      ExactlyOut(q.slow, items, r.id, w, -1, InSlow);
      ExactlySame(Items(q.wq), items, r.id, w, -1, InWq);
    } else {
      PickRunsFast(q, threshold);
      var f := Items(q.wq);
      assert f[0] == r.id && f[1..] == Items(r.s.wq);
      SortedHead(f);
      ExactlyOut(f, items, r.id, w, -1, InWq);
      ExactlySame(q.slow, items, r.id, w, -1, InSlow);
    }
    assert forall i :: 0 <= i < r.id && items[i].isSlow == r.isSlow ==> !Queued(items[i]);
  }

  lemma {:induction false} WorkersRun(ws: seq<Worker>, items: seq<Work>, t: nat, id: nat)
    requires WorkersOk(ws, items) && t < |ws| && !Busy(ws[t]) && id < |items| && !items[id].place.InWorker?
    requires !items[id].ran
    ensures WorkersOk(ws[t := Picked(id, items[id].isSlow)], items[id := items[id].(place := InWorker(t), picked := true)])
  {
  }

  lemma {:induction false} ArriveQueues(q: Shared, w: Worker, items: seq<Work>)
    requires QueuesOk(q, items)
    ensures QueuesOk(Arrive(q, w), items)
  {
  }

  lemma {:induction false} LedgerEnter(s: State, s': State, t: nat, wake: nat)
    requires Ledger(s) && EnterStep(s, s', t, wake)
    ensures Ledger(s')
  {
    var q0, n := Arrive(s.q, s.ws[t]), Threshold(|s.ws|);
    ArriveQueues(s.q, s.ws[t], s.items);
    if Pick(q0, n).Sleep? {
      PickSleeps(q0, n);
    } else {
      var r := Pick(q0, n);
      QueuesRun(q0, s.items, |s.loops|, n, t);
      LoopsSame(s.loops, s.items, r.id, s'.items[r.id]);
      WorkersRun(s.ws, s.items, t, r.id);
      WorkersWake(s.ws[t := Picked(r.id, r.isSlow)], r.signal, wake, s'.ws, s'.items);
    }
  }

  lemma {:induction false} LedgerCallWork(s: State, s': State, t: nat)
    requires Ledger(s) && CallWorkStep(s, s', t)
    ensures Ledger(s')
  {
    var id := s.ws[t].id;
    QueuesSame(s.q, s.items, id, s'.items[id]);
    LoopsSame(s.loops, s.items, id, s'.items[id]);
  }

  // One item enters `loop->wq` of its loop, from a worker or from a cancel.
  lemma {:induction false} LoopsArrive(loops: seq<Loop>, items: seq<Work>, id: nat, w: Work)
    requires LoopsOk(loops, items) && id < |items| && items[id].loop < |loops|
    requires w.place == InLoop && w.loop == items[id].loop && (items[id].place.InWorker? || items[id].place.Cancelling?)
    ensures var l := w.loop;
      var lp := loops[l].(wq := loops[l].wq + [id], pending := true,
                          cancel := if items[id].place.Cancelling? then [] else loops[l].cancel);
      LoopsOk(loops[l := lp], items[id := w])
  {
    var l := w.loop;
    forall k | 0 <= k < |loops| && k != l
      ensures LoopOk(loops[k], items[id := w], k)
    {
      ExactlySame(loops[k].wq, items, id, w, k, InLoop);
      ExactlySame(loops[k].local, items, id, w, k, InLocal);
      ExactlySame(loops[k].cancel, items, id, w, k, Cancelling);
    }
    ExactlyIn(loops[l].wq, items, id, w, l, InLoop);
    ExactlySame(loops[l].local, items, id, w, l, InLocal);
    if items[id].place.Cancelling? {
      ExactlyOut(loops[l].cancel, items, id, w, l, Cancelling);
      assert id in loops[l].cancel;
      assert Without(loops[l].cancel, id) == [];
    } else {
      ExactlySame(loops[l].cancel, items, id, w, l, Cancelling);
    }
  }

  lemma {:induction false} LedgerFinish(s: State, s': State, t: nat)
    requires Ledger(s) && FinishStep(s, s', t)
    ensures Ledger(s')
  {
    var id := s.ws[t].id;
    QueuesSame(s.q, s.items, id, s'.items[id]);
    LoopsArrive(s.loops, s.items, id, s'.items[id]);
  }

  lemma {:induction false} LedgerHandOver(s: State, s': State, l: nat)
    requires Ledger(s) && HandOverStep(s, s', l)
    ensures Ledger(s')
  {
    var id := s.loops[l].cancel[0];
    assert id in s.loops[l].cancel;
    QueuesSame(s.q, s.items, id, s'.items[id]);
    LoopsArrive(s.loops, s.items, id, s'.items[id]);
  }

  // ---------- cancel ----------

  lemma {:induction false} QueuesCancel(q: Shared, items: seq<Work>, id: nat, w: Work)
    requires QueuesOk(q, items) && id < |items| && w == items[id].(place := Cancelling)
    ensures QueuesOk(q.(wq := if items[id].place.InWq? then Without(q.wq, Item(id)) else q.wq,
                        slow := if items[id].place.InSlow? then Without(q.slow, id) else q.slow),
                     items[id := w])
  {
    if items[id].place.InWq? {
      WithoutItems(q.wq, id);
      WithoutSorted(Items(q.wq), id);
      ExactlyOut(Items(q.wq), items, id, w, -1, InWq);
    } else {
      ExactlySame(Items(q.wq), items, id, w, -1, InWq);
    }
    if items[id].place.InSlow? {
      WithoutSorted(q.slow, id);
      ExactlyOut(q.slow, items, id, w, -1, InSlow);
    } else {
      ExactlySame(q.slow, items, id, w, -1, InSlow);
    }
  }

  lemma {:induction false} LoopsCancel(loops: seq<Loop>, items: seq<Work>, id: nat, w: Work)
    requires LoopsOk(loops, items) && id < |items| && items[id].loop < |loops|
    requires w == items[id].(place := Cancelling) && !items[id].place.Cancelling?
    requires loops[w.loop].cancel == [] && !loops[w.loop].grabbing
    ensures var lp := loops[w.loop];
      var lp' := lp.(wq := if items[id].place.InLoop? then Without(lp.wq, id) else lp.wq,
                     local := if items[id].place.InLocal? then Without(lp.local, id) else lp.local,
                     cancel := [id]);
      LoopsOk(loops[w.loop := lp'], items[id := w])
  {
    var l, lp := w.loop, loops[w.loop];
    forall k | 0 <= k < |loops| && k != l
      ensures LoopOk(loops[k], items[id := w], k)
    {
      ExactlySame(loops[k].wq, items, id, w, k, InLoop);
      ExactlySame(loops[k].local, items, id, w, k, InLocal);
      ExactlySame(loops[k].cancel, items, id, w, k, Cancelling);
    }
    if items[id].place.InLoop? {
      ExactlyOut(lp.wq, items, id, w, l, InLoop);
      assert id in lp.wq;
    } else {
      ExactlySame(lp.wq, items, id, w, l, InLoop);
    }
    if items[id].place.InLocal? {
      ExactlyOut(lp.local, items, id, w, l, InLocal);
    } else {
      ExactlySame(lp.local, items, id, w, l, InLocal);
    }
    ExactlyIn(lp.cancel, items, id, w, l, Cancelling);
    assert [] + [id] == [id];
  }

  lemma {:induction false} LedgerCancel(s: State, s': State, id: nat)
    requires Ledger(s) && CancelStep(s, s', id) && !LateCancel(s, Cancel(id))
    ensures Ledger(s')
  {
    var w := s.items[id];
    assert LoopOk(s.loops[w.loop], s.items, w.loop);
    if CanCancel(w) {
      QueuesCancel(s.q, s.items, id, s'.items[id]);
      LoopsCancel(s.loops, s.items, id, s'.items[id]);
    }
  }

  // ---------- completion ----------

  lemma {:induction false} LedgerFire(s: State, s': State, l: nat)
    requires Ledger(s) && FireStep(s, s', l)
    ensures Ledger(s')
  {
  }

  lemma {:induction false} LedgerGrab(s: State, s': State, l: nat)
    requires Ledger(s) && GrabStep(s, s', l)
    ensures Ledger(s')
  {
    var moved := s.loops[l].wq;
    assert forall i :: i in moved ==> i < |s.items| && Match(s.items[i], l, InLoop);
    assert forall i :: 0 <= i < |s.items| ==> s'.items[i] == s.items[i] || (i in moved && s'.items[i] == s.items[i].(place := InLocal));
    GrabLoops(s, s', l);
    assert QueuesOk(s'.q, s'.items);
    assert ItemsOk(s'.items, |s'.loops|);
    assert InOrder(s'.items);
    assert WorkersOk(s'.ws, s'.items);
  }

  lemma {:induction false} GrabLoops(s: State, s': State, l: nat)
    requires Ledger(s) && GrabStep(s, s', l)
    ensures LoopsOk(s'.loops, s'.items)
  {
    var moved := s.loops[l].wq;
    forall k | 0 <= k < |s.loops|
      ensures LoopOk(s'.loops[k], s'.items, k)
    {
      if k == l {
        assert Exactly(s'.loops[l].local, s'.items, l, InLocal);
      } else {
        assert Exactly(s.loops[k].wq, s'.items, k, InLoop);
      }
    }
  }

  lemma {:induction false} LedgerDone(s: State, s': State, l: nat)
    requires Ledger(s) && DoneStep(s, s', l)
    ensures Ledger(s')
  {
    var id := s.loops[l].local[0];
    var w := s'.items[id];
    assert id in s.loops[l].local;
    QueuesSame(s.q, s.items, id, w);
    forall k | 0 <= k < |s.loops|
      ensures LoopOk(s'.loops[k], s'.items, k)
    {
      ExactlySame(s.loops[k].wq, s.items, id, w, k, InLoop);
      ExactlySame(s.loops[k].cancel, s.items, id, w, k, Cancelling);
      if k == l {
        ExactlyOut(s.loops[l].local, s.items, id, w, l, InLocal);
        NoDupTail(s.loops[l].local);
        WithoutNone(s.loops[l].local[1..], id);
      } else {
        ExactlySame(s.loops[k].local, s.items, id, w, k, InLocal);
      }
    }
  }
}
