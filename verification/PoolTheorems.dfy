/** The guarantees of the thread pool over whole runs, in every interleaving. */
module PoolTheorems {
  import opened Seqs
  import opened PoolQueues
  import opened PoolProtocol
  import opened PoolSafety
  import opened PoolLedger

  ghost predicate Inv(s: State) {
    PoolInv(s.q, s.ws) && Ledger(s)
  }

  lemma {:induction false} LedgerNext(s: State, e: Event, s': State)
    requires Ledger(s) && Next(s, e, s') && !LateCancel(s, e)
    ensures Ledger(s')
  {
    match e
    case Submit(l, isSlow, wake) => LedgerSubmit(s, s', l, isSlow, wake);
    case Enter(t, wake) => LedgerEnter(s, s', t, wake);
    case CallWork(t) => LedgerCallWork(s, s', t);
    case Finish(t) => LedgerFinish(s, s', t);
    case Cancel(id) => LedgerCancel(s, s', id);
    case HandOver(l) => LedgerHandOver(s, s', l);
    case Fire(l) => LedgerFire(s, s', l);
    case Grab(l) => LedgerGrab(s, s', l);
    case Done(l) => LedgerDone(s, s', l);
  }

  /** A step keeps the invariant exactly when it is not a late cancel. */
  lemma {:induction false} InvNext(s: State, e: Event, s': State)
    requires Inv(s) && Next(s, e, s')
    ensures Inv(s') <==> !LateCancel(s, e)
  {
    PoolInvNext(s, e, s');
    if LateCancel(s, e) {
      assert ItemOk(s.items[e.id]);
      assert s'.items[e.id].place == Cancelling && s'.items[e.id].dones == 1;
      assert !ItemOk(s'.items[e.id]);
    } else {
      LedgerNext(s, e, s');
    }
  }

  // ---------- runs ----------

  ghost predicate IsRun(states: seq<State>, events: seq<Event>) {
    && |states| == |events| + 1 && Init(states[0])
    && forall k :: 0 <= k < |events| ==> Next(states[k], events[k], states[k + 1])
  }

  /** No request is cancelled again after its done callback reported UV_ECANCELED. */
  ghost predicate Orderly(states: seq<State>, events: seq<Event>)
    requires |states| == |events| + 1
  {
    forall k :: 0 <= k < |events| ==> !LateCancel(states[k], events[k])
  }

  lemma {:induction false} RunInv(states: seq<State>, events: seq<Event>, k: nat)
    requires IsRun(states, events) && Orderly(states, events) && k < |states|
    ensures Inv(states[k])
  {
    if k == 0 {
      PoolInvInit(states[0]);
      LedgerInit(states[0]);
    } else {
      RunInv(states, events, k - 1);
      assert Next(states[k - 1], events[k - 1], states[k - 1 + 1]);
      InvNext(states[k - 1], events[k - 1], states[k]);
    }
  }

  ghost predicate WorkerHas(s: State, id: nat) {
    exists t :: 0 <= t < |s.ws| && Busy(s.ws[t]) && s.ws[t].id == id
  }

  ghost predicate LoopHas(s: State, id: nat, p: Place) {
    exists l :: 0 <= l < |s.loops| && id in ListAt(s.loops[l], p)
  }

  function ListAt(lp: Loop, p: Place): seq<nat> {
    if p == InLoop then lp.wq else if p == InLocal then lp.local else lp.cancel
  }

  /** In how many places an item is. */
  ghost function Places(s: State, id: nat): nat
    requires id < |s.items|
  {
    One(id in Items(s.q.wq)) + One(id in s.q.slow) + One(WorkerHas(s, id)) + One(LoopHas(s, id, Cancelling))
    + One(LoopHas(s, id, InLoop)) + One(LoopHas(s, id, InLocal)) + One(s.items[id].dones > 0)
  }

  lemma {:induction false} LoopHasIff(s: State, id: nat, p: Place)
    requires Ledger(s) && id < |s.items| && AtLoop(p)
    ensures LoopHas(s, id, p) <==> s.items[id].place == p
  {
    var l := s.items[id].loop;
    assert LoopOk(s.loops[l], s.items, l);
    if LoopHas(s, id, p) {
      var k :| 0 <= k < |s.loops| && id in ListAt(s.loops[k], p);
      assert LoopOk(s.loops[k], s.items, k);
    }
  }

  /** Every submitted item is in exactly one place. */
  lemma {:induction false} OnePlace(s: State, id: nat)
    requires Ledger(s) && id < |s.items|
    ensures Places(s, id) == 1
  {
    LoopHasIff(s, id, Cancelling);
    LoopHasIff(s, id, InLoop);
    LoopHasIff(s, id, InLocal);
    assert ItemOk(s.items[id]);
    assert WorkerHas(s, id) <==> s.items[id].place.InWorker?;
  }

  /** Safety of every orderly run, at every moment: each item is in one place, its done
      callback has run at most once, and it was told UV_ECANCELED exactly when its work
      function never ran; slow work stays within its share of the workers. */
  lemma {:induction false} RunSafe(states: seq<State>, events: seq<Event>, k: nat, id: nat)
    requires IsRun(states, events) && Orderly(states, events) && k < |states| && id < |states[k].items|
    ensures Places(states[k], id) == 1 && states[k].items[id].dones <= 1
    ensures states[k].items[id].dones == 1 ==> states[k].items[id].ecanceled == !states[k].items[id].ran
    ensures Count(states[k].ws, Holding) <= (|states[k].ws| + 1) / 2
  {
    RunInv(states, events, k);
    OnePlace(states[k], id);
    assert ItemOk(states[k].items[id]);
  }

  /** No lost wake-up: if all workers sleep unsignalled, nothing is queued. */
  lemma {:induction false} RunNoLostWakeup(states: seq<State>, events: seq<Event>, k: nat)
    requires IsRun(states, events) && Orderly(states, events) && k < |states|
    requires forall t :: 0 <= t < |states[k].ws| ==> states[k].ws[t] == Waiting
    ensures states[k].q.wq == [] && states[k].q.slow == []
    ensures forall i :: 0 <= i < |states[k].items| ==> !Queued(states[k].items[i]) && !states[k].items[i].place.InWorker?
  {
    RunInv(states, events, k);
    NoLostWakeup(states[k].q, states[k].ws);
    var s := states[k];
    forall i | 0 <= i < |s.items|
      ensures !Queued(s.items[i]) && !s.items[i].place.InWorker?
    {
      assert Items(s.q.wq) == [];
      assert i !in Items(s.q.wq) && i !in s.q.slow;
    }
  }

  /** Completed work is always announced: a non-empty `loop->wq` has its wq_async
      pending, or uv__work_done is about to take the list. */
  lemma {:induction false} RunAnnounced(states: seq<State>, events: seq<Event>, k: nat, l: nat)
    requires IsRun(states, events) && Orderly(states, events) && k < |states| && l < |states[k].loops|
    requires states[k].loops[l].wq != []
    ensures states[k].loops[l].pending || states[k].loops[l].grabbing
  {
    RunInv(states, events, k);
    assert LoopOk(states[k].loops[l], states[k].items, l);
  }

  // An item that left its queue unstarted is never started.
  lemma {:induction false} Passed(s: State, e: Event, s': State, i: nat)
    requires Ledger(s) && PoolInv(s.q, s.ws) && Next(s, e, s') && i < |s.items|
    requires !Queued(s.items[i]) && !s.items[i].picked
    ensures i < |s'.items| && !Queued(s'.items[i]) && !s'.items[i].picked && s'.items[i].isSlow == s.items[i].isSlow
  {
    if e.Enter? {
      var q0, n := Arrive(s.q, s.ws[e.t]), Threshold(|s.ws|);
      ArriveQueues(s.q, s.ws[e.t], s.items);
      if Pick(q0, n).Run? {
        QueuesRun(q0, s.items, |s.loops|, n, e.t);
      }
    }
  }

  lemma {:induction false} PassedRun(states: seq<State>, events: seq<Event>, k: nat, k': nat, i: nat)
    requires IsRun(states, events) && Orderly(states, events) && k <= k' < |states| && i < |states[k].items|
    requires !Queued(states[k].items[i]) && !states[k].items[i].picked
    ensures i < |states[k'].items| && !Queued(states[k'].items[i]) && !states[k'].items[i].picked
    decreases k'
  {
    if k < k' {
      var p := k' - 1;
      PassedRun(states, events, k, p, i);
      RunInv(states, events, p);
      assert Next(states[p], events[p], states[p + 1]);
      Passed(states[p], events[p], states[p + 1], i);
    }
  }

  /** Fast items start in submission order, and so do slow items: once a younger
      item has started, an older one of its kind that has not will never start. */
  lemma {:induction false} RunFifo(states: seq<State>, events: seq<Event>, k: nat, k': nat, i: nat, j: nat)
    requires IsRun(states, events) && Orderly(states, events) && k <= k' < |states|
    requires i < j < |states[k].items| && states[k].items[i].isSlow == states[k].items[j].isSlow
    requires states[k].items[j].picked && !states[k].items[i].picked
    ensures i < |states[k'].items| && !states[k'].items[i].picked
  {
    RunInv(states, events, k);
    assert !Queued(states[k].items[i]);
    PassedRun(states, events, k, k', i);
  }

  // ---------- the late cancel ----------

  /** The step runs the done callback of the item. */
  predicate Reports(s: State, e: Event, id: nat) {
    e.Done? && e.l < |s.loops| && s.loops[e.l].local != [] && s.loops[e.l].local[0] == id
  }

  /** Done callbacks are counted by nothing else, in any state. */
  lemma {:induction false} DonesStep(s: State, e: Event, s': State, id: nat)
    requires Next(s, e, s') && id < |s.items|
    ensures id < |s'.items| && s'.items[id].dones == s.items[id].dones + if Reports(s, e, id) then 1 else 0
  {
    hide Pick, Post, Wake;
  }

  /** After a late cancel, in whatever way the run goes on, the next done callback of that
      request is its second one. */
  lemma {:induction false} LateCancelRepeats(states: seq<State>, events: seq<Event>, id: nat)
    requires events != [] && |states| == |events| + 1 && Inv(states[0])
    requires forall k :: 0 <= k < |events| ==> Next(states[k], events[k], states[k + 1])
    requires events[0] == Cancel(id) && LateCancel(states[0], events[0])
    requires forall k :: 0 <= k < |events| - 1 ==> !Reports(states[k], events[k], id)
    requires Reports(states[|events| - 1], events[|events| - 1], id)
    ensures id < |states[|events|].items| && states[|events|].items[id].dones == 2
  {
    assert ItemOk(states[0].items[id]);
    var n := |events| - 1;
    DonesKept(states, events, id, n);
    DonesStep(states[n], events[n], states[n + 1], id);
  }

  lemma {:induction false} DonesKept(states: seq<State>, events: seq<Event>, id: nat, k: nat)
    requires |states| == |events| + 1 && k <= |events| && id < |states[0].items|
    requires forall j :: 0 <= j < |events| ==> Next(states[j], events[j], states[j + 1])
    requires forall j :: 0 <= j < k ==> !Reports(states[j], events[j], id)
    ensures id < |states[k].items| && states[k].items[id].dones == states[0].items[id].dones
  {
    if k > 0 {
      DonesKept(states, events, id, k - 1);
      DonesStep(states[k - 1], events[k - 1], states[k - 1 + 1], id);
    }
  }

  function Solo(place: Place, fn: Fn, dones: nat, lp: Loop): State {
    State(Shared(if place.InWq? then [Item(0)] else [], [], 0, 0), [AtLock(false)],
          [Work(0, false, fn, place, false, false, dones, dones > 0)], [lp])
  }

  lemma {:induction false} Extend(states: seq<State>, events: seq<Event>, e: Event, s': State)
    requires IsRun(states, events) && Next(states[|events|], e, s')
    ensures IsRun(states + [s'], events + [e])
  {
    var ss, es := states + [s'], events + [e];
    forall k | 0 <= k < |es|
      ensures Next(ss[k], es[k], ss[k + 1])
    {
      if k < |events| {
        assert Next(states[k], events[k], states[k + 1]);
      }
    }
  }

  /** The events of one cancellation, from the first critical section to the done callback. */
  function Round(): seq<Event> {
    [Cancel(0), HandOver(0), Fire(0), Grab(0), Done(0)]
  }

  const Quiet := Loop([], [], false, false, [])

  /** Without that discipline the done callback can run twice: one worker that never
      gets the mutex, one request, cancelled again after its done callback has run. */
  lemma {:induction false} DoneTwice() returns (states: seq<State>, events: seq<Event>)
    ensures events == [Submit(0, false, 0)] + Round() + Round()
    ensures IsRun(states, events) && states[|events|] == Solo(Finished, Cancelled, 2, Quiet)
  {
    var s0 := State(Shared([], [], 0, 0), [AtLock(false)], [], [Quiet]);
    var s1 := Solo(InWq, User, 0, Quiet);
    states, events := [s0], [];
    Extend(states, events, Submit(0, false, 0), s1);
    states, events := states + [s1], events + [Submit(0, false, 0)];
    assert Without([Item(0)], Item(0)) == [];
    states, events := CancelRound(states, events, InWq, User, 0);
    states, events := CancelRound(states, events, Finished, Cancelled, 1);
  }

  lemma {:induction false} CancelRound(states: seq<State>, events: seq<Event>, place: Place, fn: Fn, dones: nat)
    returns (states': seq<State>, events': seq<Event>)
    requires IsRun(states, events) && states[|events|] == Solo(place, fn, dones, Quiet)
    requires (place == InWq && fn == User) || (place == Finished && fn == Cancelled)
    ensures events' == events + Round()
    ensures IsRun(states', events') && states'[|events'|] == Solo(Finished, Cancelled, dones + 1, Quiet)
  {
    var a := Solo(Cancelling, fn, dones, Quiet.(cancel := [0]));
    var b := Solo(InLoop, Cancelled, dones, Loop([0], [], true, false, []));
    var c := Solo(InLoop, Cancelled, dones, Loop([0], [], false, true, []));
    var d := Solo(InLocal, Cancelled, dones, Loop([], [0], false, false, []));
    var e := Solo(Finished, Cancelled, dones + 1, Quiet);
    assert Without([Item(0)], Item(0)) == [];
    assert Next(states[|events|], Cancel(0), a);
    SoloHandOver(fn, dones, a, b);
    SoloGrab(dones, b, c, d);
    SoloDone(dones, d, e);
    hide Next, IsRun;
    ExtendFive(states, events, Round(), [a, b, c, d, e]);
    states', events' := states + [a, b, c, d, e], events + Round();
  }

  lemma {:induction false} ExtendFive(states: seq<State>, events: seq<Event>, es: seq<Event>, ss: seq<State>)
    requires IsRun(states, events) && |es| == |ss| == 5 && Next(states[|events|], es[0], ss[0])
    requires forall k :: 0 < k < 5 ==> Next(ss[k - 1], es[k], ss[k])
    ensures IsRun(states + ss, events + es)
  {
    hide Next;
    var all, evs, n := states + ss, events + es, |events|;
    forall k | 0 <= k < |evs|
      ensures Next(all[k], evs[k], all[k + 1])
    {
      if k < n {
        assert Next(states[k], events[k], states[k + 1]);
      } else if k > n {
        assert Next(ss[k - n - 1], es[k - n], ss[k - n]);
      }
    }
  }

  lemma {:induction false} SoloHandOver(fn: Fn, dones: nat, a: State, b: State)
    requires a == Solo(Cancelling, fn, dones, Quiet.(cancel := [0]))
    requires b == Solo(InLoop, Cancelled, dones, Loop([0], [], true, false, []))
    ensures Next(a, HandOver(0), b)
  {
    assert a.loops[0].wq + [0] == [0];
    assert b.items == a.items[0 := a.items[0].(place := InLoop, fn := Cancelled)];
    assert b.loops == a.loops[0 := a.loops[0].(wq := [0], pending := true, cancel := [])];
  }

  lemma {:induction false} SoloGrab(dones: nat, b: State, c: State, d: State)
    requires b == Solo(InLoop, Cancelled, dones, Loop([0], [], true, false, []))
    requires c == Solo(InLoop, Cancelled, dones, Loop([0], [], false, true, []))
    requires d == Solo(InLocal, Cancelled, dones, Loop([], [0], false, false, []))
    ensures Next(b, Fire(0), c) && Next(c, Grab(0), d)
  {
    assert c.loops == b.loops[0 := b.loops[0].(pending := false, grabbing := true)];
    assert d.loops == c.loops[0 := c.loops[0].(local := [0], wq := [], grabbing := false)];
  }

  lemma {:induction false} SoloDone(dones: nat, d: State, e: State)
    requires d == Solo(InLocal, Cancelled, dones, Loop([], [0], false, false, []))
    requires e == Solo(Finished, Cancelled, dones + 1, Quiet)
    ensures Next(d, Done(0), e)
  {
    assert d.loops[0].local[1..] == [];
    assert e.items == d.items[0 := d.items[0].(place := Finished, dones := dones + 1, ecanceled := true)];
    assert e.loops == d.loops[0 := d.loops[0].(local := [])];
  }
}
