/** What the thread pool gets done: which requests can be cancelled, and that every request
    gets its done callback. */
module PoolProgress {
  import opened Seqs
  import opened PoolQueues
  import opened PoolProtocol
  import opened PoolSafety
  import opened PoolLedger
  import opened PoolTheorems

  // ---------- submit ----------

  datatype Request = Request(loop: nat, isSlow: bool)

  /** The requests submitted in a run. */
  function Submitted(events: seq<Event>): seq<Request> {
    if events == [] then []
    else
      var last := events[|events| - 1];
      Submitted(events[..|events| - 1]) + if last.Submit? then [Request(last.l, last.isSlow)] else []
  }

  // What one step does to the requests there are.
  lemma {:induction false} ItemsStep(s: State, e: Event, s': State)
    requires Next(s, e, s')
    ensures |s'.items| == |s.items| + if e.Submit? then 1 else 0
    ensures e.Submit? ==>
      var w := s'.items[|s.items|]; w.loop == e.l && w.isSlow == e.isSlow && Queued(w) && w.fn == User && w.dones == 0
    ensures forall i :: 0 <= i < |s.items| ==> s'.items[i].loop == s.items[i].loop && s'.items[i].isSlow == s.items[i].isSlow
  {
    hide Pick, Post, Wake;
  }

  ghost predicate AsSubmitted(s: State, events: seq<Event>) {
    && |s.items| == |Submitted(events)|
    && forall i :: 0 <= i < |s.items| ==> Request(s.items[i].loop, s.items[i].isSlow) == Submitted(events)[i]
  }

  /** The items of a run are the requests submitted in it, in this order. */
  lemma {:induction false} ItemsAreSubmitted(states: seq<State>, events: seq<Event>, k: nat)
    requires IsRun(states, events) && k < |states|
    ensures AsSubmitted(states[k], events[..k])
  {
    if k > 0 {
      var before, e := events[..k - 1], events[k - 1];
      ItemsAreSubmitted(states, events, k - 1);
      assert Next(states[k - 1], e, states[k - 1 + 1]);
      hide IsRun, Next;
      ItemsStep(states[k - 1], e, states[k]);
      assert events[..k] == before + [e];
      assert (before + [e])[..|before|] == before;
    }
  }

  /** A request can be submitted, and a submitted one cancelled, whenever its loop thread is not
      in uv__work_done's critical section or inside another uv_cancel. */
  lemma {:induction false} CallsAllowed(s: State, l: nat, isSlow: bool, id: nat)
    requires Inv(s) && l < |s.loops|
    ensures (exists wake, s' :: Next(s, Submit(l, isSlow, wake), s')) <==> s.loops[l].cancel == [] && !s.loops[l].grabbing
    ensures (exists s' :: Next(s, Cancel(id), s')) <==>
      id < |s.items| && s.loops[s.items[id].loop].cancel == [] && !s.loops[s.items[id].loop].grabbing
  {
    if s.loops[l].cancel == [] && !s.loops[l].grabbing {
      var (q', signal) := Post(s.q, |s.items|, isSlow);
      var wake, ws' := WakeOne(s.ws, signal);
      var w := Work(l, isSlow, User, if isSlow then InSlow else InWq, false, false, 0, false);
      assert Next(s, Submit(l, isSlow, wake), State(q', ws', s.items + [w], s.loops));
    }
    if id < |s.items| && s.loops[s.items[id].loop].cancel == [] && !s.loops[s.items[id].loop].grabbing {
      var s' := CancelNow(s, id);
    }
  }

  lemma {:induction false} CancelNow(s: State, id: nat) returns (s': State)
    requires Inv(s) && id < |s.items|
    requires s.loops[s.items[id].loop].cancel == [] && !s.loops[s.items[id].loop].grabbing
    ensures Next(s, Cancel(id), s')
  {
    var w, l := s.items[id], s.items[id].loop;
    if !CanCancel(w) {
      s' := s;
    } else {
      s' := State(s.q.(wq := if w.place.InWq? then Without(s.q.wq, Item(id)) else s.q.wq,
                       slow := if w.place.InSlow? then Without(s.q.slow, id) else s.q.slow),
                  s.ws, SetPlace(s.items, id, Cancelling),
                  s.loops[l := s.loops[l].(
                    wq := if w.place.InLoop? then Without(s.loops[l].wq, id) else s.loops[l].wq,
                    local := if w.place.InLocal? then Without(s.loops[l].local, id) else s.loops[l].local,
                    cancel := [id])]);
    }
  }

  // ---------- cancel ----------

  /** The item is in none of the lists. */
  predicate Unlinked(s: State, id: nat) {
    && id !in Items(s.q.wq) && id !in s.q.slow
    && forall l :: 0 <= l < |s.loops| ==> id !in s.loops[l].wq && id !in s.loops[l].local
  }

  /** uv_cancel succeeds exactly if no worker has picked the item, fast or slow, and does nothing
      otherwise.  If it succeeds, the item is taken out of whichever list it was in, and nothing
      else moves. */
  lemma {:induction false} CancelExactly(s: State, s': State, id: nat)
    requires Inv(s) && Next(s, Cancel(id), s')
    ensures id < |s.items| == |s'.items|
    ensures s'.items[id].place == Cancelling <==> !s.items[id].picked
    ensures s.items[id].picked ==> s' == s
    ensures !s.items[id].picked ==>
      && Unlinked(s', id) && s'.ws == s.ws && s'.items == s.items[id := s.items[id].(place := Cancelling)]
      && Items(s'.q.wq) == Without(Items(s.q.wq), id) && s'.q.slow == Without(s.q.slow, id)
      && |s'.loops| == |s.loops|
      && (forall l :: 0 <= l < |s.loops| ==>
            && s'.loops[l].wq == Without(s.loops[l].wq, id) && s'.loops[l].local == Without(s.loops[l].local, id)
            && s'.loops[l].cancel == if l == s.items[id].loop then [id] else s.loops[l].cancel)
  {
    var w := s.items[id];
    assert ItemOk(w) && LoopOk(s.loops[w.loop], s.items, w.loop);
    WithoutItems(s.q.wq, id);
    if !w.picked {
      CancelledElsewhere(s, id);
    }
  }

  // The lists in which the item is not.
  lemma {:induction false} CancelledElsewhere(s: State, id: nat)
    requires Ledger(s) && id < |s.items|
    ensures s.items[id].place != InWq ==> Without(Items(s.q.wq), id) == Items(s.q.wq)
    ensures s.items[id].place != InSlow ==> Without(s.q.slow, id) == s.q.slow
    ensures forall l :: 0 <= l < |s.loops| && (s.items[id].place != InLoop || s.items[id].loop != l) ==>
      Without(s.loops[l].wq, id) == s.loops[l].wq
    ensures forall l :: 0 <= l < |s.loops| && (s.items[id].place != InLocal || s.items[id].loop != l) ==>
      Without(s.loops[l].local, id) == s.loops[l].local
  {
    if s.items[id].place != InWq {
      WithoutNone(Items(s.q.wq), id);
    }
    if s.items[id].place != InSlow {
      WithoutNone(s.q.slow, id);
    }
    forall l | 0 <= l < |s.loops|
      ensures s.items[id].place != InLoop || s.items[id].loop != l ==> Without(s.loops[l].wq, id) == s.loops[l].wq
      ensures s.items[id].place != InLocal || s.items[id].loop != l ==> Without(s.loops[l].local, id) == s.loops[l].local
    {
      assert LoopOk(s.loops[l], s.items, l);
      if s.items[id].place != InLoop || s.items[id].loop != l {
        WithoutNone(s.loops[l].wq, id);
      }
      if s.items[id].place != InLocal || s.items[id].loop != l {
        WithoutNone(s.loops[l].local, id);
      }
    }
  }

  // ---------- progress ----------

  /** A step of the pool itself: no user calls, and no spurious wake-ups. */
  predicate Useful(s: State, e: Event) {
    match e
    case Enter(t, _) => t < |s.ws| && Awake(s.ws[t])
    case Submit(_, _, _) => false
    case Cancel(_) => false
    case _ => true
  }

  predicate Awake(w: Worker) {
    w.AtLock? || w.Signaled?
  }

  /** How many steps an item is away from its done callback. */
  function Rank(w: Work): nat {
    match w.place
    case InWq => 5
    case InSlow => 5
    case InWorker(_) => if w.ran then 3 else 4
    case Cancelling => 3
    case InLoop => 2
    case InLocal => 1
    case Finished => 0
  }

  function Ranks(items: seq<Work>): nat {
    if items == [] then 0 else Rank(items[0]) + Ranks(items[1..])
  }

  function Awakes(ws: seq<Worker>): nat {
    if ws == [] then 0 else One(Awake(ws[0])) + Awakes(ws[1..])
  }

  function Hints(loops: seq<Loop>): nat {
    if loops == [] then 0 else 2 * One(loops[0].pending) + One(loops[0].grabbing) + Hints(loops[1..])
  }

  /** A bound on the useful steps that are left. */
  function Todo(s: State): nat {
    4 * Ranks(s.items) + Awakes(s.ws) + Hints(s.loops)
  }

  lemma {:induction false} RanksUpdate(items: seq<Work>, i: nat, w: Work)
    requires i < |items|
    ensures Ranks(items[i := w]) + Rank(items[i]) == Ranks(items) + Rank(w)
  {
    if i > 0 {
      RanksUpdate(items[1..], i - 1, w);
      assert items[i := w][1..] == items[1..][i - 1 := w];
    } else {
      assert items[i := w][1..] == items[1..];
    }
  }

  lemma {:induction false} RanksLess(a: seq<Work>, b: seq<Work>)
    requires |a| == |b| && forall i :: 0 <= i < |a| ==> Rank(a[i]) <= Rank(b[i])
    ensures Ranks(a) <= Ranks(b)
  {
    if a != [] {
      assert Rank(a[0]) <= Rank(b[0]);
      assert forall i :: 0 <= i < |a| - 1 ==> a[1..][i] == a[i + 1] && b[1..][i] == b[i + 1];
      RanksLess(a[1..], b[1..]);
    }
  }

  lemma {:induction false} AwakesUpdate(ws: seq<Worker>, t: nat, w: Worker)
    requires t < |ws|
    ensures Awakes(ws[t := w]) + One(Awake(ws[t])) == Awakes(ws) + One(Awake(w))
  {
    if t > 0 {
      AwakesUpdate(ws[1..], t - 1, w);
      assert ws[t := w][1..] == ws[1..][t - 1 := w];
    } else {
      assert ws[t := w][1..] == ws[1..];
    }
  }

  lemma {:induction false} HintsUpdate(loops: seq<Loop>, l: nat, lp: Loop)
    requires l < |loops|
    ensures Hints(loops[l := lp]) + 2 * One(loops[l].pending) + One(loops[l].grabbing) ==
            Hints(loops) + 2 * One(lp.pending) + One(lp.grabbing)
  {
    if l > 0 {
      HintsUpdate(loops[1..], l - 1, lp);
      assert loops[l := lp][1..] == loops[1..][l - 1 := lp];
    } else {
      assert loops[l := lp][1..] == loops[1..];
    }
  }

  lemma {:induction false} EnterFalls(s: State, s': State, t: nat, wake: nat)
    requires Inv(s) && EnterStep(s, s', t, wake) && Awake(s.ws[t])
    ensures Todo(s') < Todo(s)
  {
    var q0, n := Arrive(s.q, s.ws[t]), Threshold(|s.ws|);
    match Pick(q0, n)
    case Sleep(_) => AwakesUpdate(s.ws, t, Waiting);
    case Run(_, id, isSlow, signal) =>
      ArriveQueues(s.q, s.ws[t], s.items);
      QueuesRun(q0, s.items, |s.loops|, n, t);
      RanksUpdate(s.items, id, s'.items[id]);
      AwakesUpdate(s.ws, t, Picked(id, isSlow));
      assert ItemOk(s.items[id]);
      var ws1 := s.ws[t := Picked(id, isSlow)];
      if signal && Waiting in ws1 {
        AwakesUpdate(ws1, wake, Signaled);
      }
  }

  lemma {:induction false} FinishFalls(s: State, s': State, t: nat)
    requires Inv(s) && FinishStep(s, s', t)
    ensures Todo(s') < Todo(s)
  {
    var id, l := s.ws[t].id, s.items[s.ws[t].id].loop;
    RanksUpdate(s.items, id, s'.items[id]);
    AwakesUpdate(s.ws, t, s'.ws[t]);
    HintsUpdate(s.loops, l, s'.loops[l]);
  }

  lemma {:induction false} HandOverFalls(s: State, s': State, l: nat)
    requires Inv(s) && HandOverStep(s, s', l)
    ensures Todo(s') < Todo(s)
  {
    var id := s.loops[l].cancel[0];
    assert LoopOk(s.loops[l], s.items, l) && id in s.loops[l].cancel;
    hide PoolInv, QueuesOk, WorkersOk, InOrder;
    HintsUpdate(s.loops, l, s'.loops[l]);
    RanksUpdate(s.items, id, s'.items[id]);
  }

  lemma {:induction false} DoneFalls(s: State, s': State, l: nat)
    requires Inv(s) && DoneStep(s, s', l)
    ensures Todo(s') < Todo(s)
  {
    var id := s.loops[l].local[0];
    assert LoopOk(s.loops[l], s.items, l) && id in s.loops[l].local;
    hide PoolInv, QueuesOk, WorkersOk, InOrder;
    HintsUpdate(s.loops, l, s'.loops[l]);
    RanksUpdate(s.items, id, s'.items[id]);
  }

  lemma {:induction false} TakeFalls(s: State, e: Event, s': State)
    requires Inv(s) && Next(s, e, s') && (e.Fire? || e.Grab?)
    ensures Todo(s') < Todo(s)
  {
    assert LoopOk(s.loops[e.l], s.items, e.l);
    hide PoolInv, QueuesOk, WorkersOk, InOrder;
    HintsUpdate(s.loops, e.l, s'.loops[e.l]);
    if e.Grab? {
      RanksLess(s'.items, s.items);
    }
  }

  /** Each useful step brings the pool nearer to its end. */
  lemma {:induction false} UsefulFalls(s: State, e: Event, s': State)
    requires Inv(s) && Next(s, e, s') && Useful(s, e)
    ensures Todo(s') < Todo(s) && Inv(s')
  {
    InvNext(s, e, s');
    match e
    case Enter(t, wake) => EnterFalls(s, s', t, wake);
    case CallWork(t) =>
      RanksUpdate(s.items, s.ws[t].id, s'.items[s.ws[t].id]);
      AwakesUpdate(s.ws, t, s'.ws[t]);
    case Finish(t) => FinishFalls(s, s', t);
    case HandOver(l) => HandOverFalls(s, s', l);
    case Done(l) => DoneFalls(s, s', l);
    case _ => TakeFalls(s, e, s');
  }

  // A loop with something to pass on has a step.
  lemma {:induction false} LoopHasStep(s: State, l: nat) returns (e: Event, s': State)
    requires Inv(s) && l < |s.loops| && (s.loops[l].wq != [] || s.loops[l].local != [] || s.loops[l].cancel != [])
    ensures Useful(s, e) && Next(s, e, s')
  {
    var lp := s.loops[l];
    assert LoopOk(lp, s.items, l);
    if lp.cancel != [] {
      var id := lp.cancel[0];
      assert id in lp.cancel;
      e, s' := HandOver(l), s.(items := s.items[id := s.items[id].(place := InLoop, fn := Cancelled)],
                               loops := s.loops[l := lp.(wq := lp.wq + [id], pending := true, cancel := [])]);
    } else if lp.local != [] {
      var id := lp.local[0];
      assert id in lp.local;
      var w := s.items[id].(place := Finished, dones := s.items[id].dones + 1, ecanceled := s.items[id].fn == Cancelled);
      e, s' := Done(l), s.(items := s.items[id := w], loops := s.loops[l := lp.(local := lp.local[1..])]);
    } else if lp.grabbing {
      var items := seq(|s.items|, i requires 0 <= i < |s.items| =>
        if i in lp.wq then s.items[i].(place := InLocal) else s.items[i]);
      e, s' := Grab(l), s.(items := items, loops := s.loops[l := lp.(local := lp.wq, wq := [], grabbing := false)]);
    } else {
      e, s' := Fire(l), s.(loops := s.loops[l := lp.(pending := false, grabbing := true)]);
    }
    hide Inv;
  }

  lemma {:induction false} BusyHasStep(s: State, t: nat) returns (e: Event, s': State)
    requires Inv(s) && t < |s.ws| && Busy(s.ws[t])
    ensures Useful(s, e) && Next(s, e, s')
  {
    var w, id := s.ws[t], s.ws[t].id;
    if w.Picked? {
      e, s' := CallWork(t), s.(ws := s.ws[t := Ran(id, w.isSlow)], items := s.items[id := s.items[id].(ran := true)]);
    } else {
      var l := s.items[id].loop;
      e, s' := Finish(t), s.(ws := s.ws[t := AtLock(w.isSlow)],
                             items := s.items[id := s.items[id].(place := InLoop, fn := Null)],
                             loops := s.loops[l := s.loops[l].(wq := s.loops[l].wq + [id], pending := true)]);
    }
  }

  lemma {:induction false} WakeOne(ws: seq<Worker>, signal: bool) returns (wake: nat, ws': seq<Worker>)
    ensures Wake(ws, signal, wake, ws')
  {
    wake, ws' := 0, ws;
    if signal && Waiting in ws {
      wake :| wake < |ws| && ws[wake] == Waiting;
      ws' := ws[wake := Signaled];
    }
  }

  lemma {:induction false} AwakeHasStep(s: State, t: nat) returns (e: Event, s': State)
    requires Inv(s) && t < |s.ws| && Awake(s.ws[t])
    ensures Useful(s, e) && Next(s, e, s')
  {
    var q0, n := Arrive(s.q, s.ws[t]), Threshold(|s.ws|);
    ArriveQueues(s.q, s.ws[t], s.items);
    match Pick(q0, n)
    case Sleep(q') => e, s' := Enter(t, 0), s.(q := q', ws := s.ws[t := Waiting]);
    case Run(q', id, isSlow, signal) =>
      PickedExists(q0, s.items, n);
      var wake, ws' := WakeOne(s.ws[t := Picked(id, isSlow)], signal);
      e, s' := Enter(t, wake), s.(q := q', ws := ws', items := s.items[id := s.items[id].(place := InWorker(t), picked := true)]);
  }

  lemma {:induction false} PickedExists(q: Shared, items: seq<Work>, threshold: nat)
    requires QueuesOk(q, items) && Markers(q.wq) <= 1 && Pick(q, threshold).Run?
    ensures Pick(q, threshold).id < |items|
  {
    var r := Pick(q, threshold);
    if r.isSlow {
      PickRunsSlow(q, threshold);
      assert q.slow[0] in q.slow;
    } else {
      PickRunsFast(q, threshold);
      assert Items(q.wq)[0] in Items(q.wq);
    }
  }

  /** No deadlock: while a request has not had its done callback, some step is possible. */
  lemma {:induction false} SomethingToDo(s: State, id: nat) returns (e: Event, s': State)
    requires Inv(s) && id < |s.items| && !s.items[id].place.Finished?
    ensures Useful(s, e) && Next(s, e, s')
  {
    var w := s.items[id];
    hide Useful, Next, PoolInv, Ledger;
    if AtLoop(w.place) {
      ItemAtLoop(s, id);
      e, s' := LoopHasStep(s, w.loop);
    } else {
      var t := WorkerForItem(s, id);
      if Busy(s.ws[t]) {
        e, s' := BusyHasStep(s, t);
      } else {
        e, s' := AwakeHasStep(s, t);
      }
    }
  }

  lemma {:induction false} ItemAtLoop(s: State, id: nat)
    requires Inv(s) && id < |s.items| && AtLoop(s.items[id].place)
    ensures var l := s.items[id].loop;
      l < |s.loops| && (s.loops[l].wq != [] || s.loops[l].local != [] || s.loops[l].cancel != [])
  {
    var l := s.items[id].loop;
    assert LoopOk(s.loops[l], s.items, l);
    assert id in s.loops[l].wq || id in s.loops[l].local || id in s.loops[l].cancel;
  }

  lemma {:induction false} WorkerForItem(s: State, id: nat) returns (t: nat)
    requires Inv(s) && id < |s.items| && !s.items[id].place.Finished? && !AtLoop(s.items[id].place)
    ensures t < |s.ws| && (Busy(s.ws[t]) || Awake(s.ws[t]))
  {
    if s.items[id].place.InWorker? {
      t := s.items[id].place.t;
    } else {
      assert id in Items(s.q.wq) || id in s.q.slow;
      if forall k :: 0 <= k < |s.ws| ==> s.ws[k] == Waiting {
        NoLostWakeup(s.q, s.ws);
        assert false;
      }
      t :| t < |s.ws| && s.ws[t] != Waiting;
    }
  }

  /** The pool itself can do nothing more. */
  ghost predicate Still(s: State) {
    forall e, s' :: !(Useful(s, e) && Next(s, e, s'))
  }

  lemma {:induction false} StillMeansServed(s: State, id: nat)
    requires Inv(s) && Still(s) && id < |s.items|
    ensures s.items[id].place.Finished? && s.items[id].dones == 1
  {
    assert ItemOk(s.items[id]);
    hide Inv;
    if !s.items[id].place.Finished? {
      var e, s' := SomethingToDo(s, id);
    }
  }

  lemma {:induction false} StepsBounded(states: seq<State>, events: seq<Event>, i: nat, j: nat)
    requires IsRun(states, events) && Orderly(states, events) && i <= j < |states|
    requires forall k :: i <= k < j ==> Useful(states[k], events[k])
    ensures j - i <= Todo(states[i]) - Todo(states[j])
    decreases j
  {
    hide Todo, Inv, Useful, Orderly, Next;
    if i < j {
      StepsBounded(states, events, i, j - 1);
      RunInv(states, events, j - 1);
      assert Next(states[j - 1], events[j - 1], states[j - 1 + 1]);
      UsefulFalls(states[j - 1], events[j - 1], states[j]);
    }
  }

  /** Every request is served: in whatever order the pool takes its steps, from any point of an
      orderly run at most `Todo` more can follow without new calls of the user, and when
      none is left every request has had its done callback, once. */
  lemma {:induction false} EveryRequestIsServed(states: seq<State>, events: seq<Event>, i: nat, j: nat)
    requires IsRun(states, events) && Orderly(states, events) && i <= j < |states|
    requires forall k :: i <= k < j ==> Useful(states[k], events[k])
    ensures j - i <= Todo(states[i]) - Todo(states[j])
    ensures Still(states[j]) ==>
              forall id :: 0 <= id < |states[j].items| ==> states[j].items[id].place.Finished? && states[j].items[id].dones == 1
  {
    hide Todo, Inv, Useful, Orderly, IsRun, Still;
    StepsBounded(states, events, i, j);
    RunInv(states, events, j);
    if Still(states[j]) {
      forall id | 0 <= id < |states[j].items|
        ensures states[j].items[id].place.Finished? && states[j].items[id].dones == 1
      {
        StillMeansServed(states[j], id);
      }
    }
  }
}
