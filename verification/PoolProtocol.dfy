/** The thread pool as a transition system: any number of workers and event
    loops, one atomic step per critical section.  `Next` lists every step that
    submit, the workers, cancel and the completion hand-off can make. */
module PoolProtocol {
  import opened Seqs
  import opened PoolQueues

  /** Where a worker thread is.  `AtLock(held)` waits for the pool mutex; `held`
      says that it still counts in slow_io_work_running. */
  datatype Worker =
    | AtLock(held: bool)
    | Waiting                        // inside uv_cond_wait, not signalled
    | Signaled                       // signalled, has not got the mutex back
    | Picked(id: nat, isSlow: bool)  // about to call w->work
    | Ran(id: nat, isSlow: bool)     // w->work has returned

  datatype Place = InWq | InSlow | InWorker(t: nat) | Cancelling | InLoop | InLocal | Finished

  /** The field w->work: the caller's function, NULL, or uv__cancelled. */
  datatype Fn = User | Null | Cancelled

  /** A work item.  `place`, `picked`, `ran`, `dones` and `ecanceled` record its history. */
  datatype Work = Work(loop: nat, isSlow: bool, fn: Fn, place: Place, picked: bool, ran: bool,
                       dones: nat, ecanceled: bool)

  /** An event loop: `loop->wq`, the local list of uv__work_done, the pending
      wq_async, whether uv__work_done is about to take the list, and the item
      that uv__work_cancel has unlinked but not yet handed over. */
  datatype Loop = Loop(wq: seq<nat>, local: seq<nat>, pending: bool, grabbing: bool, cancel: seq<nat>)

  datatype State = State(q: Shared, ws: seq<Worker>, items: seq<Work>, loops: seq<Loop>)

  datatype Event =
    | Submit(l: nat, isSlow: bool, wake: nat)
    | Enter(t: nat, wake: nat)
    | CallWork(t: nat)
    | Finish(t: nat)
    | Cancel(id: nat)
    | HandOver(l: nat)
    | Fire(l: nat)
    | Grab(l: nat)
    | Done(l: nat)

  function Threshold(n: nat): nat {
    (n + 1) / 2
  }

  predicate Init(s: State) {
    && s.q == Shared([], [], 0, 0) && s.items == [] && |s.ws| > 0
    && (forall t :: 0 <= t < |s.ws| ==> s.ws[t] == AtLock(false))
    && (forall l :: 0 <= l < |s.loops| ==> s.loops[l] == Loop([], [], false, false, []))
  }

  /** uv_cond_signal: one waiting worker wakes up, if there is one; `wake` is the choice. */
  predicate Wake(ws: seq<Worker>, signal: bool, wake: nat, ws': seq<Worker>) {
    if signal && Waiting in ws then wake < |ws| && ws[wake] == Waiting && ws' == ws[wake := Signaled]
    else ws' == ws
  }

  function SetPlace(items: seq<Work>, id: nat, p: Place): seq<Work>
    requires id < |items|
  {
    items[id := items[id].(place := p)]
  }

  predicate SubmitStep(s: State, s': State, l: nat, isSlow: bool, wake: nat) {
    var (q', signal) := Post(s.q, |s.items|, isSlow);
    && l < |s.loops| && s.loops[l].cancel == [] && !s.loops[l].grabbing
    && s'.q == q' && s'.loops == s.loops
    && s'.items == s.items + [Work(l, isSlow, User, if isSlow then InSlow else InWq, false, false, 0, false)]
    && Wake(s.ws, signal, wake, s'.ws)
  }

  /** The shared data as a worker finds it when it has got the mutex: it takes
      itself off the counters first. */
  function Arrive(q: Shared, w: Worker): Shared {
    q.(idle := if (w.Waiting? || w.Signaled?) && q.idle > 0 then q.idle - 1 else q.idle,
       slowRunning := if w == AtLock(true) && q.slowRunning > 0 then q.slowRunning - 1 else q.slowRunning)
  }

  /** A worker gets the mutex (after the lock, a signal, or a spurious wake-up),
      and leaves the critical section asleep or with a task. */
  predicate EnterStep(s: State, s': State, t: nat, wake: nat) {
    && t < |s.ws| && (s.ws[t].AtLock? || s.ws[t].Waiting? || s.ws[t].Signaled?)
    && Markers(s.q.wq) <= 1
    && s'.loops == s.loops
    && match Pick(Arrive(s.q, s.ws[t]), Threshold(|s.ws|))
       case Sleep(q') => s'.q == q' && s'.items == s.items && s'.ws == s.ws[t := Waiting]
       case Run(q', id, isSlow, signal) =>
         && id < |s.items| && s'.q == q'
         && s'.items == s.items[id := s.items[id].(place := InWorker(t), picked := true)]
         && Wake(s.ws[t := Picked(id, isSlow)], signal, wake, s'.ws)
  }

  predicate CallWorkStep(s: State, s': State, t: nat) {
    && t < |s.ws| && s.ws[t].Picked? && s.ws[t].id < |s.items|
    && s'.q == s.q && s'.loops == s.loops && s'.ws == s.ws[t := Ran(s.ws[t].id, s.ws[t].isSlow)]
    && s'.items == s.items[s.ws[t].id := s.items[s.ws[t].id].(ran := true)]
  }

  predicate FinishStep(s: State, s': State, t: nat) {
    && t < |s.ws| && s.ws[t].Ran? && s.ws[t].id < |s.items| && s.items[s.ws[t].id].loop < |s.loops|
    && var id := s.ws[t].id; var l := s.items[id].loop;
    && s'.q == s.q && s'.ws == s.ws[t := AtLock(s.ws[t].isSlow)]
    && s'.items == s.items[id := s.items[id].(place := InLoop, fn := Null)]
    && s'.loops == s.loops[l := s.loops[l].(wq := s.loops[l].wq + [id], pending := true)]
  }

  /** `!QUEUE_EMPTY(&w->wq) && w->work != NULL`.  Only a worker re-initialises the
      node of the item it takes; a finished item keeps its stale links. */
  predicate CanCancel(w: Work) {
    !w.place.InWorker? && w.fn != Null
  }

  /** uv__work_cancel up to its first unlock; UV_EBUSY when nothing changes. */
  predicate CancelStep(s: State, s': State, id: nat) {
    && id < |s.items| && s.items[id].loop < |s.loops|
    && var w, l := s.items[id], s.items[id].loop;
    && !s.loops[l].grabbing && s.loops[l].cancel == []
    && if !CanCancel(w) then s' == s
       else
         && s'.ws == s.ws
         && s'.q == s.q.(wq := if w.place.InWq? then Without(s.q.wq, Item(id)) else s.q.wq,
                         slow := if w.place.InSlow? then Without(s.q.slow, id) else s.q.slow)
         && s'.items == SetPlace(s.items, id, Cancelling)
         && s'.loops == s.loops[l := s.loops[l].(
              wq := if w.place.InLoop? then Without(s.loops[l].wq, id) else s.loops[l].wq,
              local := if w.place.InLocal? then Without(s.loops[l].local, id) else s.loops[l].local,
              cancel := [id])]
  }

  /** The rest of uv__work_cancel. */
  predicate HandOverStep(s: State, s': State, l: nat) {
    && l < |s.loops| && s.loops[l].cancel != [] && s.loops[l].cancel[0] < |s.items|
    && var id := s.loops[l].cancel[0];
    && s'.q == s.q && s'.ws == s.ws
    && s'.items == s.items[id := s.items[id].(place := InLoop, fn := Cancelled)]
    && s'.loops == s.loops[l := s.loops[l].(wq := s.loops[l].wq + [id], pending := true, cancel := [])]
  }

  /** The loop thread enters uv__work_done for a pending wq_async. */
  predicate FireStep(s: State, s': State, l: nat) {
    && l < |s.loops| && s.loops[l].pending && s.loops[l].local == [] && s.loops[l].cancel == []
    && !s.loops[l].grabbing
    && s'.q == s.q && s'.ws == s.ws && s'.items == s.items
    && s'.loops == s.loops[l := s.loops[l].(pending := false, grabbing := true)]
  }

  /** QUEUE_MOVE(&loop->wq, &wq) under the loop's mutex. */
  predicate GrabStep(s: State, s': State, l: nat) {
    && l < |s.loops| && s.loops[l].grabbing && s.loops[l].local == []
    && s'.q == s.q && s'.ws == s.ws
    && |s'.items| == |s.items|
    && (forall i :: 0 <= i < |s.items| ==>
          s'.items[i] == if i in s.loops[l].wq then s.items[i].(place := InLocal) else s.items[i])
    && s'.loops == s.loops[l := s.loops[l].(local := s.loops[l].wq, wq := [], grabbing := false)]
  }

  /** One turn of the loop of uv__work_done: unlink the head and call its done callback. */
  predicate DoneStep(s: State, s': State, l: nat) {
    && l < |s.loops| && s.loops[l].local != [] && s.loops[l].cancel == [] && s.loops[l].local[0] < |s.items|
    && var id := s.loops[l].local[0];
    && s'.q == s.q && s'.ws == s.ws
    && s'.items == s.items[id := s.items[id].(
         place := Finished, dones := s.items[id].dones + 1, ecanceled := s.items[id].fn == Cancelled)]
    && s'.loops == s.loops[l := s.loops[l].(local := s.loops[l].local[1..])]
  }

  predicate Next(s: State, e: Event, s': State) {
    match e
    case Submit(l, isSlow, wake) => SubmitStep(s, s', l, isSlow, wake)
    case Enter(t, wake) => EnterStep(s, s', t, wake)
    case CallWork(t) => CallWorkStep(s, s', t)
    case Finish(t) => FinishStep(s, s', t)
    case Cancel(id) => CancelStep(s, s', id)
    case HandOver(l) => HandOverStep(s, s', l)
    case Fire(l) => FireStep(s, s', l)
    case Grab(l) => GrabStep(s, s', l)
    case Done(l) => DoneStep(s, s', l)
  }

  /** uv_cancel on a request that was cancelled before and whose done callback has already run. */
  predicate LateCancel(s: State, e: Event) {
    e.Cancel? && e.id < |s.items| && s.items[e.id].place.Finished? && s.items[e.id].fn == Cancelled
  }
}
