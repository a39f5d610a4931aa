/** The wake-up handshake of async.c as a transition system: any number of sender
    threads and handles, one loop, one atomic step per read, write or
    compare-and-swap. */
module AsyncProtocol {
  import opened Seqs

  /** How far a call of uv_async_send has come. */
  datatype Phase =
    | Began     // about to read h->pending
    | SawZero   // about to exchange 0 for 1
    | Claimed   // about to write to the descriptor
    | Wrote     // about to exchange 1 for 2
    | Returned

  datatype Call = Call(h: nat, phase: Phase)

  /** A uv_async_t.  `owner`, `owed` and `due` record history: the last call that set
      `pending` to 1, the calls not yet answered by a callback, and those of them
      that were there when the current pass of uv__async_io started. */
  datatype Handle = Handle(pending: nat, open: bool, hasCb: bool, owner: nat, owed: set<nat>, due: set<nat>)

  /** Where the loop thread is; `Running` is inside an async callback. */
  datatype LoopAt = Polling | Reading | Visiting | Spinning(h: nat) | Calling(h: nat) | Running

  /** `queue` is loop->async_handles, `local` the list of a pass, `wake` the unread
      wake-ups, and `closing` the handle in uv__async_close, if any. */
  datatype State = State(handles: seq<Handle>, calls: seq<Call>, queue: seq<nat>, local: seq<nat>, wake: nat,
                         loop: LoopAt, closing: seq<nat>, aborted: bool)

  datatype Event =
    | Open(hasCb: bool)
    | Begin(h: nat)
    | Look(c: nat)
    | Claim(c: nat)
    | Write(c: nat, full: bool)
    | Tell(c: nat)
    | Wake
    | Read(n: nat)
    | Move(n: nat)
    | Visit
    | Spin
    | CallBack
    | Return
    | Sleep
    | Close(h: nat)
    | CloseSpin

  predicate Init(s: State) {
    s == State([], [], [], [], 0, Polling, [], false)
  }

  /** The loop thread runs user code. */
  predicate InUserCode(s: State) {
    (s.loop == Polling || s.loop == Running) && s.closing == []
  }

  predicate OpenStep(s: State, s': State, hasCb: bool) {
    && InUserCode(s)
    && s' == s.(handles := s.handles + [Handle(0, true, hasCb, 0, {}, {})], queue := s.queue + [|s.handles|])
  }

  /** A thread calls uv_async_send on a handle that is not closing. */
  predicate BeginStep(s: State, s': State, h: nat) {
    && h < |s.handles| && s.handles[h].open
    && s' == s.(calls := s.calls + [Call(h, Began)])
  }

  function SetPhase(s: State, c: nat, p: Phase): State
    requires c < |s.calls|
  {
    s.(calls := s.calls[c := s.calls[c].(phase := p)])
  }

  function SetPending(s: State, h: nat, p: nat): State
    requires h < |s.handles|
  {
    s.(handles := s.handles[h := s.handles[h].(pending := p)])
  }

  /** From here on the call relies on a callback. */
  function Owe(s: State, c: nat): State
    requires c < |s.calls| && s.calls[c].h < |s.handles|
  {
    var h := s.calls[c].h;
    s.(handles := s.handles[h := s.handles[h].(owed := s.handles[h].owed + {c})])
  }

  predicate At(s: State, c: nat, p: Phase) {
    c < |s.calls| && s.calls[c].h < |s.handles| && s.calls[c].phase == p
  }

  predicate LookStep(s: State, s': State, c: nat) {
    && At(s, c, Began)
    && s' == if s.handles[s.calls[c].h].pending != 0 then SetPhase(Owe(s, c), c, Returned) else SetPhase(s, c, SawZero)
  }

  predicate ClaimStep(s: State, s': State, c: nat) {
    && At(s, c, SawZero)
    && var h := s.calls[c].h;
    && s' == if s.handles[h].pending == 0
             then s.(handles := s.handles[h := s.handles[h].(pending := 1, owner := c, owed := s.handles[h].owed + {c})],
                     calls := s.calls[c := Call(h, Claimed)])
             else SetPhase(Owe(s, c), c, Returned)
  }

  /** EAGAIN leaves a descriptor that is full, hence readable. */
  predicate WriteStep(s: State, s': State, c: nat, full: bool) {
    && At(s, c, Claimed) && (full ==> s.wake > 0)
    && s' == SetPhase(s, c, Wrote).(wake := if full then s.wake else s.wake + 1)
  }

  predicate TellStep(s: State, s': State, c: nat) {
    && At(s, c, Wrote)
    && s' == if s.handles[s.calls[c].h].pending == 1 then SetPhase(SetPending(s, s.calls[c].h, 2), c, Returned)
             else s.(aborted := true)
  }

  /** The descriptor is readable: uv__async_io starts. */
  predicate WakeStep(s: State, s': State) {
    && s.loop == Polling && s.closing == [] && s.wake > 0
    && |s'.handles| == |s.handles|
    && (forall h :: 0 <= h < |s.handles| ==> s'.handles[h] == s.handles[h].(due := s.handles[h].owed))
    && s' == s.(loop := Reading, handles := s'.handles)
  }

  /** A read that was interrupted or filled the buffer. */
  predicate ReadStep(s: State, s': State, n: nat) {
    && s.loop == Reading && n <= s.wake
    && s' == s.(wake := s.wake - n)
  }

  /** The last read, and QUEUE_MOVE. */
  predicate MoveStep(s: State, s': State, n: nat) {
    && s.loop == Reading && n <= s.wake
    && s' == s.(wake := s.wake - n, loop := Visiting, local := s.queue, queue := [])
  }

  predicate VisitStep(s: State, s': State) {
    && s.loop == Visiting && s.local != []
    && s' == s.(loop := Spinning(s.local[0]), local := s.local[1..], queue := s.queue + [s.local[0]])
  }

  /** One turn of uv__async_spin. */
  predicate SpinStep(s: State, s': State) {
    && s.loop.Spinning? && s.loop.h < |s.handles|
    && var h := s.loop.h;
    && s' == if s.handles[h].pending == 1 then s
             else if s.handles[h].pending == 0 then s.(loop := Visiting)
             else SetPending(s, h, 0).(loop := if s.handles[h].hasCb then Calling(h) else Visiting)
  }

  /** The callback starts: every call so far has its answer. */
  predicate CallBackStep(s: State, s': State) {
    && s.loop.Calling? && s.loop.h < |s.handles|
    && var h := s.loop.h;
    && s' == s.(loop := Running, handles := s.handles[h := s.handles[h].(owed := {})])
  }

  predicate ReturnStep(s: State, s': State) {
    && s.loop == Running && s.closing == []
    && s' == s.(loop := Visiting)
  }

  predicate SleepStep(s: State, s': State) {
    && s.loop == Visiting && s.local == []
    && s' == s.(loop := Polling)
  }

  predicate CloseStep(s: State, s': State, h: nat) {
    && InUserCode(s) && h < |s.handles| && s.handles[h].open
    && s' == s.(closing := [h], handles := s.handles[h := s.handles[h].(open := false)])
  }

  /** One turn of the spin in uv__async_close; at its end the handle leaves its queue. */
  predicate CloseSpinStep(s: State, s': State) {
    && |s.closing| == 1 && s.closing[0] < |s.handles|
    && var h := s.closing[0];
    && s' == if s.handles[h].pending == 1 then s
             else SetPending(s, h, 0).(closing := [], queue := Without(s.queue, h), local := Without(s.local, h))
  }

  predicate Next(s: State, e: Event, s': State) {
    match e
    case Open(hasCb) => OpenStep(s, s', hasCb)
    case Begin(h) => BeginStep(s, s', h)
    case Look(c) => LookStep(s, s', c)
    case Claim(c) => ClaimStep(s, s', c)
    case Write(c, full) => WriteStep(s, s', c, full)
    case Tell(c) => TellStep(s, s', c)
    case Wake => WakeStep(s, s')
    case Read(n) => ReadStep(s, s', n)
    case Move(n) => MoveStep(s, s', n)
    case Visit => VisitStep(s, s')
    case Spin => SpinStep(s, s')
    case CallBack => CallBackStep(s, s')
    case Return => ReturnStep(s, s')
    case Sleep => SleepStep(s, s')
    case Close(h) => CloseStep(s, s', h)
    case CloseSpin => CloseSpinStep(s, s')
  }
}
