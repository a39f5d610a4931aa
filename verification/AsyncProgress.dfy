/** What the wake-up handshake gets done: senders return, the loop gets back to polling, and
    every call is answered. */
module AsyncProgress {
  import opened Seqs
  import opened AsyncProtocol
  import opened AsyncTheorems

  // ---------- what opens and closes a handle ----------

  // What one step does to the handles there are.
  lemma {:induction false} HandlesStep(s: State, e: Event, s': State)
    requires Next(s, e, s')
    ensures e.Close? ==> e.h < |s.handles|
    ensures |s'.handles| == |s.handles| + if e.Open? then 1 else 0
    ensures e.Open? ==> s'.handles[|s.handles|].open && (s'.handles[|s.handles|].hasCb <==> e.hasCb)
    ensures forall h :: 0 <= h < |s.handles| ==>
              && (s'.handles[h].hasCb <==> s.handles[h].hasCb)
              && (s'.handles[h].open <==> s.handles[h].open && e != Close(h))
  {
  }

  /** Whether the handles opened in a run have a callback. */
  function Opened(events: seq<Event>): seq<bool> {
    if events == [] then []
    else
      var last := events[|events| - 1];
      Opened(events[..|events| - 1]) + if last.Open? then [last.hasCb] else []
  }

  /** The handles after `k` steps. */
  ghost predicate AsOpened(s: State, events: seq<Event>) {
    && |s.handles| == |Opened(events)|
    && (forall h: nat :: Close(h) in events ==> h < |s.handles|)
    && forall h :: 0 <= h < |s.handles| ==>
         (s.handles[h].hasCb <==> Opened(events)[h]) && (s.handles[h].open <==> Close(h) !in events)
  }

  /** The handles of a run are those opened in it, with or without a callback as they were
      opened, and each is open exactly until uv_close is called for it. */
  lemma {:induction false} OpenUntilClosed(states: seq<State>, events: seq<Event>, k: nat)
    requires IsRun(states, events) && k < |states|
    ensures AsOpened(states[k], events[..k])
  {
    if k > 0 {
      var before, e := events[..k - 1], events[k - 1];
      OpenUntilClosed(states, events, k - 1);
      assert Next(states[k - 1], e, states[k - 1 + 1]);
      hide IsRun, Next;
      HandlesStep(states[k - 1], e, states[k]);
      assert events[..k] == before + [e];
      assert Opened(before + [e]) == Opened(before) + if e.Open? then [e.hasCb] else [] by {
        assert (before + [e])[..|before|] == before;
      }
    }
  }

  // ---------- what users can do ----------

  /** When the events that come from outside are possible: a send on every open handle, at any
      time and by any thread; init and close while the loop thread runs user code; and the loop
      wakes up as soon as there is something to read, which it then reads to the end. */
  lemma {:induction false} CallsAllowed(s: State, h: nat, hasCb: bool)
    ensures (exists s' :: Next(s, Begin(h), s')) <==> h < |s.handles| && s.handles[h].open
    ensures (exists s' :: Next(s, Open(hasCb), s')) <==> (s.loop == Polling || s.loop == Running) && s.closing == []
    ensures (exists s' :: Next(s, Close(h), s')) <==>
      (s.loop == Polling || s.loop == Running) && s.closing == [] && h < |s.handles| && s.handles[h].open
    ensures (exists s' :: Next(s, Wake, s')) <==> s.loop == Polling && s.closing == [] && s.wake > 0
    ensures (exists s' :: Next(s, Move(s.wake), s')) <==> s.loop == Reading
  {
    if h < |s.handles| && s.handles[h].open {
      assert Next(s, Begin(h), s.(calls := s.calls + [Call(h, Began)]));
      if InUserCode(s) {
        assert Next(s, Close(h), s.(closing := [h], handles := s.handles[h := s.handles[h].(open := false)]));
      }
    }
    if InUserCode(s) {
      assert Next(s, Open(hasCb), s.(handles := s.handles + [Handle(0, true, hasCb, 0, {}, {})], queue := s.queue + [|s.handles|]));
    }
    if s.loop == Polling && s.closing == [] && s.wake > 0 {
      var s' := WakeNow(s);
    }
    if s.loop == Reading {
      assert Next(s, Move(s.wake), s.(wake := 0, loop := Visiting, local := s.queue, queue := []));
    }
  }

  /** A send begins with a call of its own, and no other call changes. */
  lemma {:induction false} BeginAdds(s: State, h: nat, s': State)
    requires Next(s, Begin(h), s')
    ensures s'.calls == s.calls + [Call(h, Began)] && s' == s.(calls := s'.calls)
  {
  }

  // ---------- senders ----------

  /** A step of the call `c` itself. */
  predicate OwnStep(e: Event, c: nat) {
    e == Look(c) || e == Claim(c) || e == Tell(c) || (e.Write? && e.c == c)
  }

  function Rank(p: Phase): nat {
    match p
    case Began => 4
    case SawZero => 3
    case Claimed => 2
    case Wrote => 1
    case Returned => 0
  }

  /** uv_async_send waits for nobody: in every state a call that has not returned has a step,
      and each of its steps brings it nearer to its return, whatever the others do. */
  lemma {:induction false} SenderGoesOn(s: State, c: nat)
    requires Inv(s) && c < |s.calls|
    ensures s.calls[c].phase != Returned <==> exists e, s' :: OwnStep(e, c) && Next(s, e, s')
    ensures forall e, s' :: OwnStep(e, c) && Next(s, e, s') ==>
              c < |s'.calls| && Rank(s'.calls[c].phase) < Rank(s.calls[c].phase) && s'.calls == s.calls[c := s'.calls[c]]
  {
    assert CallOk(s, c);
    hide Lists, HandleOk;
    var call := s.calls[c];
    match call.phase {
      case Began =>
        var s' := if s.handles[call.h].pending != 0 then SetPhase(Owe(s, c), c, Returned) else SetPhase(s, c, SawZero);
        assert Next(s, Look(c), s');
      case SawZero =>
        var h := call.h;
        var s' := if s.handles[h].pending == 0
             then s.(handles := s.handles[h := s.handles[h].(pending := 1, owner := c, owed := s.handles[h].owed + {c})],
                     calls := s.calls[c := Call(h, Claimed)])
             else SetPhase(Owe(s, c), c, Returned);
        assert Next(s, Claim(c), s');
      case Claimed =>
        assert Next(s, Write(c, false), SetPhase(s, c, Wrote).(wake := s.wake + 1));
      case Wrote =>
        assert Next(s, Tell(c), SetPhase(SetPending(s, call.h, 2), c, Returned));
      case Returned =>
    }
  }

  // ---------- the loop ----------

  /** A step of the loop thread on its way through uv__async_io and uv__async_close; the reads
      before the last one are not on it. */
  predicate LoopStep(e: Event) {
    e.Move? || e.Visit? || e.Spin? || e.CallBack? || e.Return? || e.Sleep? || e.CloseSpin?
  }

  /** Everything that the loop thread does. */
  predicate LoopThread(e: Event) {
    LoopStep(e) || e.Open? || e.Close? || e.Wake? || e.Read?
  }

  /** No call is between its two exchanges. */
  predicate Quiet(s: State) {
    forall c :: 0 <= c < |s.calls| ==> !Mid(s.calls[c])
  }

  /** How far the loop is from the end of the pass. */
  function Distance(s: State): nat {
    4 * |s.local| + 4 * (if s.loop == Reading then |s.queue| else 0) + |s.closing| +
    match s.loop
    case Polling => 0
    case Reading => 2
    case Visiting => 1
    case Spinning(_) => 4
    case Calling(_) => 3
    case Running => 2
  }

  // Nobody is busy with a handle when no call is between its exchanges.
  lemma {:induction false} NotBusy(s: State, h: nat)
    requires Inv(s) && Quiet(s) && h < |s.handles|
    ensures s.handles[h].pending == 0 || s.handles[h].pending == 2
  {
    assert HandleOk(s, h);
  }

  /** While no call is between its exchanges the loop waits for nobody: it has a step exactly
      until it polls again with nothing to close, and each step brings it nearer to that. */
  lemma {:induction false} LoopGoesOn(s: State)
    requires Inv(s) && Quiet(s)
    ensures s.loop != Polling || s.closing != [] <==> exists e, s' :: LoopStep(e) && Next(s, e, s')
    ensures forall e, s' :: LoopStep(e) && Next(s, e, s') ==> Distance(s') < Distance(s) && Quiet(s')
  {
    forall e, s' | LoopStep(e) && Next(s, e, s')
      ensures Distance(s') < Distance(s) && Quiet(s')
    {
      LoopFalls(s, e, s');
    }
    if s.loop != Polling || s.closing != [] {
      var e, s' := LoopStepNow(s);
    }
    hide Inv;
  }

  lemma {:induction false} LoopFalls(s: State, e: Event, s': State)
    requires Inv(s) && Quiet(s) && LoopStep(e) && Next(s, e, s')
    ensures Distance(s') < Distance(s) && Quiet(s') && s'.calls == s.calls && s'.wake <= s.wake
  {
    if e.Spin? {
      NotBusy(s, s.loop.h);
    }
    if e.CloseSpin? {
      NotBusy(s, s.closing[0]);
      WithoutLength(s.local, s.closing[0]);
    }
    hide CallOk, HandleOk, Lists, Without;
  }

  lemma {:induction false} LoopStepNow(s: State) returns (e: Event, s': State)
    requires Inv(s) && (s.loop != Polling || s.closing != [])
    ensures LoopStep(e) && Next(s, e, s') && (e.Move? ==> s'.wake == 0)
  {
    if s.closing != [] {
      var h := s.closing[0];
      ClosingExists(s);
      e, s' := CloseSpin, if s.handles[h].pending == 1 then s
        else SetPending(s, h, 0).(closing := [], queue := Without(s.queue, h), local := Without(s.local, h));
    } else {
      match s.loop
      case Reading => e, s' := Move(s.wake), s.(wake := 0, loop := Visiting, local := s.queue, queue := []);
      case Visiting =>
        if s.local == [] {
          e, s' := Sleep, s.(loop := Polling);
        } else {
          e, s' := Visit, s.(loop := Spinning(s.local[0]), local := s.local[1..], queue := s.queue + [s.local[0]]);
        }
      case Spinning(h) =>
        e, s' := Spin, if s.handles[h].pending == 1 then s
          else if s.handles[h].pending == 0 then s.(loop := Visiting)
          else SetPending(s, h, 0).(loop := if s.handles[h].hasCb then Calling(h) else Visiting);
      case Calling(h) =>
        e, s' := CallBack, s.(loop := Running, handles := s.handles[h := s.handles[h].(owed := {})]);
      case Running => e, s' := Return, s.(loop := Visiting);
    }
    hide CallOk, HandleOk, Lists, Without;
  }

  lemma {:induction false} ClosingExists(s: State)
    requires Inv(s) && s.closing != []
    ensures |s.closing| == 1 && s.closing[0] < |s.handles|
  {
  }

  /** A handle that a finished call has signalled: the exchange of the loop takes the signal, and
      then the loop can do nothing before it calls the callback, if there is one, which
      answers all calls so far. */
  lemma {:induction false} SignalTaken(s: State, s': State, h: nat)
    requires Inv(s) && Next(s, Spin, s') && s.loop == Spinning(h) && s.handles[h].pending == 2
    ensures h < |s'.handles| && s'.handles[h].pending == 0
    ensures !s.handles[h].hasCb ==> s'.loop == Visiting
    ensures s.handles[h].hasCb ==>
      && (forall e, s'' :: LoopThread(e) && Next(s', e, s'') ==> e == CallBack && s''.handles[h].owed == {})
      && exists s'' :: Next(s', CallBack, s'')
  {
    hide CallOk, HandleOk, Lists, Without;
    if s.handles[h].hasCb {
      assert Next(s', CallBack, s'.(loop := Running, handles := s'.handles[h := s'.handles[h].(owed := {})]));
    }
  }

  // ---------- whole runs ----------

  /** A pass is over after finitely many steps. */
  lemma {:induction false} PassBounded(states: seq<State>, events: seq<Event>, i: nat, j: nat)
    requires IsRun(states, events) && i <= j < |states| && Quiet(states[i])
    requires forall k :: i <= k < j ==> LoopStep(events[k])
    ensures Quiet(states[j]) && Distance(states[j]) + (j - i) <= Distance(states[i])
    decreases j
  {
    hide Next, Distance, Quiet, Inv, LoopStep;
    if i < j {
      PassBounded(states, events, i, j - 1);
      RunInv(states, events, j - 1);
      assert Next(states[j - 1], events[j - 1], states[j - 1 + 1]);
      LoopGoesOn(states[j - 1]);
    }
  }

  function Work(calls: seq<Call>): nat {
    if calls == [] then 0 else Rank(calls[0].phase) + Work(calls[1..])
  }

  lemma {:induction false} WorkStep(calls: seq<Call>, c: nat, x: Call)
    requires c < |calls|
    ensures Work(calls[c := x]) + Rank(calls[c].phase) == Work(calls) + Rank(x.phase)
  {
    if c > 0 {
      WorkStep(calls[1..], c - 1, x);
      assert calls[c := x][1..] == calls[1..][c - 1 := x];
    } else {
      assert calls[c := x][1..] == calls[1..];
    }
  }

  lemma {:induction false} WorkDone(calls: seq<Call>)
    ensures Work(calls) == 0 <==> forall c :: 0 <= c < |calls| ==> calls[c].phase == Returned
  {
    if calls != [] {
      WorkDone(calls[1..]);
      assert forall c :: 0 <= c < |calls| ==> calls[c] == if c == 0 then calls[0] else calls[1..][c - 1];
    }
  }

  /** All calls have returned, and the loop is about to block. */
  predicate Rest(s: State) {
    && s.loop == Polling && s.closing == [] && s.wake == 0
    && forall c :: 0 <= c < |s.calls| ==> s.calls[c].phase == Returned
  }

  /** No user code opens, closes or signals a handle. */
  predicate Internal(e: Event) {
    !e.Open? && !e.Begin? && !e.Close?
  }

  ghost predicate Goes(states: seq<State>, events: seq<Event>, ss: seq<State>, es: seq<Event>) {
    && |states| == |events| + 1 && IsRun(ss, es) && states <= ss && events <= es
    && forall k :: |events| <= k < |es| ==> Internal(es[k])
  }

  lemma {:induction false} RunMore(states: seq<State>, events: seq<Event>, e: Event, s': State)
    requires IsRun(states, events) && Next(states[|events|], e, s') && Internal(e)
    ensures Goes(states, events, states + [s'], events + [e])
  {
    var ss, es := states + [s'], events + [e];
    forall k | 0 <= k < |es|
      ensures Next(ss[k], es[k], ss[k + 1])
    {
      if k < |events| {
        assert Next(states[k], events[k], states[k + 1]);
        assert ss[k + 1] == states[k + 1];
      }
    }
    hide Next;
  }

  lemma {:induction false} GoesFurther(states: seq<State>, events: seq<Event>, ss: seq<State>, es: seq<Event>,
                                       ss': seq<State>, es': seq<Event>)
    requires Goes(states, events, ss, es) && Goes(ss, es, ss', es')
    ensures Goes(states, events, ss', es')
  {
    assert forall k :: 0 <= k < |es| ==> es'[k] == es[k];
    hide IsRun, Internal;
  }

  lemma {:induction false} GoesRun(states: seq<State>, events: seq<Event>, ss: seq<State>, es: seq<Event>)
    requires Goes(states, events, ss, es)
    ensures |ss| == |es| + 1 && IsRun(ss, es)
  {
  }

  // Some call takes its next step.
  lemma {:induction false} SenderStep(states: seq<State>, events: seq<Event>)
    returns (ss: seq<State>, es: seq<Event>)
    requires IsRun(states, events) && Work(states[|events|].calls) > 0
    ensures Goes(states, events, ss, es) && Work(ss[|es|].calls) < Work(states[|events|].calls)
  {
    var s := states[|events|];
    RunInv(states, events, |events|);
    WorkDone(s.calls);
    var c :| 0 <= c < |s.calls| && s.calls[c].phase != Returned;
    SenderGoesOn(s, c);
    var e, s' :| OwnStep(e, c) && Next(s, e, s');
    hide Inv, Next, IsRun, Work;
    RunMore(states, events, e, s');
    WorkStep(s.calls, c, s'.calls[c]);
    ss, es := states + [s'], events + [e];
  }

  // With all calls returned the loop gets back to polling; the reads empty the descriptor.
  lemma {:induction false} LoopRuns(states: seq<State>, events: seq<Event>) returns (ss: seq<State>, es: seq<Event>)
    requires IsRun(states, events) && Work(states[|events|].calls) == 0
    ensures Goes(states, events, ss, es) && Work(ss[|es|].calls) == 0
    ensures ss[|es|].loop == Polling && ss[|es|].closing == []
    ensures states[|events|].wake == 0 || states[|events|].loop == Reading ==> ss[|es|].wake == 0
    decreases Distance(states[|events|])
  {
    var s := states[|events|];
    RunInv(states, events, |events|);
    if s.loop == Polling && s.closing == [] {
      return states, events;
    }
    WorkDone(s.calls);
    var e, s' := LoopStepNow(s);
    LoopFalls(s, e, s');
    assert s.loop == Reading ==> e.Move? && s'.wake == 0 by { hide Inv; }
    hide Inv, Next, IsRun, Work, Distance, Goes;
    RunMore(states, events, e, s');
    GoesRun(states, events, states + [s'], events + [e]);
    ss, es := LoopRuns(states + [s'], events + [e]);
    GoesFurther(states, events, states + [s'], events + [e], ss, es);
  }

  // One wake-up more, if something is left to read.
  lemma {:induction false} LoopRests(states: seq<State>, events: seq<Event>) returns (ss: seq<State>, es: seq<Event>)
    requires IsRun(states, events) && Work(states[|events|].calls) == 0
    ensures Goes(states, events, ss, es) && Rest(ss[|es|])
  {
    hide Next, IsRun, Work, Distance, Goes;
    ss, es := LoopRuns(states, events);
    GoesRun(states, events, ss, es);
    var s := ss[|es|];
    if s.wake > 0 {
      var s' := WakeNow(s);
      RunMore(ss, es, Wake, s');
      GoesRun(ss, es, ss + [s'], es + [Wake]);
      GoesFurther(states, events, ss, es, ss + [s'], es + [Wake]);
      var ss', es' := LoopRuns(ss + [s'], es + [Wake]);
      GoesFurther(states, events, ss + [s'], es + [Wake], ss', es');
      GoesRun(ss + [s'], es + [Wake], ss', es');
      ss, es := ss', es';
    }
    WorkDone(ss[|es|].calls);
  }

  lemma {:induction false} WakeNow(s: State) returns (s': State)
    requires s.loop == Polling && s.closing == [] && s.wake > 0
    ensures Next(s, Wake, s') && s'.loop == Reading && s'.calls == s.calls
  {
    var hs := seq(|s.handles|, h requires 0 <= h < |s.handles| => s.handles[h].(due := s.handles[h].owed));
    s' := s.(loop := Reading, handles := hs);
  }

  lemma {:induction false} Rests(states: seq<State>, events: seq<Event>) returns (ss: seq<State>, es: seq<Event>)
    requires IsRun(states, events)
    ensures Goes(states, events, ss, es) && Rest(ss[|es|])
    decreases Work(states[|events|].calls)
  {
    assert |states| == |events| + 1;
    hide Next, IsRun, Work, Goes;
    if Work(states[|events|].calls) == 0 {
      ss, es := LoopRests(states, events);
    } else {
      var ss1, es1 := SenderStep(states, events);
      GoesRun(states, events, ss1, es1);
      ss, es := Rests(ss1, es1);
      GoesFurther(states, events, ss1, es1, ss, es);
    }
  }

  /** The call has no answer yet: it is under way, or relies on a callback that is still to come. */
  predicate Unanswered(s: State, c: nat)
    requires c < |s.calls|
  {
    !Settled(s, c) || (s.calls[c].h < |s.handles| && c in s.handles[s.calls[c].h].owed)
  }

  /** From every point of every run, if user code leaves the handles alone, senders and loop can
      go on to a state of rest; and in whatever way they do so, every call for an open handle
      with a callback that had no answer gets one on the way. */
  lemma {:induction false} EverySendIsAnswered(states: seq<State>, events: seq<Event>)
    requires IsRun(states, events)
    ensures exists ss, es :: Goes(states, events, ss, es) && Rest(ss[|es|])
    ensures forall ss, es, c :: Goes(states, events, ss, es) && Rest(ss[|es|]) && 0 <= c < |states[|events|].calls| ==>
              AnsweredBy(states[|events|], ss, es, |events|, c)
  {
    var ss0, es0 := Rests(states, events);
    forall ss, es, c | Goes(states, events, ss, es) && Rest(ss[|es|]) && 0 <= c < |states[|events|].calls|
      ensures AnsweredBy(states[|events|], ss, es, |events|, c)
    {
      CallAnswered(states, events, ss, es, c);
    }
  }

  /** If the call `c` had no answer in `s`, the callback of its handle starts from step `i` on. */
  ghost predicate AnsweredBy(s: State, ss: seq<State>, es: seq<Event>, i: nat, c: nat)
    requires c < |s.calls| && |ss| == |es| + 1
  {
    var h := s.calls[c].h;
    h < |s.handles| && s.handles[h].open && s.handles[h].hasCb && Unanswered(s, c) ==> Called(ss, es, h, i, |es|)
  }

  lemma {:induction false} CallAnswered(states: seq<State>, events: seq<Event>, ss: seq<State>, es: seq<Event>, c: nat)
    requires IsRun(states, events) && Goes(states, events, ss, es) && Rest(ss[|es|]) && c < |states[|events|].calls|
    ensures AnsweredBy(states[|events|], ss, es, |events|, c)
  {
    var i, s, h := |events|, states[|events|], states[|events|].calls[c].h;
    assert ss[i] == s;
    if h < |s.handles| && s.handles[h].open && s.handles[h].hasCb && Unanswered(s, c) {
      SendRecorded(ss, es, i, |es|, c);
      StillOpen(states, events, ss, es, h);
      RunInv(ss, es, |es|);
      hide IsRun, Inv;
      QuietMeansAnswered(ss[|es|], h);
    }
  }

  lemma {:induction false} StillOpen(states: seq<State>, events: seq<Event>, ss: seq<State>, es: seq<Event>, h: nat)
    requires IsRun(states, events) && Goes(states, events, ss, es)
    requires h < |states[|events|].handles| && states[|events|].handles[h].open
    ensures h < |ss[|es|].handles| ==> ss[|es|].handles[h].open
  {
    OpenUntilClosed(states, events, |events|);
    OpenUntilClosed(ss, es, |es|);
    assert events[..|events|] == events && es[..|es|] == es;
    forall k | 0 <= k < |es|
      ensures es[k] != Close(h)
    {
      if k < |events| {
        assert es[k] == events[k] && events[k] in events;
      }
    }
  }
}
