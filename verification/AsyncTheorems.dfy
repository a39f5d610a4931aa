/** The guarantees of the wake-up handshake, in every interleaving. */
module AsyncTheorems {
  import opened Seqs
  import opened AsyncProtocol

  // ---------- the invariant ----------

  predicate Mid(c: Call) {
    c.phase == Claimed || c.phase == Wrote
  }

  /** The current pass has not yet looked at the handle for the last time. */
  predicate StillDue(s: State, h: nat) {
    s.loop == Reading || h in s.local || s.loop == Spinning(h)
  }

  /** Every call that was waiting when the pass started has its callback. */
  ghost predicate Answered(x: Handle) {
    forall c :: c in x.due ==> c !in x.owed
  }

  /** A call between its two exchanges owns the handle. */
  predicate CallOk(s: State, c: nat)
    requires c < |s.calls|
  {
    var call := s.calls[c];
    && call.h < |s.handles|
    && (Mid(call) ==> s.handles[call.h].pending == 1 && s.handles[call.h].owner == c)
    && (call.phase == Began || call.phase == SawZero ==> c !in s.handles[call.h].owed && c !in s.handles[call.h].due)
  }

  /** A handle at 1 has an owner; a fully signalled handle will be seen by this pass
      or by the next, which is bound to come; unanswered calls keep it signalled. */
  ghost predicate HandleOk(s: State, h: nat)
    requires h < |s.handles|
  {
    var x := s.handles[h];
    && x.pending <= 2
    && (x.pending == 1 ==> x.owner < |s.calls| && s.calls[x.owner].h == h && Mid(s.calls[x.owner]))
    && (x.open && (x.pending == 2 || (x.pending == 1 && s.calls[x.owner].phase == Wrote)) ==>
          s.wake > 0 || StillDue(s, h))
    && (x.open && x.hasCb && x.owed != {} ==> x.pending != 0 || s.loop == Calling(h))
    && (x.open && x.hasCb ==> Answered(x) || StillDue(s, h) || s.loop == Calling(h))
    && (h in s.queue || h in s.local <==> x.open || h in s.closing)
    && (h in s.closing ==> !x.open)
    && (forall c :: c in x.owed || c in x.due ==> c < |s.calls|)
  }

  /** The two lists share no handle and hold none twice. */
  predicate Lists(q: seq<nat>, l: seq<nat>, n: nat) {
    && NoDup(q) && NoDup(l)
    && (forall h :: h in q ==> h < n && h !in l)
    && (forall h :: h in l ==> h < n)
  }

  predicate LoopOk(s: State) {
    && (s.loop == Polling || s.loop == Reading ==> s.local == [])
    && (s.loop.Spinning? || s.loop.Calling? ==> s.loop.h !in s.local && s.loop.h < |s.handles|)
    && (s.closing != [] ==> |s.closing| == 1 && s.closing[0] < |s.handles| && (s.loop == Polling || s.loop == Running))
    && Lists(s.queue, s.local, |s.handles|)
    && !s.aborted
  }

  ghost predicate Inv(s: State) {
    && LoopOk(s)
    && (forall c {:trigger CallOk(s, c)} :: 0 <= c < |s.calls| ==> CallOk(s, c))
    && (forall h {:trigger HandleOk(s, h)} :: 0 <= h < |s.handles| ==> HandleOk(s, h))
  }

  // ---------- every step keeps it ----------

  lemma {:induction false} ListsMore(q: seq<nat>, l: seq<nat>, n: nat)
    requires Lists(q, l, n)
    ensures Lists(q + [n], l, n + 1)
  {
    assert forall k :: 0 <= k < |q| ==> q[k] in q;
  }

  lemma {:induction false} ListsMove(q: seq<nat>, n: nat)
    requires Lists(q, [], n)
    ensures Lists([], q, n)
  {
  }

  lemma {:induction false} NoDupVisit(q: seq<nat>, l: seq<nat>)
    requires l != [] && NoDup(l) && NoDup(q) && l[0] !in q
    ensures NoDup(q + [l[0]]) && NoDup(l[1..]) && l[0] !in l[1..]
  {
    assert forall k :: 0 <= k < |q| ==> q[k] in q;
  }

  lemma {:induction false} ListsVisit(q: seq<nat>, l: seq<nat>, n: nat)
    requires Lists(q, l, n) && l != []
    ensures Lists(q + [l[0]], l[1..], n) && l[0] !in l[1..]
    ensures forall h :: h in l <==> h == l[0] || h in l[1..]
  {
    assert l == [l[0]] + l[1..];
    assert l[0] in l;
    assert forall h :: h in l <==> h == l[0] || h in l[1..];
    NoDupVisit(q, l);
    hide NoDup;
  }

  lemma {:induction false} ListsWithout(q: seq<nat>, l: seq<nat>, n: nat, h: nat)
    requires Lists(q, l, n)
    ensures Lists(Without(q, h), Without(l, h), n)
  {
    WithoutNoDup(q, h);
    WithoutNoDup(l, h);
  }

  lemma {:induction false} LoopNext(s: State, e: Event, s': State)
    requires Inv(s) && Next(s, e, s')
    ensures LoopOk(s')
  {
    match e {
      case Open(hasCb) => ListsMore(s.queue, s.local, |s.handles|);
      case Tell(c) => assert CallOk(s, c);
      case Move(n) => ListsMove(s.queue, |s.handles|);
      case Visit => ListsVisit(s.queue, s.local, |s.handles|);
      case CloseSpin => ListsWithout(s.queue, s.local, |s.handles|, s.closing[0]);
      case _ =>
    }
    hide Lists, Without, CallOk, HandleOk;
  }

  lemma {:induction false} CallCallStep(s: State, e: Event, s': State, c: nat)
    requires Inv(s) && Next(s, e, s') && c < |s'.calls|
    requires e.Look? || e.Claim? || e.Write? || e.Tell?
    ensures CallOk(s', c)
  {
    hide Lists, Without, HandleOk, NoDup, StillDue, LoopOk;
    assert CallOk(s, c);
    assert e.Tell? ==> CallOk(s, e.c);
    hide Inv;
  }

  lemma {:induction false} CallNext(s: State, e: Event, s': State, c: nat)
    requires Inv(s) && Next(s, e, s') && c < |s'.calls|
    ensures CallOk(s', c)
  {
    if e.Look? || e.Claim? || e.Write? || e.Tell? {
      CallCallStep(s, e, s', c);
    } else {
      if c < |s.calls| {
        assert CallOk(s, c);
      } else {
        assert HandleOk(s, e.h);
      }
      hide Lists, Without, HandleOk, NoDup, StillDue, LoopOk;
    }
  }

  // A step of a call, seen from a handle.
  lemma {:induction false} HandleCallStep(s: State, e: Event, s': State, h: nat)
    requires Inv(s) && Next(s, e, s') && h < |s.handles|
    requires e.Look? || e.Claim? || e.Write? || e.Tell?
    ensures h < |s'.handles| && HandleOk(s', h)
  {
    if e.Look? {
      HandleLookStep(s, e, s', h);
    } else if e.Claim? {
      HandleClaimStep(s, e, s', h);
    } else {
      HandleTellStep(s, e, s', h);
    }
    hide Inv, Next, HandleOk;
  }

  lemma {:induction false} HandleLookStep(s: State, e: Event, s': State, h: nat)
    requires Inv(s) && Next(s, e, s') && h < |s.handles| && e.Look?
    ensures h < |s'.handles| && HandleOk(s', h)
  {
    hide Lists, Without;
    assert HandleOk(s, h) && CallOk(s, e.c);
    assert s.handles[h].pending == 1 ==> CallOk(s, s.handles[h].owner);
    hide Inv;
  }

  lemma {:induction false} HandleClaimStep(s: State, e: Event, s': State, h: nat)
    requires Inv(s) && Next(s, e, s') && h < |s.handles| && e.Claim?
    ensures h < |s'.handles| && HandleOk(s', h)
  {
    hide Lists, Without;
    assert HandleOk(s, h) && CallOk(s, e.c);
    assert s.handles[h].pending == 1 ==> CallOk(s, s.handles[h].owner);
    hide Inv;
  }

  lemma {:induction false} HandleTellStep(s: State, e: Event, s': State, h: nat)
    requires Inv(s) && Next(s, e, s') && h < |s.handles| && (e.Write? || e.Tell?)
    ensures h < |s'.handles| && HandleOk(s', h)
  {
    hide Lists, Without;
    assert HandleOk(s, h) && CallOk(s, e.c);
    assert s.handles[h].pending == 1 ==> CallOk(s, s.handles[h].owner);
    hide Inv;
  }

  // A step of the loop thread inside uv__async_io, seen from a handle.
  lemma {:induction false} HandlePassStep(s: State, e: Event, s': State, h: nat)
    requires Inv(s) && Next(s, e, s') && h < |s.handles|
    requires e.Wake? || e.Read? || e.Move? || e.Visit? || e.Spin? || e.CallBack? || e.Return? || e.Sleep?
    ensures h < |s'.handles| && HandleOk(s', h)
  {
    if e.Visit? {
      ListsVisit(s.queue, s.local, |s.handles|);
    }
    hide Lists, Without;
    assert HandleOk(s, h);
  }

  lemma {:induction false} HandleOtherStep(s: State, e: Event, s': State, h: nat)
    requires Inv(s) && Next(s, e, s') && h < |s'.handles|
    requires e.Open? || e.Begin? || e.Close? || e.CloseSpin?
    ensures HandleOk(s', h)
  {
    hide Without;
    if h < |s.handles| {
      assert HandleOk(s, h);
    }
  }

  /** Every step of every thread keeps the invariant. */
  lemma {:induction false} InvNext(s: State, e: Event, s': State)
    requires Inv(s) && Next(s, e, s')
    ensures Inv(s')
  {
    LoopNext(s, e, s');
    forall c | 0 <= c < |s'.calls|
      ensures CallOk(s', c)
    {
      CallNext(s, e, s', c);
    }
    hide LoopOk, CallOk, HandleOk;
    forall h | 0 <= h < |s'.handles|
      ensures HandleOk(s', h)
    {
      if e.Open? || e.Begin? || e.Close? || e.CloseSpin? {
        HandleOtherStep(s, e, s', h);
      } else if e.Look? || e.Claim? || e.Write? || e.Tell? {
        HandleCallStep(s, e, s', h);
      } else {
        HandlePassStep(s, e, s', h);
      }
    }
  }

  // ---------- runs ----------

  ghost predicate IsRun(states: seq<State>, events: seq<Event>) {
    && |states| == |events| + 1 && Init(states[0])
    && forall k :: 0 <= k < |events| ==> Next(states[k], events[k], states[k + 1])
  }

  lemma {:induction false} RunInv(states: seq<State>, events: seq<Event>, k: nat)
    requires IsRun(states, events) && k < |states|
    ensures Inv(states[k])
  {
    if k > 0 {
      RunInv(states, events, k - 1);
      assert Next(states[k - 1], events[k - 1], states[k - 1 + 1]);
      InvNext(states[k - 1], events[k - 1], states[k]);
    }
  }

  /** The abort() of uv_async_send is unreachable, and a handle's `pending` stays in 0, 1, 2. */
  lemma {:induction false} NeverAborts(states: seq<State>, events: seq<Event>, k: nat)
    requires IsRun(states, events) && k < |states|
    ensures !states[k].aborted
    ensures forall c :: 0 <= c < |states[k].calls| && states[k].calls[c].phase == Wrote ==>
              states[k].calls[c].h < |states[k].handles| && states[k].handles[states[k].calls[c].h].pending == 1
    ensures forall h :: 0 <= h < |states[k].handles| ==> states[k].handles[h].pending <= 2
  {
    RunInv(states, events, k);
    var s := states[k];
    forall c | 0 <= c < |s.calls| && s.calls[c].phase == Wrote
      ensures s.calls[c].h < |s.handles| && s.handles[s.calls[c].h].pending == 1
    {
      assert CallOk(s, c);
    }
    forall h | 0 <= h < |s.handles|
      ensures s.handles[h].pending <= 2
    {
      assert HandleOk(s, h);
    }
  }

  /** A callback for `h` starts in one of the steps `i` to `j`. */
  ghost predicate Called(states: seq<State>, events: seq<Event>, h: nat, i: nat, j: nat)
    requires |states| == |events| + 1 && j <= |events|
  {
    exists k :: i <= k < j && events[k].CallBack? && states[k].loop == Calling(h)
  }

  predicate Settled(s: State, c: nat)
    requires c < |s.calls|
  {
    s.calls[c].phase != Began && s.calls[c].phase != SawZero
  }

  // One step of what `SendRecorded` says.
  lemma {:induction false} OwedNext(s: State, e: Event, s': State, c: nat)
    requires Inv(s) && Next(s, e, s') && c < |s.calls|
    ensures c < |s'.calls| && s'.calls[c].h == s.calls[c].h < |s.handles| <= |s'.handles|
    ensures var h := s.calls[c].h;
      && (s'.handles[h].hasCb <==> s.handles[h].hasCb)
      && (!Settled(s, c) && Settled(s', c) ==> c in s'.handles[h].owed)
      && (Settled(s, c) ==> Settled(s', c))
      && (c in s.handles[h].owed ==> c in s'.handles[h].owed || (e.CallBack? && s.loop == Calling(h)))
  {
    hide Lists, Without, HandleOk;
    assert CallOk(s, c);
    hide Inv, CallOk, LoopOk;
  }

  // A call that relies on a callback is recorded until a callback starts.
  lemma {:induction false} SendRecorded(states: seq<State>, events: seq<Event>, i: nat, j: nat, c: nat)
    requires IsRun(states, events) && i <= j < |states| && c < |states[i].calls|
    requires var h := states[i].calls[c].h; Settled(states[i], c) ==> h < |states[i].handles| && c in states[i].handles[h].owed
    ensures var h := states[i].calls[c].h;
      && c < |states[j].calls| && states[j].calls[c].h == h < |states[i].handles| <= |states[j].handles|
      && (states[j].handles[h].hasCb <==> states[i].handles[h].hasCb)
      && (Settled(states[j], c) ==> c in states[j].handles[h].owed || Called(states, events, h, i, j))
    decreases j
  {
    var h := states[i].calls[c].h;
    if i == j {
      RunInv(states, events, i);
      assert CallOk(states[i], c);
    } else {
      var k := j - 1;
      SendRecorded(states, events, i, k, c);
      RunInv(states, events, k);
      assert Next(states[k], events[k], states[k + 1]);
      OwedNext(states[k], events[k], states[k + 1], c);
    }
  }

  // With nothing to read and no write under way, nothing is unanswered.
  lemma {:induction false} QuietMeansAnswered(s: State, h: nat)
    requires Inv(s) && s.loop == Polling && s.wake == 0 && h < |s.handles| && s.handles[h].open && s.handles[h].hasCb
    requires forall c :: 0 <= c < |s.calls| && s.calls[c].h == h ==> s.calls[c].phase != Claimed
    ensures s.handles[h].owed == {}
  {
    assert HandleOk(s, h);
  }

  /** No send is lost: when the loop is about to block with nothing to read, and no
      thread is about to write for the handle, every call of uv_async_send that has
      returned was followed by a callback that started after the call began. */
  lemma {:induction false} NoLostSend(states: seq<State>, events: seq<Event>, i: nat, j: nat, c: nat)
    requires IsRun(states, events) && i <= j < |states| && c < |states[i].calls| && states[i].calls[c].phase == Began
    requires c < |states[j].calls| && states[j].calls[c].phase == Returned
    requires states[j].loop == Polling && states[j].wake == 0
    requires var h := states[i].calls[c].h;
      && h < |states[j].handles| && states[j].handles[h].open && states[j].handles[h].hasCb
      && forall d :: 0 <= d < |states[j].calls| && states[j].calls[d].h == h ==> states[j].calls[d].phase != Claimed
    ensures Called(states, events, states[i].calls[c].h, i, j)
  {
    SendRecorded(states, events, i, j, c);
    RunInv(states, events, j);
    QuietMeansAnswered(states[j], states[i].calls[c].h);
  }

  lemma {:induction false} DueKept(states: seq<State>, events: seq<Event>, i: nat, j: nat, h: nat)
    requires IsRun(states, events) && i < j < |states| && events[i].Wake? && h < |states[i].handles|
    requires forall k :: i < k < j ==> states[k].loop != Polling
    ensures h < |states[j].handles| && states[j].handles[h].due == states[i].handles[h].owed
    decreases j
  {
    var k := j - 1;
    assert Next(states[k], events[k], states[k + 1]);
    if i < k {
      DueKept(states, events, i, k, h);
    }
  }

  /** One pass is enough: every call that was unanswered when uv__async_io started has
      its callback before the pass ends, unless the handle is closed meanwhile. */
  lemma {:induction false} PassAnswers(states: seq<State>, events: seq<Event>, i: nat, j: nat, h: nat, c: nat)
    requires IsRun(states, events) && i < j < |states| && events[i].Wake? && states[j].loop == Polling
    requires forall k :: i < k < j ==> states[k].loop != Polling
    requires h < |states[i].handles| && c in states[i].handles[h].owed
    requires c < |states[i].calls| && states[i].calls[c].h == h && Settled(states[i], c)
    requires h < |states[j].handles| && states[j].handles[h].open && states[j].handles[h].hasCb
    ensures Called(states, events, h, i, j)
  {
    DueKept(states, events, i, j, h);
    SendRecorded(states, events, i, j, c);
    SettledKept(states, events, i, j, c);
    RunInv(states, events, j);
    assert HandleOk(states[j], h);
  }

  lemma {:induction false} SettledKept(states: seq<State>, events: seq<Event>, i: nat, j: nat, c: nat)
    requires IsRun(states, events) && i <= j < |states| && c < |states[i].calls| && Settled(states[i], c)
    ensures c < |states[j].calls| && Settled(states[j], c)
    decreases j
  {
    if i < j {
      var k := j - 1;
      SettledKept(states, events, i, k, c);
      RunInv(states, events, k);
      assert Next(states[k], events[k], states[k + 1]);
      OwedNext(states[k], events[k], states[k + 1], c);
      hide Settled, Next, Inv;
    }
  }
}
