/** The dispatch loop of uv__io_poll in epoll.c: a batch of reported events, while callbacks
    start, stop and close watchers. */
module EpollWatchers {
  import opened IoWatchers
  import P = PollWatchers

  /** The watchers, and the descriptors of the events of the batch; -1 is a void event. */
  datatype Batch = Batch(s: State, evs: seq<int>)

  /** What uv__platform_invalidate_fd leaves: the events of `fd` are void. */
  function Void(evs: seq<int>, fd: int): seq<int> {
    seq(|evs|, i requires 0 <= i < |evs| => if evs[i] == fd then -1 else evs[i])
  }

  /** Every event that is not void has a slot. */
  ghost predicate Ready(b: Batch) {
    P.Ready(b.s) && forall i :: 0 <= i < |b.evs| ==> -1 <= b.evs[i] < Watchers(b.s.slots)
  }

  /** Events only become void. */
  ghost predicate Voided(evs: seq<int>, evs': seq<int>) {
    |evs'| == |evs| && forall i :: 0 <= i < |evs| ==> evs'[i] == -1 || evs'[i] == evs[i]
  }

  ghost function Do(b: Batch, op: P.Op): Batch
    requires Ready(b) && P.OpOk(b.s, op)
  {
    Batch(P.Do(b.s, op),
          if op.IoClose? && b.s.ws[op.id].fd != -1 then Void(b.evs, b.s.ws[op.id].fd) else b.evs)
  }

  lemma {:induction false} SlotsStay(s: State, op: P.Op)
    requires P.Ready(s) && P.OpOk(s, op)
    ensures Watchers(P.Do(s, op).slots) >= Watchers(s.slots)
    ensures |P.Do(s, op).ws| >= |s.ws| && forall k :: 0 <= k < |s.ws| ==> P.Do(s, op).ws[k].fd == s.ws[k].fd
  {
    if op.IoStart? {
      ResizedFacts(s.slots, s.ws[op.id].fd + 1);
    }
    hide Inv, Resized;
  }

  lemma {:induction false} DoReady(b: Batch, op: P.Op)
    requires Ready(b) && P.OpOk(b.s, op)
    ensures Ready(Do(b, op)) && Voided(b.evs, Do(b, op).evs)
  {
    P.DoReady(b.s, op);
    SlotsStay(b.s, op);
    hide P.Ready, P.Do;
  }

  ghost predicate OpsOk(b: Batch, ops: seq<P.Op>)
    requires Ready(b)
    decreases |ops|
  {
    ops != [] ==> P.OpOk(b.s, ops[0]) && (DoReady(b, ops[0]); OpsOk(Do(b, ops[0]), ops[1..]))
  }

  ghost function DoAll(b: Batch, ops: seq<P.Op>): (b': Batch)
    requires Ready(b) && OpsOk(b, ops)
    ensures Ready(b') && Voided(b.evs, b'.evs)
    decreases |ops|
  {
    if ops == [] then b
    else
      DoReady(b, ops[0]);
      DoAll(Do(b, ops[0]), ops[1..])
  }

  // ---------- the loop over the batch ----------

  /** What was reported with the event, and what the callback does. */
  datatype Turn = Turn(revents: set<Report>, ops: seq<P.Op>)

  /** The flags for the callback: what is wanted of the report, and for a bare error or hangup
      everything that the watcher waits for. */
  function Flags(pevents: set<Flag>, revents: set<Report>): set<Report> {
    var wanted := Wanted(pevents, revents);
    if wanted == {Err} || wanted == {Hup} then wanted + set f | f in pevents :: Asked(f) else wanted
  }

  /** The callback is called: the event is not void, somebody watches, and something that is
      wanted was reported. */
  ghost predicate Calls(b: Batch, i: nat, turn: Turn)
    requires Ready(b) && i < |b.evs|
  {
    && b.evs[i] != -1 && 0 <= b.s.slots[b.evs[i]] < |b.s.ws|
    && Flags(b.s.ws[b.s.slots[b.evs[i]]].pevents, turn.revents) != {}
  }

  ghost function Tell(b: Batch, i: nat, turn: Turn): Told
    requires Ready(b) && i < |b.evs| && Calls(b, i, turn)
  {
    Told(b.evs[i], b.s.slots[b.evs[i]], Flags(b.s.ws[b.s.slots[b.evs[i]]].pevents, turn.revents))
  }

  ghost predicate TurnOk(b: Batch, i: nat, turn: Turn)
    requires Ready(b) && i < |b.evs|
  {
    Calls(b, i, turn) ==> OpsOk(b, turn.ops)
  }

  /** One turn; an event that nobody watches any more takes its descriptor off the kernel's list. */
  ghost function Visit(b: Batch, i: nat, turn: Turn): (b': Batch)
    requires Ready(b) && i < |b.evs| && TurnOk(b, i, turn)
    ensures Ready(b') && Voided(b.evs, b'.evs)
  {
    if Calls(b, i, turn) then DoAll(b, turn.ops)
    else if b.evs[i] != -1 && b.s.slots[b.evs[i]] == -1 then
      StaleReady(b, b.evs[i]);
      Batch(Deleted(b.s, b.evs[i]), b.evs)
    else b
  }

  lemma {:induction false} StaleReady(b: Batch, fd: int)
    requires Ready(b) && 0 <= fd < Watchers(b.s.slots) && b.s.slots[fd] == -1
    ensures Ready(Batch(Deleted(b.s, fd), b.evs))
  {
    forall k | 0 <= k < |b.s.ws| && Started(b.s, k)
      ensures b.s.ws[k].fd != fd
    {
      assert WatcherOk(b.s, k);
    }
    DeletedInv(b.s, fd);
    hide Inv;
  }

  ghost predicate ScriptOk(b: Batch, i: nat, script: seq<Turn>)
    requires Ready(b) && i <= |b.evs|
    decreases |b.evs| - i
  {
    i < |b.evs| ==> i < |script| && TurnOk(b, i, script[i]) && ScriptOk(Visit(b, i, script[i]), i + 1, script)
  }

  /** The batch after the events from `i` on. */
  ghost function Pass(b: Batch, i: nat, script: seq<Turn>): (b': Batch)
    requires Ready(b) && i <= |b.evs| && ScriptOk(b, i, script)
    ensures Ready(b') && Voided(b.evs, b'.evs)
    decreases |b.evs| - i
  {
    if i == |b.evs| then b else Pass(Visit(b, i, script[i]), i + 1, script)
  }

  /** The callbacks that are called. */
  ghost function PassCalls(b: Batch, i: nat, script: seq<Turn>): seq<Told>
    requires Ready(b) && i <= |b.evs| && ScriptOk(b, i, script)
    decreases |b.evs| - i
  {
    if i == |b.evs| then []
    else (if Calls(b, i, script[i]) then [Tell(b, i, script[i])] else []) + PassCalls(Visit(b, i, script[i]), i + 1, script)
  }

  /** A callback is called for the watcher that is started on its descriptor at that time. */
  lemma {:induction false} CallsStarted(b: Batch, i: nat, turn: Turn)
    requires Ready(b) && i < |b.evs| && Calls(b, i, turn)
    ensures Started(b.s, b.s.slots[b.evs[i]]) && b.s.ws[b.s.slots[b.evs[i]]].fd == b.evs[i]
  {
    assert SlotOk(b.s, b.evs[i]);
  }

  ghost predicate Only(w: Watcher, revents: set<Report>, only: Report) {
    forall r :: r in revents && Concerns(w, r) <==> r == only
  }

  /** The flags that a watcher with a say in the report gets: those that concern it, and with a bare
      error or hangup also all that it waits for. */
  ghost predicate Due(w: Watcher, revents: set<Report>, flags: set<Report>) {
    if Only(w, revents, Err) || Only(w, revents, Hup) then
      forall r :: r in flags <==> (r in revents && Concerns(w, r)) || (r.Asked? && r.flag in w.pevents)
    else forall r :: r in flags <==> r in revents && Concerns(w, r)
  }

  lemma {:induction false} FlagsDue(w: Watcher, revents: set<Report>)
    ensures Due(w, revents, Flags(w.pevents, revents))
    ensures Flags(w.pevents, revents) != {} <==> exists r :: r in revents && Concerns(w, r)
  {
    var wanted := Wanted(w.pevents, revents);
    assert forall r :: r in wanted <==> r in revents && Concerns(w, r);
    assert Only(w, revents, Err) <==> wanted == {Err};
    assert Only(w, revents, Hup) <==> wanted == {Hup};
    assert wanted <= Flags(w.pevents, revents);
    if r :| r in wanted {
      assert r in revents && Concerns(w, r);
    }
  }

  /** Who is called: the event that is not void has a started watcher that the report concerns. */
  lemma {:induction false} CallsExactly(b: Batch, i: nat, turn: Turn)
    requires Ready(b) && i < |b.evs|
    ensures Calls(b, i, turn) <==> b.evs[i] != -1 && exists id :: Rings(b.s, b.evs[i], turn.revents, id)
    ensures Calls(b, i, turn) ==>
      var t := Tell(b, i, turn);
      t.fd == b.evs[i] && Rings(b.s, b.evs[i], turn.revents, t.id) && Due(b.s.ws[t.id], turn.revents, t.flags)
  {
    hide Flags, Due;
    var fd := b.evs[i];
    if Calls(b, i, turn) {
      CallsStarted(b, i, turn);
      FlagsDue(b.s.ws[b.s.slots[fd]], turn.revents);
      assert Rings(b.s, fd, turn.revents, b.s.slots[fd]);
    }
    if fd != -1 {
      forall id | Rings(b.s, fd, turn.revents, id)
        ensures Calls(b, i, turn)
      {
        assert WatcherOk(b.s, id);
        FlagsDue(b.s.ws[id], turn.revents);
      }
    }
  }

  /** The next event gets exactly one callback if it is not void by then and a started watcher of
      its descriptor is concerned by what was reported, and none otherwise; the callback gets
      the flags due to it, and then does what it likes. */
  lemma {:induction false} EventAnswered(b: Batch, i: nat, script: seq<Turn>)
    requires Ready(b) && i < |b.evs| && ScriptOk(b, i, script)
    ensures i < |script| && TurnOk(b, i, script[i])
    ensures var fd, turn := b.evs[i], script[i]; var b' := Visit(b, i, turn);
      && ScriptOk(b', i + 1, script) && Pass(b, i, script) == Pass(b', i + 1, script)
      && var calls, rest := PassCalls(b, i, script), PassCalls(b', i + 1, script);
      if fd != -1 && exists id :: Rings(b.s, fd, turn.revents, id) then
        && OpsOk(b, turn.ops) && b' == DoAll(b, turn.ops)
        && exists t :: calls == [t] + rest && t.fd == fd && Rings(b.s, fd, turn.revents, t.id)
             && Due(b.s.ws[t.id], turn.revents, t.flags)
      else
        && calls == rest && b'.evs == b.evs && b'.s == b.s.(epoll := b'.s.epoll)
        && b'.s.epoll.Keys >= b.s.epoll.Keys - {fd}
  {
    hide Ready, Flags, Rings, Due;
    PassTurn(b, i, script, []);
    CallsExactly(b, i, script[i]);
    var calls, rest := PassCalls(b, i, script), PassCalls(Visit(b, i, script[i]), i + 1, script);
    assert [] + calls == calls && [] + rest == rest;
    if Calls(b, i, script[i]) {
      assert calls == [Tell(b, i, script[i])] + rest;
    }
  }

  /** These are the callbacks for the events from `i` on if none of them does anything: one for each
      event that has a started watcher that the report concerns, in the order of the batch. */
  ghost predicate Heard(s: State, evs: seq<int>, i: nat, script: seq<Turn>, calls: seq<Told>)
    requires i <= |evs| <= |script|
    decreases |evs| - i
  {
    if i == |evs| then calls == []
    else if evs[i] != -1 && exists id :: Rings(s, evs[i], script[i].revents, id) then
      && calls != [] && calls[0].fd == evs[i] && Rings(s, evs[i], script[i].revents, calls[0].id)
      && Due(s.ws[calls[0].id], script[i].revents, calls[0].flags) && Heard(s, evs, i + 1, script, calls[1..])
    else Heard(s, evs, i + 1, script, calls)
  }

  lemma {:induction false} AllHeard(b: Batch, i: nat, script: seq<Turn>)
    requires Ready(b) && i <= |b.evs| <= |script| && ScriptOk(b, i, script)
    requires forall turn :: turn in script ==> turn.ops == []
    ensures Heard(b.s, b.evs, i, script, PassCalls(b, i, script))
    decreases |b.evs| - i
  {
    if i < |b.evs| {
      EventAnswered(b, i, script);
      var b' := Visit(b, i, script[i]);
      assert script[i] in script;
      hide Ready, ScriptOk, Visit, Rings, Due, Pass, PassCalls, Calls;
      AllHeard(b', i + 1, script);
      HeardSame(b'.s, b.s, b.evs, i + 1, script, PassCalls(b', i + 1, script));
    }
  }

  lemma {:induction false} HeardSame(s: State, s': State, evs: seq<int>, i: nat, script: seq<Turn>, calls: seq<Told>)
    requires i <= |evs| <= |script| && s'.ws == s.ws && Heard(s, evs, i, script, calls)
    ensures Heard(s', evs, i, script, calls)
    decreases |evs| - i
  {
    if i < |evs| {
      assert forall id :: Rings(s, evs[i], script[i].revents, id) == Rings(s', evs[i], script[i].revents, id);
      if evs[i] != -1 && exists id :: Rings(s, evs[i], script[i].revents, id) {
        HeardSame(s, s', evs, i + 1, script, calls[1..]);
      } else {
        HeardSame(s, s', evs, i + 1, script, calls);
      }
    }
  }

  /** A descriptor without event in the rest of the batch gets no callback in it. */
  lemma {:induction false} VoidStaysQuiet(b: Batch, i: nat, script: seq<Turn>, fd: int)
    requires Ready(b) && i <= |b.evs| && ScriptOk(b, i, script)
    requires fd != -1 && forall j :: i <= j < |b.evs| ==> b.evs[j] != fd
    ensures forall t :: t in PassCalls(b, i, script) ==> t.fd != fd
    decreases |b.evs| - i
  {
    if i < |b.evs| {
      VoidStaysQuiet(Visit(b, i, script[i]), i + 1, script, fd);
      hide Ready, Visit, TurnOk;
    }
  }

  /** A callback that closes a watcher leaves no event of its descriptor. */
  lemma {:induction false} CloseVoids(b: Batch, ops: seq<P.Op>, id: nat)
    requires Ready(b) && OpsOk(b, ops) && id < |b.s.ws| && P.IoClose(id) in ops && b.s.ws[id].fd != -1
    ensures b.s.ws[id].fd !in DoAll(b, ops).evs
    decreases |ops|
  {
    var fd, b1 := b.s.ws[id].fd, Do(b, ops[0]);
    DoReady(b, ops[0]);
    SlotsStay(b.s, ops[0]);
    assert ops == [ops[0]] + ops[1..];
    if ops[0] == P.IoClose(id) {
      assert fd !in b1.evs;
      StaysOut(b1.evs, DoAll(b1, ops[1..]).evs, fd);
    } else {
      CloseVoids(b1, ops[1..], id);
    }
  }

  lemma {:induction false} StaysOut(evs: seq<int>, evs': seq<int>, fd: int)
    requires Voided(evs, evs') && fd !in evs && fd != -1
    ensures fd !in evs'
  {
    forall i | 0 <= i < |evs'|
      ensures evs'[i] != fd
    {
      assert evs[i] in evs;
    }
  }

  /** A descriptor closed by a callback gets no callback in the rest of the batch, even if a
      watcher is started on it again. */
  lemma {:induction false} ClosedStaysQuiet(b: Batch, i: nat, script: seq<Turn>, id: nat)
    requires Ready(b) && i < |b.evs| && ScriptOk(b, i, script) && Calls(b, i, script[i])
    requires id < |b.s.ws| && P.IoClose(id) in script[i].ops && b.s.ws[id].fd != -1
    ensures forall t :: t in PassCalls(Visit(b, i, script[i]), i + 1, script) ==> t.fd != b.s.ws[id].fd
  {
    var b1 := Visit(b, i, script[i]);
    CloseVoids(b, script[i].ops, id);
    assert forall j :: 0 <= j < |b1.evs| ==> b1.evs[j] in b1.evs;
    VoidStaysQuiet(b1, i + 1, script, b.s.ws[id].fd);
  }

  // ---------- the code ----------

  /** A loop during the dispatch of a batch; `events` is what the trailing slots point to. */
  class Dispatcher {
    const loop: Loop
    const events: array<int>

    ghost function View(): Batch
      reads loop, events
    {
      Batch(loop.View(), events[..])
    }

    constructor (loop: Loop, reported: seq<int>)
      ensures this.loop == loop && fresh(events) && events[..] == reported
    {
      this.loop := loop;
      events := new int[|reported|](i requires 0 <= i < |reported| => reported[i]);
    }

    /** uv__platform_invalidate_fd */
    method Invalidate(fd: int)
      requires fd >= 0
      modifies events, loop`epoll
      ensures View() == Batch(Deleted(old(loop.View()), fd), Void(old(events[..]), fd))
    {
      ghost var evs := events[..];
      var i := 0;
      while i < events.Length
        invariant i <= events.Length && loop.View() == old(loop.View())
        invariant events[..i] == Void(evs, fd)[..i] && events[i..] == evs[i..]
      {
        assert events[i] == events[i..][0] == evs[i];
        assert evs[i + 1..] == evs[i..][1..] == events[i..][1..] == events[i + 1..];
        if events[i] == fd {
          events[i] := -1;
        }
        assert events[..i + 1] == Void(evs, fd)[..i + 1];
        i := i + 1;
      }
      loop.Forget(fd);
    }

    /** uv__io_init, uv__io_start, uv__io_stop or uv__io_close in a callback. */
    method Apply(op: P.Op)
      requires Ready(View()) && P.OpOk(loop.View(), op)
      modifies loop, events
      ensures Ready(View()) && View() == Do(old(View()), op)
    {
      DoReady(View(), op);
      P.FdRange(loop.View());
      P.ReadyInv(loop.View());
      hide Ready, P.Ready, Inv, Alone;
      match op {
        case IoInit(fd) => var _ := loop.Init(fd);
        case IoStart(id, events) => var _ := loop.IoStart(id, events);
        case IoStop(id, events) => loop.IoStop(id, events);
        case IoClose(id) =>
          loop.IoClose(id);
          if loop.ws[id].fd != -1 {
            DeletedTwice(old(loop.View()), id);
            Invalidate(loop.ws[id].fd);
          }
      }
    }

    method RunOps(ops: seq<P.Op>)
      requires Ready(View()) && OpsOk(View(), ops)
      modifies loop, events
      ensures Ready(View()) && View() == DoAll(old(View()), ops)
    {
      hide Ready, Do, P.OpOk;
      var i := 0;
      assert ops[0..] == ops;
      while i < |ops|
        invariant i <= |ops| && Ready(View()) && OpsOk(View(), ops[i..])
        invariant DoAll(View(), ops[i..]) == DoAll(old(View()), ops)
      {
        assert ops[i..][0] == ops[i] && ops[i..][1..] == ops[i + 1..];
        Apply(ops[i]);
        i := i + 1;
      }
      assert ops[i..] == [];
    }

    // One turn of the loop over the events.
    method VisitEvent(i: nat, turn: Turn) returns (called: bool, told: Told)
      requires Ready(View()) && i < events.Length && TurnOk(View(), i, turn)
      modifies loop, events
      ensures Ready(View()) && View() == Visit(old(View()), i, turn)
      ensures called == Calls(old(View()), i, turn) && (called ==> told == Tell(old(View()), i, turn))
    {
      hide OpsOk, DoAll, Flags;
      var fd := events[i];
      called, told := false, Told(fd, -1, {});
      if fd == -1 {
        return;
      }
      if loop.slots[fd] == -1 {
        StaleReady(View(), fd);
        loop.Forget(fd);
        return;
      }
      SlotRange(View(), fd);
      var id := loop.slots[fd];
      var flags := Flags(loop.ws[id].pevents, turn.revents);
      if flags != {} {
        called, told := true, Told(fd, id, flags);
        RunOps(turn.ops);
      }
    }

    /** The loop over the events: the calls and the state are as specified. */
    method Dispatch(script: seq<Turn>) returns (calls: seq<Told>)
      requires Ready(View()) && ScriptOk(View(), 0, script)
      modifies loop, events
      ensures Ready(View()) && View() == Pass(old(View()), 0, script) && calls == PassCalls(old(View()), 0, script)
    {
      ghost var b0 := View();
      calls := [];
      var i := 0;
      GoesFirst(b0, script);
      hide Ready, ScriptOk, Pass, PassCalls, Visit, Calls, TurnOk, Goes;
      while i < events.Length
        invariant i <= events.Length && Goes(b0, script, View(), i, calls)
      {
        GoesOn(b0, script, View(), i, calls);
        var called, told := VisitEvent(i, script[i]);
        if called {
          calls := calls + [told];
        }
        i := i + 1;
      }
      GoesLast(b0, script, View(), i, calls);
    }
  }

  /** After the events before `i` the batch is `b`, with these calls; the rest makes of it what
      the whole pass makes of `b0`. */
  ghost predicate Goes(b0: Batch, script: seq<Turn>, b: Batch, i: nat, calls: seq<Told>)
    requires Ready(b0) && ScriptOk(b0, 0, script)
  {
    && Ready(b) && i <= |b.evs| && ScriptOk(b, i, script) && Pass(b, i, script) == Pass(b0, 0, script)
    && calls + PassCalls(b, i, script) == PassCalls(b0, 0, script)
  }

  lemma {:induction false} GoesFirst(b0: Batch, script: seq<Turn>)
    requires Ready(b0) && ScriptOk(b0, 0, script)
    ensures Goes(b0, script, b0, 0, [])
  {
    assert [] + PassCalls(b0, 0, script) == PassCalls(b0, 0, script);
  }

  lemma {:induction false} GoesOn(b0: Batch, script: seq<Turn>, b: Batch, i: nat, calls: seq<Told>)
    requires Ready(b0) && ScriptOk(b0, 0, script) && Goes(b0, script, b, i, calls) && i < |b.evs|
    ensures Ready(b) && i < |script| && TurnOk(b, i, script[i])
    ensures |Visit(b, i, script[i]).evs| == |b.evs|
    ensures Goes(b0, script, Visit(b, i, script[i]), i + 1, if Calls(b, i, script[i]) then calls + [Tell(b, i, script[i])] else calls)
  {
    hide Ready, Visit, Calls, TurnOk, ScriptOk, Pass, PassCalls;
    PassTurn(b, i, script, calls);
  }

  lemma {:induction false} GoesLast(b0: Batch, script: seq<Turn>, b: Batch, i: nat, calls: seq<Told>)
    requires Ready(b0) && ScriptOk(b0, 0, script) && Goes(b0, script, b, i, calls) && i == |b.evs|
    ensures Ready(b) && b == Pass(b0, 0, script) && calls == PassCalls(b0, 0, script)
  {
    assert calls + [] == calls;
  }

  lemma {:induction false} SlotRange(b: Batch, fd: int)
    requires Ready(b) && 0 <= fd < Watchers(b.s.slots) && b.s.slots[fd] != -1
    ensures 0 <= b.s.slots[fd] < |b.s.ws|
  {
    assert SlotOk(b.s, fd);
  }

  // Closing a watcher takes its descriptor off once.
  lemma {:induction false} DeletedTwice(s: State, id: nat)
    requires id < |s.ws| && s.ws[id].fd != -1
    ensures Deleted(Close(s, id), s.ws[id].fd) == Close(s, id)
  {
  }

  // One unfolding of the pass.
  lemma {:induction false} PassTurn(b: Batch, i: nat, script: seq<Turn>, calls: seq<Told>)
    requires Ready(b) && i < |b.evs| && ScriptOk(b, i, script)
    ensures i < |script| && TurnOk(b, i, script[i])
    ensures var b' := Visit(b, i, script[i]);
      && ScriptOk(b', i + 1, script) && Pass(b', i + 1, script) == Pass(b, i, script)
      && (if Calls(b, i, script[i]) then calls + [Tell(b, i, script[i])] else calls) + PassCalls(b', i + 1, script)
         == calls + PassCalls(b, i, script)
  {
    hide Ready, Visit, Calls, TurnOk;
  }
}
