/** uv__io_poll of posix-poll.c: the watchers of a loop and its array of pollfd entries, when
    the queue is drained and while callbacks start, stop and close watchers. */
module PollWatchers {
  import opened Seqs
  import opened IoWatchers
  import opened PollFds

  /** The entries of `es`, void ones apart, are the interest list `m`. */
  ghost predicate Agrees(m: map<int, set<Flag>>, es: seq<Entry>) {
    forall fd, events :: fd in m && m[fd] == events <==> fd != -1 && Entry(fd, events) in es
  }

  /** `e` is in the array, and no other entry has its descriptor. */
  ghost predicate Once(es: seq<Entry>, e: Entry) {
    exists i :: 0 <= i < |es| && es[i] == e && forall j :: 0 <= j < |es| && es[j].fd == e.fd ==> j == i
  }

  lemma {:induction false} AddAgrees(m: map<int, set<Flag>>, es: seq<Entry>, es': seq<Entry>, fd: int, events: set<Flag>)
    requires Agrees(m, es) && Swapped(es, es', fd, [Entry(fd, events)]) && fd >= 0
    ensures Agrees(m[fd := events], es')
  {
    var m' := m[fd := events];
    forall f, ev
      ensures f in m' && m'[f] == ev <==> f != -1 && Entry(f, ev) in es'
    {
      assert Entry(f, ev) in es' <==> (Entry(f, ev) in es && f != fd) || (f == fd && ev == events);
      assert f in m && m[f] == ev <==> f != -1 && Entry(f, ev) in es;
    }
  }

  lemma {:induction false} DelAgrees(m: map<int, set<Flag>>, es: seq<Entry>, es': seq<Entry>, fd: int)
    requires Agrees(m, es) && Swapped(es, es', fd, [])
    ensures Agrees(m - {fd}, es') && forall e :: e in es' ==> e.fd != fd
  {
    var m' := m - {fd};
    forall f, ev
      ensures f in m' && m'[f] == ev <==> f != -1 && Entry(f, ev) in es'
    {
      assert f in m && m[f] == ev <==> f != -1 && Entry(f, ev) in es;
    }
  }

  lemma {:induction false} MarkAgrees(m: map<int, set<Flag>>, es: seq<Entry>, fd: int)
    requires Agrees(m, es) && fd >= 0
    ensures Agrees(m - {fd}, Marked(es, fd))
  {
    var es', m' := Marked(es, fd), m - {fd};
    forall f, ev
      ensures f in m' && m'[f] == ev <==> f != -1 && Entry(f, ev) in es'
    {
      assert f in m && m[f] == ev <==> f != -1 && Entry(f, ev) in es;
      if f != fd && Entry(f, ev) in es {
        var k :| 0 <= k < |es| && es[k] == Entry(f, ev);
        assert es'[k] == es[k];
      }
    }
  }

  lemma {:induction false} AgreesOnce(m: map<int, set<Flag>>, es: seq<Entry>, fd: int)
    requires Agrees(m, es) && Distinct(es) && fd in m
    ensures Once(es, Entry(fd, m[fd]))
  {
    assert Entry(fd, m[fd]) in es;
    var i :| 0 <= i < |es| && es[i] == Entry(fd, m[fd]);
    assert forall j :: 0 <= j < |es| && es[j].fd == fd ==> j == i;
  }

  // ---------- callbacks ----------

  datatype Op = IoInit(fd: int) | IoStart(id: nat, events: set<Flag>) | IoStop(id: nat, events: set<Flag>) | IoClose(id: nat)

  ghost predicate OpOk(s: State, op: Op) {
    match op
    case IoInit(fd) => fd >= -1
    case IoStart(id, events) => id < |s.ws| && 0 <= s.ws[id].fd < MAX_SLOTS && events != {} && Alone(s, id)
    case IoStop(id, events) => id < |s.ws| && events != {}
    case IoClose(id) => id < |s.ws| && Alone(s, id)
  }

  ghost function Do(s: State, op: Op): State
    requires Inv(s) && OpOk(s, op)
  {
    match op
    case IoInit(fd) => s.(ws := s.ws + [Watcher(fd, {}, {})])
    case IoStart(id, events) => Start(s, id, events)
    case IoStop(id, events) => Stop(s, id, events)
    case IoClose(id) => Close(s, id)
  }

  /** Every registered descriptor has a slot. */
  ghost predicate Ready(s: State) {
    Inv(s) && forall fd :: fd in s.epoll ==> 0 <= fd < Watchers(s.slots)
  }

  /** An operation tells the kernel nothing new; it may take a descriptor off. */
  ghost predicate Fewer(s: State, s': State) {
    forall fd :: fd in s'.epoll ==> fd in s.epoll && s'.epoll[fd] == s.epoll[fd]
  }

  lemma {:induction false} StartReady(s: State, id: nat, events: set<Flag>)
    requires Ready(s) && OpOk(s, IoStart(id, events))
    ensures Ready(Start(s, id, events)) && Fewer(s, Start(s, id, events))
  {
    StartInv(s, id, events);
    ResizedFacts(s.slots, s.ws[id].fd + 1);
    hide Inv, Resized, Alone;
  }

  lemma {:induction false} StopReady(s: State, id: nat, events: set<Flag>)
    requires Ready(s) && id < |s.ws|
    ensures Ready(Stop(s, id, events)) && Fewer(s, Stop(s, id, events))
  {
    StopInv(s, id, events);
    hide Inv;
  }

  lemma {:induction false} CloseReady(s: State, id: nat)
    requires Ready(s) && OpOk(s, IoClose(id))
    ensures Ready(Close(s, id)) && Fewer(s, Close(s, id))
  {
    ClosedInv(s, id);
    StopReady(s, id, ALL);
    hide Inv, Stop;
  }

  lemma {:induction false} DoReady(s: State, op: Op)
    requires Ready(s) && OpOk(s, op)
    ensures Ready(Do(s, op)) && Fewer(s, Do(s, op))
  {
    match op
    case IoInit(fd) =>
      InitInv(s, Watcher(fd, {}, {}));
      hide Inv;
    case IoStart(id, events) => StartReady(s, id, events);
    case IoStop(id, events) => StopReady(s, id, events);
    case IoClose(id) => CloseReady(s, id);
  }

  ghost predicate OpsOk(s: State, ops: seq<Op>)
    requires Ready(s)
    decreases |ops|
  {
    ops != [] ==> OpOk(s, ops[0]) && (DoReady(s, ops[0]); OpsOk(Do(s, ops[0]), ops[1..]))
  }

  ghost function DoAll(s: State, ops: seq<Op>): (s': State)
    requires Ready(s) && OpsOk(s, ops)
    ensures Ready(s') && Fewer(s, s')
    decreases |ops|
  {
    if ops == [] then s
    else
      DoReady(s, ops[0]);
      DoAll(Do(s, ops[0]), ops[1..])
  }

  // ---------- the loop over the array ----------

  /** What poll() has reported for the entry, and what the callback does. */
  datatype Turn = Turn(revents: set<Report>, ops: seq<Op>)

  /** The callback of an entry is called: it is not void, it is watched, and something that is
      wanted was reported. */
  ghost predicate Calls(s: State, fd: int, turn: Turn) {
    && fd in s.epoll && 0 <= fd < |s.slots| && 0 <= s.slots[fd] < |s.ws|
    && Wanted(s.ws[s.slots[fd]].pevents, turn.revents) != {}
  }

  ghost function Tell(s: State, fd: int, turn: Turn): Told
    requires Calls(s, fd, turn)
  {
    Told(fd, s.slots[fd], Wanted(s.ws[s.slots[fd]].pevents, turn.revents))
  }

  ghost predicate TurnOk(s: State, fd: int, turn: Turn)
    requires Ready(s)
  {
    Calls(s, fd, turn) ==> OpsOk(s, turn.ops)
  }

  /** One turn: a void entry is skipped, one whose watcher was stopped is taken off. */
  ghost function Visit(s: State, fd: int, turn: Turn): (s': State)
    requires Ready(s) && TurnOk(s, fd, turn)
    ensures Ready(s') && Fewer(s, s')
  {
    if Calls(s, fd, turn) then DoAll(s, turn.ops)
    else if fd in s.epoll && s.slots[fd] == -1 then
      StaleInv(s, fd);
      Deleted(s, fd)
    else s
  }

  // Taking off a descriptor that nobody watches.
  lemma {:induction false} StaleInv(s: State, fd: int)
    requires Ready(s) && fd in s.epoll && s.slots[fd] == -1
    ensures Ready(Deleted(s, fd))
  {
    forall k | 0 <= k < |s.ws| && Started(s, k)
      ensures s.ws[k].fd != fd
    {
      assert WatcherOk(s, k);
    }
    DeletedInv(s, fd);
  }

  ghost predicate ScriptOk(s: State, order: seq<int>, script: seq<Turn>)
    requires Ready(s)
    decreases |order|
  {
    order != [] ==>
      && script != [] && TurnOk(s, order[0], script[0])
      && ScriptOk(Visit(s, order[0], script[0]), order[1..], script[1..])
  }

  /** The state after the loop over entries with the descriptors `order`. */
  ghost function Pass(s: State, order: seq<int>, script: seq<Turn>): (s': State)
    requires Ready(s) && ScriptOk(s, order, script)
    ensures Ready(s') && Fewer(s, s')
    decreases |order|
  {
    if order == [] then s else Pass(Visit(s, order[0], script[0]), order[1..], script[1..])
  }

  /** The callbacks that are called. */
  ghost function PassCalls(s: State, order: seq<int>, script: seq<Turn>): seq<Told>
    requires Ready(s) && ScriptOk(s, order, script)
    decreases |order|
  {
    if order == [] then []
    else
      (if Calls(s, order[0], script[0]) then [Tell(s, order[0], script[0])] else [])
      + PassCalls(Visit(s, order[0], script[0]), order[1..], script[1..])
  }

  /** A callback is called for the watcher that is started on its descriptor at that time. */
  lemma {:induction false} CallsStarted(s: State, fd: int, turn: Turn)
    requires Ready(s) && Calls(s, fd, turn)
    ensures fd < Watchers(s.slots) && Started(s, s.slots[fd]) && s.ws[s.slots[fd]].fd == fd
  {
    assert SlotOk(s, fd);
  }

  /** Who is called: the entry that is not void has a started watcher that the report concerns. */
  lemma {:induction false} CallsExactly(s: State, fd: int, turn: Turn)
    requires Ready(s)
    ensures Calls(s, fd, turn) <==> fd in s.epoll && exists id :: Rings(s, fd, turn.revents, id)
    ensures Calls(s, fd, turn) ==>
      var t := Tell(s, fd, turn);
      && t.fd == fd && Rings(s, fd, turn.revents, t.id)
      && forall r :: r in t.flags <==> r in turn.revents && Concerns(s.ws[t.id], r)
  {
    if Calls(s, fd, turn) {
      CallsStarted(s, fd, turn);
      var r :| r in Wanted(s.ws[s.slots[fd]].pevents, turn.revents);
      assert r in turn.revents && Concerns(s.ws[s.slots[fd]], r);
      assert Rings(s, fd, turn.revents, s.slots[fd]);
    }
    if fd in s.epoll {
      forall id | Rings(s, fd, turn.revents, id)
        ensures Calls(s, fd, turn)
      {
        assert WatcherOk(s, id);
        var r :| r in turn.revents && Concerns(s.ws[id], r);
        assert r in Wanted(s.ws[id].pevents, turn.revents);
      }
    }
  }

  /** The next entry of the array gets exactly one callback if it is not void by then and a
      started watcher of its descriptor is concerned by what was reported, and none otherwise;
      the callback gets the flags that concern it, and then does what it likes. */
  lemma {:induction false} EntryAnswered(s: State, order: seq<int>, script: seq<Turn>)
    requires Ready(s) && ScriptOk(s, order, script) && order != []
    ensures script != []
    ensures var fd, turn := order[0], script[0]; var s' := Visit(s, fd, turn);
      && ScriptOk(s', order[1..], script[1..]) && Pass(s, order, script) == Pass(s', order[1..], script[1..])
      && var calls, rest := PassCalls(s, order, script), PassCalls(s', order[1..], script[1..]);
      if fd in s.epoll && exists id :: Rings(s, fd, turn.revents, id) then
        && OpsOk(s, turn.ops) && s' == DoAll(s, turn.ops)
        && exists t :: calls == [t] + rest && t.fd == fd && Rings(s, fd, turn.revents, t.id)
             && forall r :: r in t.flags <==> r in turn.revents && Concerns(s.ws[t.id], r)
      else
        calls == rest && s' == s.(epoll := s'.epoll) && Fewer(s, s') && s'.epoll.Keys >= s.epoll.Keys - {fd}
  {
    hide Ready, Wanted, Rings, Concerns, Started;
    PassTurn(s, order, script);
    CallsExactly(s, order[0], script[0]);
    var calls, rest := PassCalls(s, order, script), PassCalls(Visit(s, order[0], script[0]), order[1..], script[1..]);
    if Calls(s, order[0], script[0]) {
      assert calls == [Tell(s, order[0], script[0])] + rest;
    } else {
      assert calls == rest;
    }
  }

  /** If no callback does anything, exactly these are called, in the order of the array: the started
      watchers of its entries that the reports concern. */
  ghost predicate Heard(s: State, order: seq<int>, script: seq<Turn>, calls: seq<Told>)
    requires |script| >= |order|
    decreases |order|
  {
    if order == [] then calls == []
    else if exists id :: Rings(s, order[0], script[0].revents, id) then
      && calls != [] && calls[0].fd == order[0] && Rings(s, order[0], script[0].revents, calls[0].id)
      && (forall r :: r in calls[0].flags <==> r in script[0].revents && Concerns(s.ws[calls[0].id], r))
      && Heard(s, order[1..], script[1..], calls[1..])
    else Heard(s, order[1..], script[1..], calls)
  }

  lemma {:induction false} AllHeard(s: State, order: seq<int>, script: seq<Turn>)
    requires Ready(s) && ScriptOk(s, order, script) && NoDup(order) && forall fd :: fd in order ==> fd in s.epoll
    requires forall turn :: turn in script ==> turn.ops == []
    ensures |script| >= |order| && Heard(s, order, script, PassCalls(s, order, script))
    decreases |order|
  {
    if order != [] {
      EntryAnswered(s, order, script);
      var fd, s' := order[0], Visit(s, order[0], script[0]);
      assert script[0] in script;
      NoDupTail(order);
      hide Ready, ScriptOk, Visit, Rings, Concerns, Pass, PassCalls;
      AllHeard(s', order[1..], script[1..]);
      HeardSame(s', s, order[1..], script[1..], PassCalls(s', order[1..], script[1..]));
    }
  }

  lemma {:induction false} HeardSame(s: State, s': State, order: seq<int>, script: seq<Turn>, calls: seq<Told>)
    requires |script| >= |order| && s'.ws == s.ws && Heard(s, order, script, calls)
    ensures Heard(s', order, script, calls)
    decreases |order|
  {
    if order != [] {
      assert forall id :: Rings(s, order[0], script[0].revents, id) == Rings(s', order[0], script[0].revents, id);
      if exists id :: Rings(s, order[0], script[0].revents, id) {
        HeardSame(s, s', order[1..], script[1..], calls[1..]);
      } else {
        HeardSame(s, s', order[1..], script[1..], calls);
      }
    }
  }

  /** A descriptor that was closed or never registered gets no callback in the rest of the
      pass, even if a watcher is started on it again. */
  lemma {:induction false} ClosedStaysQuiet(s: State, order: seq<int>, script: seq<Turn>, fd: int)
    requires Ready(s) && ScriptOk(s, order, script) && fd !in s.epoll
    ensures fd !in Pass(s, order, script).epoll
    ensures forall t :: t in PassCalls(s, order, script) ==> t.fd != fd
    decreases |order|
  {
    if order != [] {
      ClosedStaysQuiet(Visit(s, order[0], script[0]), order[1..], script[1..], fd);
    }
  }

  function Fds(es: seq<Entry>): seq<int> {
    seq(|es|, i requires 0 <= i < |es| => es[i].fd)
  }

  /** During the pass entries only become void. */
  ghost predicate Kept(order: seq<int>, es: seq<Entry>) {
    |es| == |order| && forall i :: 0 <= i < |es| ==> es[i].fd == -1 || es[i].fd == order[i]
  }

  lemma {:induction false} MarkedKept(order: seq<int>, es: seq<Entry>, fd: int)
    requires Kept(order, es)
    ensures Kept(order, Marked(es, fd))
  {
  }

  // An entry is void exactly when its descriptor has been taken off.
  lemma {:induction false} VoidIff(m: map<int, set<Flag>>, order: seq<int>, es: seq<Entry>, i: nat)
    requires Agrees(m, es) && Kept(order, es) && i < |es|
    requires NoDup(order) && -1 !in order
    ensures es[i].fd == (if order[i] in m then order[i] else -1)
  {
    var e := es[i];
    assert e in es && e == Entry(e.fd, e.events);
    if order[i] in m {
      assert Entry(order[i], m[order[i]]) in es;
      var k :| 0 <= k < |es| && es[k] == Entry(order[i], m[order[i]]);
      assert order[k] == order[i];
    }
  }

  lemma {:induction false} FdsDistinct(es: seq<Entry>)
    requires Distinct(es) && forall e :: e in es ==> e.fd != -1
    ensures NoDup(Fds(es)) && -1 !in Fds(es) && Kept(Fds(es), es)
  {
  }

  // What is left when the void entries are gone.
  lemma {:induction false} LeftOver(s: State, s': State, es: seq<Entry>, es': seq<Entry>)
    requires Agrees(s.epoll, es) && Agrees(s'.epoll, es') && Fewer(s, s')
    requires (forall e :: e in es ==> e.fd != -1) && forall e :: e in es' ==> e.fd != -1
    ensures forall e :: e in es' <==> e in es && e.fd in s'.epoll
  {
    forall e: Entry
      ensures e in es' <==> e in es && e.fd in s'.epoll
    {
      assert e == Entry(e.fd, e.events);
      assert e.fd in s.epoll && s.epoll[e.fd] == e.events <==> e.fd != -1 && e in es;
      assert e.fd in s'.epoll && s'.epoll[e.fd] == e.events <==> e.fd != -1 && e in es';
    }
  }

  // One unfolding of the pass.
  lemma {:induction false} PassTurn(s: State, order: seq<int>, script: seq<Turn>)
    requires Ready(s) && ScriptOk(s, order, script) && order != []
    ensures script != [] && TurnOk(s, order[0], script[0])
    ensures var s' := Visit(s, order[0], script[0]);
      && ScriptOk(s', order[1..], script[1..])
      && Pass(s, order, script) == Pass(s', order[1..], script[1..])
      && PassCalls(s, order, script) ==
         (if Calls(s, order[0], script[0]) then [Tell(s, order[0], script[0])] else []) + PassCalls(s', order[1..], script[1..])
  {
  }

  // ---------- the code ----------

  /** A loop with its watchers and its pollfd array; the interest list of `loop` says what the
      array stands for. */
  class Poller {
    const loop: Loop
    const table: Table

    ghost predicate Valid()
      reads loop, table, table.fds
    {
      && Ready(loop.View()) && table.Valid() && Agrees(loop.epoll, table.Entries())
      && (!table.iterating ==> forall e :: e in table.Entries() ==> e.fd != -1)
    }

    constructor ()
      ensures Valid() && fresh(loop) && fresh(table) && fresh(table.fds)
      ensures loop.View() == State([], [], [], 0, map[]) && table.Entries() == [] && !table.iterating
    {
      loop := new Loop();
      table := new Table();
    }

    /** The drain loop of posix-poll.c: afterwards every started watcher has exactly one entry,
        with the events that it wants. */
    method Drain()
      requires Valid() && !table.iterating
      modifies loop, table`fds, table`used, table.fds
      ensures Valid() && loop.queue == [] && (table.fds == old(table.fds) || fresh(table.fds))
      ensures |loop.ws| == |old(loop.ws)| && loop.slots == old(loop.slots) && loop.nfds == old(loop.nfds)
      ensures forall id :: 0 <= id < |loop.ws| ==>
        loop.ws[id].fd == old(loop.ws)[id].fd && loop.ws[id].pevents == old(loop.ws)[id].pevents
      ensures forall id :: Started(loop.View(), id) ==>
        loop.ws[id].events == loop.ws[id].pevents && Once(table.Entries(), Entry(loop.ws[id].fd, loop.ws[id].pevents))
    {
      while loop.queue != []
        invariant Valid() && (table.fds == old(table.fds) || fresh(table.fds))
        invariant |loop.ws| == |old(loop.ws)| && loop.slots == old(loop.slots) && loop.nfds == old(loop.nfds)
        invariant forall id :: 0 <= id < |loop.ws| ==>
          loop.ws[id].fd == old(loop.ws)[id].fd && loop.ws[id].pevents == old(loop.ws)[id].pevents
        decreases |loop.queue|
      {
        hide Inv, Agrees;
        ghost var m, es := loop.epoll, table.Entries();
        var fd, events := loop.SyncHead();
        table.Add(fd, events);
        AddAgrees(m, es, table.Entries(), fd, events);
      }
      DrainedFacts(loop.View());
      forall id | Started(loop.View(), id)
        ensures loop.ws[id].events == loop.ws[id].pevents
        ensures Once(table.Entries(), Entry(loop.ws[id].fd, loop.ws[id].pevents))
      {
        AgreesOnce(loop.epoll, table.Entries(), loop.ws[id].fd);
      }
    }

    /** uv__io_init, uv__io_start, uv__io_stop or uv__io_close, from wherever it is called. */
    method Apply(op: Op)
      requires Valid() && OpOk(loop.View(), op)
      modifies loop, table`used, table.fds
      ensures Valid() && table.fds == old(table.fds) && loop.View() == Do(old(loop.View()), op)
      ensures table.iterating ==> forall order :: Kept(order, old(table.Entries())) ==> Kept(order, table.Entries())
    {
      DoReady(loop.View(), op);
      FdRange(loop.View());
      hide Ready, Inv, Agrees, Kept, Alone;
      ReadyInv(loop.View());
      match op {
        case IoInit(fd) => var _ := loop.Init(fd);
        case IoStart(id, events) => var _ := loop.IoStart(id, events);
        case IoStop(id, events) => loop.IoStop(id, events);
        case IoClose(id) =>
          loop.IoClose(id);
          if loop.ws[id].fd != -1 {
            Drop(old(loop.epoll), loop.ws[id].fd);
          }
      }
    }

    // The array follows an interest list that has lost a descriptor.
    method Drop(ghost m: map<int, set<Flag>>, fd: int)
      requires table.Valid() && Agrees(m, table.Entries()) && fd >= 0
      requires !table.iterating ==> forall e :: e in table.Entries() ==> e.fd != -1
      modifies table`used, table.fds
      ensures table.Valid() && Agrees(m - {fd}, table.Entries()) && table.fds == old(table.fds)
      ensures !table.iterating ==> forall e :: e in table.Entries() ==> e.fd != -1
      ensures table.iterating ==> forall order :: Kept(order, old(table.Entries())) ==> Kept(order, table.Entries())
    {
      ghost var es := table.Entries();
      table.Invalidate(fd);
      if table.iterating {
        MarkAgrees(m, es, fd);
        forall order | Kept(order, es)
          ensures Kept(order, table.Entries())
        {
          MarkedKept(order, es, fd);
        }
      } else {
        DelAgrees(m, es, table.Entries(), fd);
      }
    }

    method RunOps(ops: seq<Op>)
      requires Valid() && OpsOk(loop.View(), ops)
      modifies loop, table`used, table.fds
      ensures Valid() && table.fds == old(table.fds) && loop.View() == DoAll(old(loop.View()), ops)
      ensures table.iterating ==> forall order :: Kept(order, old(table.Entries())) ==> Kept(order, table.Entries())
    {
      hide Ready, Agrees, Kept, Do, OpOk;
      var i := 0;
      assert ops[0..] == ops;
      while i < |ops|
        invariant i <= |ops| && Valid() && table.fds == old(table.fds)
        invariant OpsOk(loop.View(), ops[i..]) && DoAll(loop.View(), ops[i..]) == DoAll(old(loop.View()), ops)
        invariant table.iterating ==> forall order :: Kept(order, old(table.Entries())) ==> Kept(order, table.Entries())
      {
        assert ops[i..][0] == ops[i] && ops[i..][1..] == ops[i + 1..];
        Apply(ops[i]);
        i := i + 1;
      }
      assert ops[i..] == [];
    }

    // One turn of the loop over the reported events.
    method VisitEntry(i: nat, ghost order: seq<int>, turn: Turn) returns (called: bool, told: Told)
      requires Valid() && table.iterating && i < table.used == |order| && Kept(order, table.Entries())
      requires NoDup(order) && -1 !in order && TurnOk(loop.View(), order[i], turn)
      modifies loop, table`used, table.fds
      ensures Valid() && table.fds == old(table.fds) && table.used == |order| && Kept(order, table.Entries())
      ensures loop.View() == Visit(old(loop.View()), order[i], turn) && Fewer(old(loop.View()), loop.View())
      ensures called == Calls(old(loop.View()), order[i], turn) && (called ==> told == Tell(old(loop.View()), order[i], turn))
    {
      VoidIff(loop.epoll, order, table.Entries(), i);
      hide Ready, Agrees, Kept, OpsOk, DoAll, NoDup, Wanted;
      var fd := table.fds[i].fd;
      called, told := false, Told(fd, -1, {});
      if fd == -1 {
        return;
      }
      ReadySlot(loop.View(), fd);
      if loop.slots[fd] == -1 {
        assert Visit(loop.View(), fd, turn) == Deleted(loop.View(), fd);
        Drop(loop.epoll, fd);
        loop.Forget(fd);
        assert loop.View() == Deleted(old(loop.View()), fd);
      } else {
        var id := loop.slots[fd];
        var revents := Wanted(loop.ws[id].pevents, turn.revents);
        if revents != {} {
          called, told := true, Told(fd, id, revents);
          RunOps(turn.ops);
        }
      }
      KeptLength(order, table.Entries());
    }

    // The loop over the reported events.
    method Scan(ghost order: seq<int>, script: seq<Turn>) returns (calls: seq<Told>)
      requires Valid() && table.iterating && order == Fds(table.Entries()) && NoDup(order) && -1 !in order
      requires ScriptOk(loop.View(), order, script)
      modifies loop, table`used, table.fds
      ensures Valid() && table.fds == old(table.fds)
      ensures loop.View() == Pass(old(loop.View()), order, script) && calls == PassCalls(old(loop.View()), order, script)
    {
      ghost var s0 := loop.View();
      calls := [];
      var i: nat := 0;
      GoesFirst(s0, order, script);
      while i < table.used
        invariant Valid() && table.iterating && table.fds == old(table.fds) && table.used == |order| && i <= |order|
        invariant Kept(order, table.Entries()) && i <= |script|
        invariant Goes(s0, order, script, loop.View(), i, calls)
      {
        ghost var s := loop.View();
        hide Ready, Agrees, Kept, Fewer, ScriptOk, Visit, Calls, TurnOk, NoDup, Goes;
        GoesOn(s0, order, script, s, i, calls);
        var called, told := VisitEntry(i, order, script[i]);
        if called {
          calls := calls + [told];
        }
        i := i + 1;
      }
      GoesLast(s0, order, script, loop.View(), i, calls);
    }

    /** The loop over the reported events, and the purge behind it: callbacks may start, stop
        and close watchers at will.  The calls are as specified, and left in the array are
        exactly the entries whose descriptor was not taken off meanwhile. */
    method Dispatch(script: seq<Turn>) returns (calls: seq<Told>)
      requires Valid() && !table.iterating && ScriptOk(loop.View(), Fds(table.Entries()), script)
      modifies loop, table`used, table`iterating, table.fds
      ensures Valid() && !table.iterating
      ensures loop.View() == Pass(old(loop.View()), Fds(old(table.Entries())), script)
      ensures calls == PassCalls(old(loop.View()), Fds(old(table.Entries())), script)
      ensures forall e :: e in table.Entries() <==> e in old(table.Entries()) && e.fd in loop.epoll
    {
      ghost var s0, es0, order := loop.View(), table.Entries(), Fds(table.Entries());
      FdsDistinct(es0);
      hide Ready, Agrees, Kept, ScriptOk, Pass, PassCalls, NoDup, Fds;
      table.iterating := true;
      calls := Scan(order, script);
      ghost var es := table.Entries();
      table.iterating := false;
      table.Del(-1);
      NoVoid(loop.epoll, es);
      DelAgrees(loop.epoll, es, table.Entries(), -1);
      LeftOver(s0, loop.View(), es0, table.Entries());
    }
  }

  lemma {:induction false} NoVoid(m: map<int, set<Flag>>, es: seq<Entry>)
    requires Agrees(m, es)
    ensures m - {-1} == m
  {
    if -1 in m {
      assert !(Entry(-1, m[-1]) in es && -1 != -1);
    }
  }

  lemma {:induction false} KeptLength(order: seq<int>, es: seq<Entry>)
    requires Kept(order, es)
    ensures |es| == |order|
  {
  }

  /** After `i` turns in state `s` with the calls `calls`, the pass from `s0` is what the rest makes of it. */
  ghost predicate Goes(s0: State, order: seq<int>, script: seq<Turn>, s: State, i: nat, calls: seq<Told>)
    requires Ready(s0) && ScriptOk(s0, order, script)
  {
    && i <= |order| && i <= |script| && Ready(s) && ScriptOk(s, order[i..], script[i..])
    && Pass(s, order[i..], script[i..]) == Pass(s0, order, script)
    && calls + PassCalls(s, order[i..], script[i..]) == PassCalls(s0, order, script)
  }

  lemma {:induction false} GoesFirst(s0: State, order: seq<int>, script: seq<Turn>)
    requires Ready(s0) && ScriptOk(s0, order, script)
    ensures Goes(s0, order, script, s0, 0, [])
  {
    assert order[0..] == order && script[0..] == script;
    assert [] + PassCalls(s0, order, script) == PassCalls(s0, order, script);
  }

  lemma {:induction false} GoesOn(s0: State, order: seq<int>, script: seq<Turn>, s: State, i: nat, calls: seq<Told>)
    requires Ready(s0) && ScriptOk(s0, order, script) && Goes(s0, order, script, s, i, calls) && i < |order|
    ensures i < |script| && Ready(s) && TurnOk(s, order[i], script[i])
    ensures Goes(s0, order, script, Visit(s, order[i], script[i]), i + 1,
                 if Calls(s, order[i], script[i]) then calls + [Tell(s, order[i], script[i])] else calls)
  {
    hide Ready, ScriptOk, Pass, PassCalls, Visit, Calls, TurnOk;
    PassTurn(s, order[i..], script[i..]);
    Tails(order, script, i);
    CallsSnoc(calls, if Calls(s, order[i], script[i]) then [Tell(s, order[i], script[i])] else [],
              PassCalls(Visit(s, order[i], script[i]), order[i + 1..], script[i + 1..]));
  }

  lemma {:induction false} GoesLast(s0: State, order: seq<int>, script: seq<Turn>, s: State, i: nat, calls: seq<Told>)
    requires Ready(s0) && ScriptOk(s0, order, script) && Goes(s0, order, script, s, i, calls) && i == |order|
    ensures s == Pass(s0, order, script) && calls == PassCalls(s0, order, script)
  {
    assert order[i..] == [] && calls + [] == calls;
  }

  lemma {:induction false} CallsSnoc(calls: seq<Told>, now: seq<Told>, rest: seq<Told>)
    ensures calls + (now + rest) == (calls + now) + rest && calls + [] == calls
  {
  }

  lemma {:induction false} Tails(order: seq<int>, script: seq<Turn>, i: nat)
    requires i < |order| && i < |script|
    ensures order[i..][0] == order[i] && order[i..][1..] == order[i + 1..]
    ensures script[i..][0] == script[i] && script[i..][1..] == script[i + 1..]
  {
  }

  lemma {:induction false} ReadyInv(s: State)
    requires Ready(s)
    ensures Inv(s)
  {
  }

  lemma {:induction false} FdRange(s: State)
    requires Ready(s)
    ensures forall id :: 0 <= id < |s.ws| ==> s.ws[id].fd >= -1
  {
    forall id | 0 <= id < |s.ws|
      ensures s.ws[id].fd >= -1
    {
      assert WatcherOk(s, id);
    }
  }

  lemma {:induction false} ReadySlot(s: State, fd: int)
    requires Ready(s) && fd in s.epoll
    ensures 0 <= fd < Watchers(s.slots) && (s.slots[fd] != -1 ==> 0 <= s.slots[fd] < |s.ws|)
  {
    assert SlotOk(s, fd);
  }
}
