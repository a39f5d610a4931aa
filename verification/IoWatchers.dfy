/** The bookkeeping of I/O watchers in core.c and the queue drain of epoll.c: the slots
    by descriptor, the queue of changed watchers, and the kernel's table that lags behind. */
module IoWatchers {
  import opened Seqs
  import opened PowerOfTwo

  datatype Flag = In | Out | Rdhup | Pri

  /** uv__io_t: `events` is what the kernel was told last, `pevents` what is wanted now. */
  datatype Watcher = Watcher(fd: int, events: set<Flag>, pevents: set<Flag>)

  /** A flag that the kernel reports: one that was asked for, POLLERR, POLLHUP, or POLLNVAL. */
  datatype Report = Asked(flag: Flag) | Err | Hup | Nval

  /** What of a report is for the watcher: the flags it wants, and errors and hangups. */
  function Wanted(pevents: set<Flag>, revents: set<Report>): set<Report> {
    set r | r in revents && (r.Err? || r.Hup? || (r.Asked? && r.flag in pevents))
  }

  /** A callback that was called: for the event of a descriptor, with its watcher and these flags. */
  datatype Told = Told(fd: int, id: int, flags: set<Report>)

  /** The watcher has a say in the report `r`: an error, a hangup, or a flag that it wants. */
  ghost predicate Concerns(w: Watcher, r: Report) {
    r == Err || r == Hup || exists f :: f in w.pevents && r == Asked(f)
  }

  /** The loop.  Watchers are numbered; -1 in a slot is NULL.  `slots` is loop->watchers with
      its two trailing slots, and `epoll` the interest list of the backend descriptor. */
  datatype State = State(ws: seq<Watcher>, queue: seq<nat>, slots: seq<int>, nfds: nat, epoll: map<int, set<Flag>>)

  function Watchers(slots: seq<int>): (n: nat)
    ensures n <= |slots|
  {
    if |slots| < 2 then 0 else |slots| - 2
  }

  /** The number of slots below `n` that are not NULL. */
  function Count(slots: seq<int>, n: nat): nat
    requires n <= |slots|
  {
    if n == 0 then 0 else Count(slots, n - 1) + if slots[n - 1] != -1 then 1 else 0
  }

  predicate Started(s: State, id: int) {
    0 <= id < |s.ws| && s.ws[id].pevents != {}
  }

  predicate WatcherOk(s: State, id: nat)
    requires id < |s.ws|
  {
    var w := s.ws[id];
    && w.fd >= -1
    && (w.pevents == {} ==> w.events == {} && id !in s.queue)
    && (w.pevents != {} ==> 0 <= w.fd < Watchers(s.slots) && s.slots[w.fd] == id)
    && (w.pevents != {} && id !in s.queue ==> w.events == w.pevents)
    && (w.events != {} ==> w.fd in s.epoll && s.epoll[w.fd] == w.events)
  }

  predicate SlotOk(s: State, fd: nat)
    requires fd < |s.slots|
  {
    s.slots[fd] != -1 ==> Started(s, s.slots[fd]) && s.ws[s.slots[fd]].fd == fd
  }

  /** Somebody waits for what was reported for `fd`: a started watcher of that descriptor. */
  ghost predicate Rings(s: State, fd: int, revents: set<Report>, id: int) {
    Started(s, id) && s.ws[id].fd == fd && exists r :: r in revents && Concerns(s.ws[id], r)
  }

  ghost predicate Inv(s: State) {
    && (forall id {:trigger WatcherOk(s, id)} :: 0 <= id < |s.ws| ==> WatcherOk(s, id))
    && (forall fd {:trigger SlotOk(s, fd)} :: 0 <= fd < Watchers(s.slots) ==> SlotOk(s, fd))
    && NoDup(s.queue)
    && (forall id :: id in s.queue ==> id < |s.ws|)
    && s.nfds == Count(s.slots, Watchers(s.slots))
    && (s.slots == [] || |s.slots| > 2) && |s.slots| <= MAX_SLOTS + 2 && IsPower(|s.slots|)
  }

  const INT_MAX := 0x7FFF_FFFF

  /** With one slot more than this, next_power_of_two has no answer in 32 bits. */
  const MAX_SLOTS := 0x8000_0000 - 2

  /** The new size of the array, the two trailing slots included. */
  function Allocation(len: nat): (n: nat)
    requires len <= MAX_SLOTS
    ensures IsPower(n) && len + 2 <= n < 2 * (len + 2) && n <= MAX_SLOTS + 2
  {
    NextPowerIsLeast(len + 2);
    LeastBelowTwice(len + 2, NextPowerOfTwo(len + 2));
    NextPowerOfTwo(len + 2)
  }

  lemma {:induction false} LeastBelowTwice(n: nat, r: nat)
    requires 1 < n <= r && IsPower(r) && forall p: nat :: IsPower(p) && p >= n ==> p >= r
    ensures r < 2 * n
  {
    assert IsPower(r / 2);
  }

  /** maybe_resize: old slots stay, new ones are NULL, and the two trailing slots move along. */
  function Resized(slots: seq<int>, len: nat): (r: seq<int>)
    requires (slots == [] || |slots| > 2) && len <= MAX_SLOTS
    ensures len <= Watchers(r)
  {
    if len <= Watchers(slots) then slots
    else
      var n := Allocation(len) - 2;
      var tail := if slots == [] then [-1, -1] else slots[Watchers(slots)..];
      slots[..Watchers(slots)] + seq(n - Watchers(slots), _ => -1) + tail
  }

  lemma {:induction false} ResizedFacts(slots: seq<int>, len: nat)
    requires (slots == [] || |slots| > 2) && IsPower(|slots|) && len <= MAX_SLOTS
    ensures var r := Resized(slots, len);
      && (r == slots || |r| > 2) && IsPower(|r|) && (r == slots || |r| < 2 * (len + 2))
      && (r == slots || |r| <= MAX_SLOTS + 2) && len <= Watchers(r) && Watchers(slots) <= Watchers(r)
      && (forall fd :: 0 <= fd < Watchers(r) ==> r[fd] == if fd < Watchers(slots) then slots[fd] else -1)
      && (slots != [] ==> r[Watchers(r)..] == slots[Watchers(slots)..])
      && Count(r, Watchers(r)) == Count(slots, Watchers(slots))
  {
    hide Allocation, IsPower;
    var r := Resized(slots, len);
    if r != slots {
      CountSame(slots, r, Watchers(slots));
      CountNulls(r, Watchers(slots), Watchers(r));
    }
  }

  lemma {:induction false} CountSame(a: seq<int>, b: seq<int>, n: nat)
    requires n <= |a| && n <= |b| && forall i :: 0 <= i < n ==> a[i] == b[i]
    ensures Count(a, n) == Count(b, n)
  {
    if n > 0 {
      CountSame(a, b, n - 1);
    }
  }

  lemma {:induction false} CountNulls(a: seq<int>, i: nat, n: nat)
    requires i <= n <= |a| && forall k :: i <= k < n ==> a[k] == -1
    ensures Count(a, n) == Count(a, i)
  {
    if i < n {
      CountNulls(a, i, n - 1);
    }
  }

  lemma {:induction false} CountUpdate(a: seq<int>, k: nat, v: int, n: nat)
    requires k < n <= |a|
    ensures Count(a[k := v], n) == Count(a, n) - (if a[k] != -1 then 1 else 0) + (if v != -1 then 1 else 0)
    ensures a[k] != -1 ==> Count(a, n) > 0
  {
    if k == n - 1 {
      CountSame(a, a[k := v], k);
    } else {
      CountUpdate(a, k, v, n - 1);
    }
  }

  // ---------- the operations ----------

  /** Queue a watcher whose wanted events have changed, and put it into its slot. */
  function Registered(s: State, id: nat): State
    requires id < |s.ws| && 0 <= s.ws[id].fd < |s.slots|
  {
    var w := s.ws[id];
    if w.events == w.pevents then s
    else
      var s1 := s.(queue := if id in s.queue then s.queue else s.queue + [id]);
      if s.slots[w.fd] == -1 then s1.(slots := s.slots[w.fd := id], nfds := s.nfds + 1) else s1
  }

  function Wanting(s: State, id: nat, events: set<Flag>): State
    requires id < |s.ws|
  {
    s.(ws := s.ws[id := s.ws[id].(pevents := s.ws[id].pevents + events)])
  }

  function Grown(s: State, id: nat, events: set<Flag>): State
    requires id < |s.ws| && 0 <= s.ws[id].fd < MAX_SLOTS && (s.slots == [] || |s.slots| > 2)
  {
    Wanting(s.(slots := Resized(s.slots, s.ws[id].fd + 1)), id, events)
  }

  /** uv__io_start */
  function Start(s: State, id: nat, events: set<Flag>): State
    requires id < |s.ws| && 0 <= s.ws[id].fd < MAX_SLOTS && (s.slots == [] || |s.slots| > 2)
  {
    Registered(Grown(s, id, events), id)
  }

  /** uv__io_stop */
  function Stop(s: State, id: nat, events: set<Flag>): State
    requires id < |s.ws|
  {
    var w := s.ws[id].(pevents := s.ws[id].pevents - events);
    if w.fd < 0 || w.fd >= Watchers(s.slots) then s
    else if w.pevents != {} then
      s.(ws := s.ws[id := w], queue := if id in s.queue then s.queue else s.queue + [id])
    else
      var s1 := s.(ws := s.ws[id := w.(events := {})], queue := Without(s.queue, id));
      if s.slots[w.fd] == id && s.nfds > 0 then s1.(slots := s.slots[w.fd := -1], nfds := s.nfds - 1) else s1
  }

  /** One turn of the queue drain of uv__io_poll: EPOLL_CTL_ADD or EPOLL_CTL_MOD. */
  function Sync(s: State): State
    requires s.queue != [] && s.queue[0] < |s.ws|
  {
    var id := s.queue[0];
    var w := s.ws[id];
    State(s.ws[id := w.(events := w.pevents)], s.queue[1..], s.slots, s.nfds, s.epoll[w.fd := w.pevents])
  }

  /** EPOLL_CTL_DEL in uv__platform_invalidate_fd, or the kernel's own clean-up on close(fd). */
  function Deleted(s: State, fd: int): State {
    s.(epoll := s.epoll - {fd})
  }

  /** uv__io_close */
  function Close(s: State, id: nat): State
    requires id < |s.ws|
  {
    var s1 := Stop(s, id, ALL);
    if s.ws[id].fd == -1 then s1 else Deleted(s1, s.ws[id].fd)
  }

  /** No other started watcher has the descriptor. */
  predicate Alone(s: State, id: nat)
    requires id < |s.ws|
  {
    forall k :: 0 <= k < |s.ws| && k != id && Started(s, k) ==> s.ws[k].fd != s.ws[id].fd
  }

  // What the parts of the invariant say about one watcher and its slot.
  lemma {:induction false} OwnSlot(s: State, id: nat)
    requires Inv(s) && id < |s.ws| && Alone(s, id) && s.ws[id].fd >= 0
    ensures WatcherOk(s, id)
    ensures s.ws[id].fd < Watchers(s.slots) ==> s.slots[s.ws[id].fd] == -1 || s.slots[s.ws[id].fd] == id
    ensures s.ws[id].pevents == {} && s.ws[id].fd < Watchers(s.slots) ==> s.slots[s.ws[id].fd] == -1
  {
    assert WatcherOk(s, id);
    if s.ws[id].fd < Watchers(s.slots) {
      assert SlotOk(s, s.ws[id].fd);
    }
  }

  // Growing the table keeps the invariant.
  lemma {:induction false} GrowInv(s: State, len: nat)
    requires Inv(s) && len <= MAX_SLOTS
    ensures Inv(s.(slots := Resized(s.slots, len))) && len <= Watchers(Resized(s.slots, len))
  {
    var s' := s.(slots := Resized(s.slots, len));
    ResizedFacts(s.slots, len);
    hide Resized, IsPower, Count, Allocation;
    forall k | 0 <= k < |s'.ws|
      ensures WatcherOk(s', k)
    {
      assert WatcherOk(s, k);
    }
    forall fd | 0 <= fd < Watchers(s'.slots)
      ensures SlotOk(s', fd)
    {
      assert fd < Watchers(s.slots) ==> SlotOk(s, fd);
    }
  }

  lemma {:induction false} StartInInv(s: State, id: nat, events: set<Flag>)
    requires Inv(s) && id < |s.ws| && 0 <= s.ws[id].fd < Watchers(s.slots) && events != {} && Alone(s, id)
    ensures Inv(Registered(Wanting(s, id, events), id))
  {
    var s', fd0 := Registered(Wanting(s, id, events), id), s.ws[id].fd;
    OwnSlot(s, id);
    CountUpdate(s.slots, fd0, id, Watchers(s.slots));
    hide Count, IsPower;
    forall k | 0 <= k < |s'.ws|
      ensures WatcherOk(s', k)
    {
      assert WatcherOk(s, k);
    }
    forall fd | 0 <= fd < Watchers(s'.slots)
      ensures SlotOk(s', fd)
    {
      assert SlotOk(s, fd);
    }
  }

  lemma {:induction false} StartInv(s: State, id: nat, events: set<Flag>)
    requires Inv(s) && id < |s.ws| && 0 <= s.ws[id].fd < MAX_SLOTS && events != {} && Alone(s, id)
    ensures Inv(Start(s, id, events))
  {
    var len := s.ws[id].fd + 1;
    GrowInv(s, len);
    var s1 := s.(slots := Resized(s.slots, len));
    assert Alone(s1, id);
    hide Resized, Inv, Alone, Registered, Wanting;
    StartInInv(s1, id, events);
  }

  /** uv__io_stop works on any watcher, started or not. */
  lemma {:induction false} StopInv(s: State, id: nat, events: set<Flag>)
    requires Inv(s) && id < |s.ws|
    ensures Inv(Stop(s, id, events))
  {
    var s' := Stop(s, id, events);
    assert WatcherOk(s, id);
    WithoutNoDup(s.queue, id);
    if 0 <= s.ws[id].fd < Watchers(s.slots) {
      assert SlotOk(s, s.ws[id].fd);
      CountUpdate(s.slots, s.ws[id].fd, -1, Watchers(s.slots));
    }
    hide Count, IsPower, Without;
    forall k | 0 <= k < |s'.ws|
      ensures WatcherOk(s', k)
    {
      assert WatcherOk(s, k);
    }
    forall fd | 0 <= fd < Watchers(s'.slots)
      ensures SlotOk(s', fd)
    {
      assert SlotOk(s, fd);
    }
  }

  // No two started watchers share a descriptor.
  lemma {:induction false} StartedAlone(s: State, id: nat)
    requires Inv(s) && Started(s, id)
    ensures Alone(s, id)
  {
    assert WatcherOk(s, id);
    forall k | 0 <= k < |s.ws| && k != id && Started(s, k)
      ensures s.ws[k].fd != s.ws[id].fd
    {
      assert WatcherOk(s, k);
    }
  }

  /** The asserts of the drain loop hold, EPOLL_CTL_MOD finds its descriptor, and the turn
      keeps the invariant. */
  lemma {:induction false} SyncInv(s: State)
    requires Inv(s) && s.queue != []
    ensures s.queue[0] < |s.ws|
    ensures var w := s.ws[s.queue[0]];
      w.pevents != {} && 0 <= w.fd < Watchers(s.slots) && (w.events != {} ==> w.fd in s.epoll)
    ensures Inv(Sync(s))
  {
    var id := s.queue[0];
    assert id in s.queue;
    assert WatcherOk(s, id);
    StartedAlone(s, id);
    var s' := Sync(s);
    assert id !in s.queue[1..];
    assert s.queue == [id] + s.queue[1..];
    assert NoDup(s.queue[1..]) && forall x :: x in s.queue[1..] ==> x in s.queue;
    hide Count, IsPower;
    forall k | 0 <= k < |s'.ws|
      ensures WatcherOk(s', k)
    {
      assert WatcherOk(s, k);
      assert k != id ==> (k in s.queue[1..] <==> k in s.queue);
    }
    forall fd | 0 <= fd < Watchers(s'.slots)
      ensures SlotOk(s', fd)
    {
      assert SlotOk(s, fd);
    }
  }

  /** A descriptor without started watcher may leave the kernel's table at any time. */
  lemma {:induction false} DeletedInv(s: State, fd: int)
    requires Inv(s) && forall k :: 0 <= k < |s.ws| && Started(s, k) ==> s.ws[k].fd != fd
    ensures Inv(Deleted(s, fd))
  {
    var s' := Deleted(s, fd);
    forall k | 0 <= k < |s'.ws|
      ensures WatcherOk(s', k)
    {
      assert WatcherOk(s, k);
    }
    forall f | 0 <= f < Watchers(s'.slots)
      ensures SlotOk(s', f)
    {
      assert SlotOk(s, f);
    }
  }

  /** nfds is zero exactly when nothing is watched; then the queue is empty, as
      uv__io_poll asserts. */
  lemma {:induction false} NothingWatched(s: State)
    requires Inv(s)
    ensures s.nfds == 0 <==> forall id :: !Started(s, id)
    ensures s.nfds == 0 ==> s.queue == []
  {
    forall id | Started(s, id)
      ensures s.nfds > 0
    {
      assert WatcherOk(s, id);
      CountUpdate(s.slots, s.ws[id].fd, -1, Watchers(s.slots));
    }
    if s.nfds > 0 {
      var fd := CountFinds(s.slots, Watchers(s.slots));
      assert SlotOk(s, fd);
    }
    QueuedStarted(s);
  }

  lemma {:induction false} QueuedStarted(s: State)
    requires Inv(s)
    ensures s.queue != [] ==> Started(s, s.queue[0])
  {
    if s.queue != [] {
      assert s.queue[0] in s.queue;
      assert WatcherOk(s, s.queue[0]);
    }
  }

  lemma {:induction false} CountFinds(a: seq<int>, n: nat) returns (k: nat)
    requires n <= |a| && Count(a, n) > 0
    ensures k < n && a[k] != -1
  {
    if a[n - 1] != -1 {
      k := n - 1;
    } else {
      k := CountFinds(a, n - 1);
    }
  }

  // ---------- the code ----------

  class Loop {
    var ws: seq<Watcher>
    var queue: seq<nat>
    var slots: seq<int>
    var nfds: nat
    var epoll: map<int, set<Flag>>

    ghost function View(): State
      reads this
    {
      State(ws, queue, slots, nfds, epoll)
    }

    constructor ()
      ensures View() == State([], [], [], 0, map[]) && Inv(View())
    {
      ws, queue, slots, nfds, epoll := [], [], [], 0, map[];
    }

    /** uv__io_init */
    method Init(fd: int) returns (id: nat)
      requires Inv(View()) && fd >= -1
      modifies `ws
      ensures Inv(View()) && id == |old(ws)| && ws == old(ws) + [Watcher(fd, {}, {})]
    {
      ghost var s := View();
      id := |ws|;
      ws := ws + [Watcher(fd, {}, {})];
      InitInv(s, Watcher(fd, {}, {}));
    }

    /** maybe_resize; it aborts when the new size has wrapped to zero, so that realloc gives NULL. */
    method MaybeResize(len: nat) returns (aborts: bool)
      requires (slots == [] || |slots| > 2) && len <= MAX_SLOTS + 1
      modifies `slots
      ensures aborts <==> len == MAX_SLOTS + 1 && Watchers(old(slots)) <= MAX_SLOTS
      ensures if aborts || len > MAX_SLOTS then slots == old(slots) else slots == Resized(old(slots), len)
    {
      if len <= Watchers(slots) {
        return false;
      }
      NextPowerIsLeast(len + 2);
      var size := NextPowerOfTwo(len + 2);
      if size == 0 {
        return true;
      }
      var n := size - 2;
      var tail := if slots == [] then [-1, -1] else slots[Watchers(slots)..];
      slots := slots[..Watchers(slots)] + seq(n - Watchers(slots), _ => -1) + tail;
      return false;
    }

    /** uv__io_start */
    method IoStart(id: nat, events: set<Flag>) returns (aborts: bool)
      requires Inv(View()) && id < |ws| && 0 <= ws[id].fd < INT_MAX && events != {} && Alone(View(), id)
      modifies this
      ensures aborts <==> old(ws)[id].fd == INT_MAX - 1
      ensures !aborts ==> Inv(View()) && View() == Start(old(View()), id, events)
      ensures ws == old(ws)[id := old(ws)[id].(pevents := old(ws)[id].pevents + events)] && epoll == old(epoll)
      ensures !aborts ==> Started(View(), id) && ws[id].fd < Watchers(slots) && slots[ws[id].fd] == id
    {
      StartFacts(View(), id, events);
      hide Inv, Resized, Alone, Registered, Grown;
      aborts := Prepare(id, events);
      if aborts {
        return;
      }
      RegisteredKeeps(View(), id);
      Register(id);
      StartedSlot(View(), id);
    }

    lemma {:induction false} StartedSlot(s: State, id: nat)
      requires Inv(s) && Started(s, id)
      ensures 0 <= s.ws[id].fd < Watchers(s.slots) && s.slots[s.ws[id].fd] == id
    {
      assert WatcherOk(s, id);
    }

    // uv__io_start up to maybe_resize.
    method Prepare(id: nat, events: set<Flag>) returns (aborts: bool)
      requires id < |ws| && 0 <= ws[id].fd < INT_MAX
      requires (slots == [] || |slots| > 2) && Watchers(slots) <= MAX_SLOTS
      modifies `ws, `slots
      ensures aborts <==> old(ws)[id].fd == INT_MAX - 1
      ensures View() == if aborts then Wanting(old(View()), id, events) else Grown(old(View()), id, events)
    {
      hide Resized;
      var w := ws[id].(pevents := ws[id].pevents + events);
      ws := ws[id := w];
      aborts := MaybeResize(w.fd + 1);
    }

    lemma {:induction false} StartFacts(s: State, id: nat, events: set<Flag>)
      requires Inv(s) && id < |s.ws| && 0 <= s.ws[id].fd < INT_MAX && events != {} && Alone(s, id)
      ensures (s.slots == [] || |s.slots| > 2) && Watchers(s.slots) <= MAX_SLOTS
      ensures s.ws[id].fd < MAX_SLOTS ==> Inv(Start(s, id, events))
      ensures s.ws[id].fd < MAX_SLOTS ==>
        && Grown(s, id, events).ws == Wanting(s, id, events).ws && Grown(s, id, events).epoll == s.epoll
        && s.ws[id].fd < |Grown(s, id, events).slots|
    {
      if s.ws[id].fd < MAX_SLOTS {
        StartInv(s, id, events);
      }
    }

    lemma {:induction false} RegisteredKeeps(s: State, id: nat)
      requires id < |s.ws| && 0 <= s.ws[id].fd < |s.slots|
      ensures Registered(s, id).ws == s.ws && Registered(s, id).epoll == s.epoll
      ensures |Registered(s, id).slots| == |s.slots|
    {
    }

    // uv__io_start after maybe_resize: queue the watcher, and put it into its slot.
    method Register(id: nat)
      requires id < |ws| && 0 <= ws[id].fd < |slots|
      modifies `queue, `slots, `nfds
      ensures View() == Registered(old(View()), id)
    {
      var w := ws[id];
      if w.events == w.pevents {
        return;
      }
      if id !in queue {
        queue := queue + [id];
      }
      if slots[w.fd] == -1 {
        slots := slots[w.fd := id];
        nfds := nfds + 1;
      }
    }

    /** uv__io_stop; the assertion is the one in the source. */
    method IoStop(id: nat, events: set<Flag>)
      requires Inv(View()) && id < |ws| && events != {}
      modifies this
      ensures Inv(View()) && View() == Stop(old(View()), id, events)
      ensures |ws| == |old(ws)| && forall k :: 0 <= k < |ws| && k != id ==> ws[k] == old(ws)[k]
      ensures ws[id].fd == old(ws)[id].fd && ws[id].pevents == old(ws)[id].pevents - events && epoll == old(epoll)
    {
      StopInv(View(), id, events);
      SlotCounts(View(), id);
      hide Inv;
      if ws[id].fd == -1 || ws[id].fd >= Watchers(slots) {
        return;
      }
      var w := ws[id].(pevents := ws[id].pevents - events);
      ws := ws[id := w];
      if w.pevents == {} {
        queue := Without(queue, id);
        ws := ws[id := w.(events := {})];
        assert ws == old(ws)[id := w.(events := {})];
        if slots[w.fd] == id {
          assert nfds > 0;
          slots := slots[w.fd := -1];
          nfds := nfds - 1;
        }
      } else if id !in queue {
        queue := queue + [id];
      }
    }

    /** The drain loop of uv__io_poll: afterwards the kernel watches each started descriptor
        for exactly the events that are wanted. */
    method Drain()
      requires Inv(View())
      modifies this
      ensures Inv(View()) && queue == [] && slots == old(slots) && nfds == old(nfds) && |ws| == |old(ws)|
      ensures forall id :: 0 <= id < |ws| ==> ws[id].fd == old(ws)[id].fd && ws[id].pevents == old(ws)[id].pevents
      ensures forall id :: Started(View(), id) ==> ws[id].events == ws[id].pevents
      ensures forall id :: Started(View(), id) ==> ws[id].fd in epoll && epoll[ws[id].fd] == ws[id].pevents
    {
      while queue != []
        invariant Inv(View()) && slots == old(slots) && nfds == old(nfds) && |ws| == |old(ws)|
        invariant forall id :: 0 <= id < |ws| ==> ws[id].fd == old(ws)[id].fd && ws[id].pevents == old(ws)[id].pevents
        decreases |queue|
      {
        hide Inv;
        var fd, events := SyncHead();
      }
      DrainedFacts(View());
    }

    /** One turn of that loop: the head of the queue, whose events the kernel is told. */
    method SyncHead() returns (fd: int, events: set<Flag>)
      requires Inv(View()) && queue != []
      modifies this
      ensures Inv(View()) && old(queue)[0] < |old(ws)| && View() == Sync(old(View()))
      ensures fd == old(ws)[old(queue)[0]].fd && events == old(ws)[old(queue)[0]].pevents
      ensures 0 <= fd < Watchers(slots) && epoll == old(epoll)[fd := events]
    {
      SyncInv(View());
      hide Inv;
      var id := queue[0];
      queue := queue[1..];
      var w := ws[id];
      fd, events := w.fd, w.pevents;
      assert w.pevents != {} && 0 <= w.fd < Watchers(slots);
      Control(w.events == {}, w.fd, w.pevents);
      ws := ws[id := w.(events := w.pevents)];
    }

    /** epoll_ctl: EPOLL_CTL_ADD, or EPOLL_CTL_MOD when the descriptor is there already. */
    method Control(add: bool, fd: int, events: set<Flag>)
      requires !add ==> fd in epoll
      modifies `epoll
      ensures epoll == old(epoll)[fd := events]
    {
      epoll := epoll[fd := events];
    }

    /** uv__io_close, apart from the pending queue: the watcher is stopped, and the kernel
        forgets the descriptor. */
    method IoClose(id: nat)
      requires Inv(View()) && id < |ws| && Alone(View(), id)
      modifies this
      ensures Inv(View()) && !Started(View(), id) && id !in queue && View() == Close(old(View()), id)
      ensures |ws| == |old(ws)| && ws[id].fd == old(ws)[id].fd && (ws[id].fd == -1 || ws[id].fd !in epoll)
      ensures forall k :: 0 <= k < |ws| && k != id ==> ws[k] == old(ws)[k]
    {
      ClosedInv(View(), id);
      hide Inv, Alone;
      IoStop(id, ALL);
      if ws[id].fd != -1 {
        Forget(ws[id].fd);
      }
    }

    /** EPOLL_CTL_DEL in uv__platform_invalidate_fd. */
    method Forget(fd: int)
      modifies `epoll
      ensures View() == Deleted(old(View()), fd)
    {
      epoll := epoll - {fd};
    }
  }

  // An empty queue: nothing lags behind.
  lemma {:induction false} DrainedFacts(s: State)
    requires Inv(s) && s.queue == []
    ensures forall id :: Started(s, id) ==>
      s.ws[id].events == s.ws[id].pevents && s.ws[id].fd in s.epoll && s.epoll[s.ws[id].fd] == s.ws[id].pevents
  {
    forall id | Started(s, id)
      ensures s.ws[id].events == s.ws[id].pevents && s.ws[id].fd in s.epoll && s.epoll[s.ws[id].fd] == s.ws[id].pevents
    {
      assert WatcherOk(s, id);
    }
  }

  const ALL: set<Flag> := {In, Out, Rdhup, Pri}

  lemma {:induction false} AllFlags(events: set<Flag>)
    ensures events - ALL == {}
  {
    forall f | f in events
      ensures f in ALL
    {
      match f {
        case In =>
        case Out =>
        case Rdhup =>
        case Pri =>
      }
    }
  }

  lemma {:induction false} ClosedInv(s: State, id: nat)
    requires Inv(s) && id < |s.ws| && Alone(s, id)
    ensures var s1 := Stop(s, id, ALL);
      && |s1.ws| == |s.ws| && s1.ws[id].fd == s.ws[id].fd && !Started(s1, id) && id !in s1.queue
      && Inv(Deleted(s1, s.ws[id].fd)) && Inv(s1)
  {
    StopInv(s, id, ALL);
    assert WatcherOk(s, id);
    var s1 := Stop(s, id, ALL);
    AllFlags(s.ws[id].pevents);
    assert WatcherOk(s1, id);
    hide Inv;
    DeletedInv(s1, s.ws[id].fd);
  }

  lemma {:induction false} InitInv(s: State, w: Watcher)
    requires Inv(s) && w.fd >= -1 && w.events == {} && w.pevents == {}
    ensures Inv(s.(ws := s.ws + [w]))
  {
    var s' := s.(ws := s.ws + [w]);
    forall k | 0 <= k < |s'.ws|
      ensures WatcherOk(s', k)
    {
      assert k < |s.ws| ==> WatcherOk(s, k);
    }
    forall fd | 0 <= fd < Watchers(s'.slots)
      ensures SlotOk(s', fd)
    {
      assert SlotOk(s, fd);
    }
  }

  lemma {:induction false} SlotCounts(s: State, id: nat)
    requires Inv(s) && id < |s.ws|
    ensures s.ws[id].fd >= -1
    ensures !(0 <= s.ws[id].fd < Watchers(s.slots)) ==> s.ws[id].pevents == {}
    ensures 0 <= s.ws[id].fd < Watchers(s.slots) && s.slots[s.ws[id].fd] == id ==> s.nfds > 0
  {
    assert WatcherOk(s, id);
    if 0 <= s.ws[id].fd < Watchers(s.slots) {
      CountUpdate(s.slots, s.ws[id].fd, -1, Watchers(s.slots));
    }
  }
}
