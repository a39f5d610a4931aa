/** The watcher lists of linux-inotify.c, while event callbacks stop and start handles.
    The tree of lists is a map by watch descriptor here; RbTree is about the tree itself. */
module Inotify {
  import opened Seqs

  /** uv_fs_event_t */
  datatype Handle = Handle(active: bool, wd: int)

  /** struct watcher_list */
  datatype List = List(watchers: seq<nat>, iterating: bool)

  /** `todo` is the local queue of uv__inotify_read, taken from the list of `cur`; -1 when
      no list is being iterated over. */
  datatype State = State(handles: seq<Handle>, lists: map<int, List>, cur: int, todo: seq<nat>)

  /** uv_fs_event_start, with what inotify_add_watch returns, and uv_fs_event_stop. */
  datatype Op = Start(h: nat, wd: int) | Stop(h: nat)

  /** maybe_free_watcher_list */
  function MaybeFree(lists: map<int, List>, wd: int): map<int, List>
    requires wd in lists
  {
    if !lists[wd].iterating && lists[wd].watchers == [] then lists - {wd} else lists
  }

  function DoStart(s: State, h: nat, wd: int): State
    requires h < |s.handles|
  {
    if s.handles[h].active || wd == -1 then s
    else
      var w := if wd in s.lists then s.lists[wd] else List([], false);
      s.(handles := s.handles[h := Handle(true, wd)], lists := s.lists[wd := w.(watchers := w.watchers + [h])])
  }

  /** QUEUE_REMOVE takes the handle out of the queue that it is in. */
  function DoStop(s: State, h: nat): State
    requires h < |s.handles| && (s.handles[h].active ==> s.handles[h].wd in s.lists)
  {
    if !s.handles[h].active then s
    else
      var wd := s.handles[h].wd;
      var w := s.lists[wd];
      State(s.handles[h := Handle(false, -1)],
            MaybeFree(s.lists[wd := w.(watchers := Without(w.watchers, h))], wd), s.cur, Without(s.todo, h))
  }

  /** In the queue of its list, or in the local queue. */
  predicate Listed(s: State, h: nat, wd: int) {
    (wd in s.lists && h in s.lists[wd].watchers) || (wd == s.cur && h in s.todo)
  }

  /** An active handle is in exactly one queue, that of its watch descriptor. */
  predicate HandleOk(s: State, h: nat)
    requires h < |s.handles|
  {
    var x := s.handles[h];
    && (x.active ==> x.wd != -1 && x.wd in s.lists && Listed(s, h, x.wd))
    && (x.active && x.wd == s.cur ==> !(h in s.lists[x.wd].watchers && h in s.todo))
  }

  /** A list holds active handles of its descriptor, once each, and is kept only while it
      is not empty or being iterated over. */
  predicate ListOk(s: State, wd: int)
    requires wd in s.lists
  {
    var w := s.lists[wd];
    && wd != -1 && NoDup(w.watchers) && (w.iterating <==> wd == s.cur)
    && (w.watchers == [] ==> w.iterating)
    && forall h :: h in w.watchers ==> h < |s.handles| && s.handles[h] == Handle(true, wd)
  }

  ghost predicate Inv(s: State) {
    && (forall h {:trigger HandleOk(s, h)} :: 0 <= h < |s.handles| ==> HandleOk(s, h))
    && (forall wd {:trigger ListOk(s, wd)} :: wd in s.lists ==> ListOk(s, wd))
    && NoDup(s.todo) && (s.cur == -1 ==> s.todo == []) && (s.cur != -1 ==> s.cur in s.lists)
    && forall h :: h in s.todo ==> h < |s.handles| && s.handles[h] == Handle(true, s.cur)
  }

  lemma {:induction false} StartInv(s: State, h: nat, wd: int)
    requires Inv(s) && h < |s.handles| && wd >= -1
    ensures Inv(DoStart(s, h, wd))
  {
    var s' := DoStart(s, h, wd);
    assert HandleOk(s, h);
    if s' != s {
      assert wd in s.lists ==> ListOk(s, wd);
      forall k | 0 <= k < |s'.handles|
        ensures HandleOk(s', k)
      {
        assert HandleOk(s, k);
      }
      forall d | d in s'.lists
        ensures ListOk(s', d)
      {
        assert d in s.lists ==> ListOk(s, d);
      }
    }
  }

  /** The lookup that uv_fs_event_stop asserts succeeds, inside callbacks too. */
  lemma {:induction false} StopInv(s: State, h: nat)
    requires Inv(s) && h < |s.handles|
    ensures s.handles[h].active ==> s.handles[h].wd in s.lists
    ensures Inv(DoStop(s, h))
  {
    assert HandleOk(s, h);
    var s' := DoStop(s, h);
    if s' != s {
      assert ListOk(s, s.handles[h].wd);
      WithoutNoDup(s.lists[s.handles[h].wd].watchers, h);
      WithoutNoDup(s.todo, h);
      hide Without;
      forall k | 0 <= k < |s'.handles|
        ensures HandleOk(s', k)
      {
        assert HandleOk(s, k);
        assert k != h && s.handles[k].active && s.handles[k].wd == s.handles[h].wd ==> ListOk(s, s.handles[h].wd);
      }
      forall d | d in s'.lists
        ensures ListOk(s', d)
      {
        assert ListOk(s, d);
      }
    }
  }

  // ---------- an event ----------

  /** Before the inner loop of uv__inotify_read: mark the list and take its queue. */
  function Begin(s: State, wd: int): State
    requires wd in s.lists
  {
    State(s.handles, s.lists[wd := List([], true)], wd, s.lists[wd].watchers)
  }

  /** The head of the local queue goes back to its list, before its callback runs. */
  function Requeue(s: State): State
    requires s.cur in s.lists && s.todo != []
  {
    var w := s.lists[s.cur];
    s.(lists := s.lists[s.cur := w.(watchers := w.watchers + [s.todo[0]])], todo := s.todo[1..])
  }

  /** After the inner loop. */
  function Done(s: State): State
    requires s.cur in s.lists
  {
    State(s.handles, MaybeFree(s.lists[s.cur := s.lists[s.cur].(iterating := false)], s.cur), -1, [])
  }

  lemma {:induction false} BeginInv(s: State, wd: int)
    requires Inv(s) && s.cur == -1 && wd in s.lists
    ensures Inv(Begin(s, wd)) && wd != -1
  {
    var s' := Begin(s, wd);
    assert ListOk(s, wd);
    forall k | 0 <= k < |s'.handles|
      ensures HandleOk(s', k)
    {
      assert HandleOk(s, k);
    }
    forall d | d in s'.lists
      ensures ListOk(s', d)
    {
      assert ListOk(s, d);
    }
  }

  lemma {:induction false} RequeueInv(s: State)
    requires Inv(s) && s.todo != []
    ensures s.cur in s.lists && s.todo[0] < |s.handles| && Inv(Requeue(s))
  {
    var s', h := Requeue(s), s.todo[0];
    assert h in s.todo && ListOk(s, s.cur) && HandleOk(s, h);
    assert s.todo == [h] + s.todo[1..] && h !in s.todo[1..];
    assert NoDup(s.todo[1..]);
    assert forall x :: x in s.todo[1..] ==> x in s.todo;
    forall k | 0 <= k < |s'.handles|
      ensures HandleOk(s', k)
    {
      assert HandleOk(s, k);
    }
    forall d | d in s'.lists
      ensures ListOk(s', d)
    {
      assert ListOk(s, d);
    }
  }

  lemma {:induction false} DoneInv(s: State)
    requires Inv(s) && s.cur != -1 && s.todo == []
    ensures Inv(Done(s))
  {
    var s' := Done(s);
    assert ListOk(s, s.cur);
    forall k | 0 <= k < |s'.handles|
      ensures HandleOk(s', k)
    {
      assert HandleOk(s, k);
    }
    forall d | d in s'.lists
      ensures ListOk(s', d)
    {
      assert ListOk(s, d);
    }
  }

  /** Outside of an event no list is empty, and each active handle is in the list of its
      descriptor and in no other. */
  lemma {:induction false} Quiet(s: State)
    requires Inv(s) && s.cur == -1
    ensures forall wd :: wd in s.lists ==> s.lists[wd].watchers != [] && !s.lists[wd].iterating
    ensures forall h, wd :: 0 <= h < |s.handles| && wd in s.lists ==>
              (h in s.lists[wd].watchers <==> s.handles[h] == Handle(true, wd))
  {
    forall wd | wd in s.lists
      ensures s.lists[wd].watchers != [] && !s.lists[wd].iterating
    {
      assert ListOk(s, wd);
    }
    forall h, wd | 0 <= h < |s.handles| && wd in s.lists
      ensures h in s.lists[wd].watchers <==> s.handles[h] == Handle(true, wd)
    {
      assert ListOk(s, wd) && HandleOk(s, h);
    }
  }

  predicate OpsOk(ops: seq<Op>, n: nat) {
    forall k :: 0 <= k < |ops| ==> ops[k].h < n && (ops[k].Start? ==> ops[k].wd >= -1)
  }

  // ---------- what callbacks do ----------

  function Do(s: State, op: Op): State
    requires op.h < |s.handles| && (op.Stop? && s.handles[op.h].active ==> s.handles[op.h].wd in s.lists)
  {
    match op
    case Start(h, wd) => DoStart(s, h, wd)
    case Stop(h) => DoStop(s, h)
  }

  lemma {:induction false} DoInv(s: State, op: Op)
    requires Inv(s) && op.h < |s.handles| && (op.Start? ==> op.wd >= -1)
    ensures s.handles[op.h].active ==> s.handles[op.h].wd in s.lists
    ensures var s' := Do(s, op);
      && Inv(s') && |s'.handles| == |s.handles| && s'.cur == s.cur && |s'.todo| <= |s.todo|
      && forall x :: x in s'.todo <==> x in s.todo && op != Stop(x)
  {
    StopInv(s, op.h);
    if op.Start? {
      StartInv(s, op.h, op.wd);
    }
    WithoutLength(s.todo, op.h);
    assert forall x :: x in s.todo ==> x < |s.handles| && s.handles[x].active;
    hide Inv;
  }

  lemma {:induction false} OpsTail(ops: seq<Op>, n: nat)
    requires OpsOk(ops, n) && ops != []
    ensures ops[0].h < n && (ops[0].Start? ==> ops[0].wd >= -1) && OpsOk(ops[1..], n)
  {
  }

  ghost function DoAll(s: State, ops: seq<Op>): (s': State)
    requires Inv(s) && OpsOk(ops, |s.handles|)
    ensures Inv(s') && |s'.handles| == |s.handles| && s'.cur == s.cur && |s'.todo| <= |s.todo|
    decreases |ops|
  {
    if ops == [] then s
    else
      OpsTail(ops, |s.handles|);
      DoInv(s, ops[0]);
      DoAll(Do(s, ops[0]), ops[1..])
  }

  /** What the operations say about `h`, if it was `x` before: it is active on the descriptor of
      the first successful start after its last stop. */
  function Says(ops: seq<Op>, h: nat, x: Handle): Handle
    decreases |ops|
  {
    if ops == [] then x
    else
      var x1 := match ops[0]
        case Start(h', wd) => if h' == h && wd != -1 && !x.active then Handle(true, wd) else x
        case Stop(h') => if h' == h && x.active then Handle(false, -1) else x;
      Says(ops[1..], h, x1)
  }

  /** A handle after any operations, inside an event or outside, is what they say about it. */
  lemma {:induction false} HandleExactly(s: State, ops: seq<Op>, h: nat)
    requires Inv(s) && OpsOk(ops, |s.handles|) && h < |s.handles|
    ensures DoAll(s, ops).handles[h] == Says(ops, h, s.handles[h])
    decreases |ops|
  {
    if ops != [] {
      OpsTail(ops, |s.handles|);
      DoInv(s, ops[0]);
      HandleExactly(Do(s, ops[0]), ops[1..], h);
    }
    hide Inv;
  }

  /** The state after the callbacks of an event, from `k` on. */
  ghost function Pass(s: State, script: seq<seq<Op>>): (s': State)
    requires Inv(s) && |script| >= |s.todo| && forall k :: 0 <= k < |script| ==> OpsOk(script[k], |s.handles|)
    ensures Inv(s') && s'.todo == [] && s'.cur == s.cur && |s'.handles| == |s.handles|
    decreases |s.todo|
  {
    if s.todo == [] then s
    else
      RequeueInv(s);
      Pass(DoAll(Requeue(s), script[0]), script[1..])
  }

  /** The handles that are called, in order. */
  ghost function PassCalls(s: State, script: seq<seq<Op>>): seq<nat>
    requires Inv(s) && |script| >= |s.todo| && forall k :: 0 <= k < |script| ==> OpsOk(script[k], |s.handles|)
    decreases |s.todo|
  {
    if s.todo == [] then []
    else
      RequeueInv(s);
      [s.todo[0]] + PassCalls(DoAll(Requeue(s), script[0]), script[1..])
  }

  // One unfolding of the pass.
  lemma {:induction false} PassTurn(s: State, script: seq<seq<Op>>, k: nat, calls: seq<nat>)
    requires Inv(s) && s.todo != [] && k <= |script| && |script| - k >= |s.todo|
    requires forall i :: 0 <= i < |script| ==> OpsOk(script[i], |s.handles|)
    ensures s.cur in s.lists && Inv(Requeue(s))
    ensures var s' := DoAll(Requeue(s), script[k]);
      && |script| - (k + 1) >= |s'.todo| && Pass(s, script[k..]) == Pass(s', script[k + 1..])
      && calls + PassCalls(s, script[k..]) == (calls + [s.todo[0]]) + PassCalls(s', script[k + 1..])
  {
    RequeueInv(s);
    hide Inv;
    assert script[k..][0] == script[k] && script[k..][1..] == script[k + 1..];
    var rest := PassCalls(DoAll(Requeue(s), script[k]), script[k + 1..]);
    assert calls + ([s.todo[0]] + rest) == (calls + [s.todo[0]]) + rest;
  }

  // ---------- the code ----------

  class Loop {
    var handles: seq<Handle>
    var lists: map<int, List>
    ghost var cur: int
    var todo: seq<nat>

    ghost function View(): State
      reads this
    {
      State(handles, lists, cur, todo)
    }

    constructor (n: nat)
      ensures Inv(View()) && cur == -1 && |handles| == n && lists == map[]
    {
      handles := seq(n, _ => Handle(false, -1));
      lists, cur, todo := map[], -1, [];
    }

    /** uv_fs_event_start; `wd` is what inotify_add_watch returns, -1 for an error. */
    method FsEventStart(h: nat, wd: int) returns (ok: bool)
      requires Inv(View()) && h < |handles| && wd >= -1
      modifies `handles, `lists
      ensures Inv(View()) && View() == DoStart(old(View()), h, wd)
      ensures ok <==> !old(handles)[h].active && wd != -1
      ensures handles == if ok then old(handles)[h := Handle(true, wd)] else old(handles)
      ensures ok ==> wd in lists && lists[wd].watchers == (if wd in old(lists) then old(lists)[wd].watchers else []) + [h]
    {
      StartInv(View(), h, wd);
      hide Inv;
      if handles[h].active || wd == -1 {
        return false;
      }
      if wd !in lists {
        lists := lists[wd := List([], false)];
      }
      lists := lists[wd := lists[wd].(watchers := lists[wd].watchers + [h])];
      handles := handles[h := Handle(true, wd)];
      assert lists == DoStart(old(View()), h, wd).lists;
      return true;
    }

    lemma {:induction false} TodoFacts()
      requires Inv(View())
      ensures NoDup(todo) && forall h :: h in todo ==> h < |handles| && handles[h].active
    {
    }

    method MaybeFreeList(wd: int)
      requires wd in lists
      modifies `lists
      ensures lists == MaybeFree(old(lists), wd)
    {
      if !lists[wd].iterating && lists[wd].watchers == [] {
        lists := lists - {wd};
      }
    }

    /** uv_fs_event_stop; the assertion is the one in the source. */
    method FsEventStop(h: nat)
      requires Inv(View()) && h < |handles|
      modifies `handles, `lists, `todo
      ensures Inv(View()) && (old(handles)[h].active ==> old(handles)[h].wd in old(lists))
      ensures View() == DoStop(old(View()), h)
      ensures handles == if old(handles)[h].active then old(handles)[h := Handle(false, -1)] else old(handles)
    {
      StopInv(View(), h);
      hide Inv;
      if !handles[h].active {
        return;
      }
      var wd := handles[h].wd;
      assert wd in lists;
      handles := handles[h := Handle(false, -1)];
      lists := lists[wd := lists[wd].(watchers := Without(lists[wd].watchers, h))];
      todo := Without(todo, h);
      MaybeFreeList(wd);
    }

    /** What a callback does. */
    method RunOps(ops: seq<Op>)
      requires Inv(View()) && OpsOk(ops, |handles|)
      modifies `handles, `lists, `todo
      ensures Inv(View()) && |handles| == |old(handles)| && |todo| <= |old(todo)|
      ensures View() == DoAll(old(View()), ops)
      ensures forall h :: h in todo <==> h in old(todo) && Stop(h) !in ops
    {
      hide Inv;
      var i := 0;
      assert ops[0..] == ops;
      while i < |ops|
        invariant i <= |ops| && Inv(View()) && |handles| == |old(handles)| && |todo| <= |old(todo)|
        invariant OpsOk(ops[i..], |handles|) && DoAll(View(), ops[i..]) == DoAll(old(View()), ops)
        invariant forall h :: h in todo <==> h in old(todo) && Stop(h) !in ops[..i]
      {
        assert forall op :: op in ops[..i + 1] <==> op in ops[..i] || op == ops[i];
        assert ops[i..][0] == ops[i] && ops[i..][1..] == ops[i + 1..];
        DoInv(View(), ops[i]);
        match ops[i] {
          case Start(h, wd) => var _ := FsEventStart(h, wd);
          case Stop(h) => FsEventStop(h);
        }
        i := i + 1;
      }
      assert ops[i..] == [];
    }

    // The head of the local queue goes back to its list, and its callback runs.
    method Visit(wd: int, ops: seq<Op>) returns (q: nat)
      requires Inv(View()) && wd == cur && todo != [] && OpsOk(ops, |handles|)
      modifies `handles, `lists, `todo
      ensures Inv(View()) && |handles| == |old(handles)| && |todo| < |old(todo)| && q == old(todo)[0]
      ensures Inv(Requeue(old(View()))) && View() == DoAll(Requeue(old(View())), ops)
      ensures NoDup(todo) && forall h :: h in todo <==> h in old(todo)[1..] && Stop(h) !in ops
    {
      RequeueInv(View());
      hide Inv;
      q := todo[0];
      todo := todo[1..];
      lists := lists[wd := lists[wd].(watchers := lists[wd].watchers + [q])];
      RunOps(ops);
      TodoFacts();
    }

    /** One event in uv__inotify_read; `script[k]` is what the k-th callback does.  Exactly the
        handles of the list that no callback stops before their turn are called, once each; one
        that is started again meanwhile waits for the next event.  The list outlives the loop
        over it. */
    method Dispatch(wd: int, script: seq<seq<Op>>) returns (calls: seq<nat>)
      requires Inv(View()) && cur == -1
      requires forall k :: 0 <= k < |script| ==> OpsOk(script[k], |handles|)
      requires wd in lists ==> |script| >= |lists[wd].watchers|
      modifies this
      ensures Inv(View()) && cur == -1 && |handles| == |old(handles)|
      ensures wd !in old(lists) ==> calls == []
      ensures wd !in old(lists) ==> View() == old(View())
      ensures wd in old(lists) ==> OnceEach(old(lists)[wd].watchers, calls, script)
      ensures wd in old(lists) ==>
        && Inv(Begin(old(View()), wd)) && calls == PassCalls(Begin(old(View()), wd), script)
        && View() == Done(Pass(Begin(old(View()), wd), script))
    {
      calls := [];
      if wd !in lists {
        return;
      }
      BeginInv(View(), wd);
      todo := lists[wd].watchers;
      lists := lists[wd := List([], true)];
      cur := wd;
      var k := 0;
      ghost var all := todo;
      CallStart(all, script);
      ghost var s0 := View();
      assert script[0..] == script;
      hide Inv, Called;
      while todo != []
        invariant Inv(View()) && cur == wd != -1 && k == |calls| <= |script| && |script| - k >= |todo|
        invariant |handles| == |old(handles)| && Called(all, calls, todo, script)
        invariant Pass(View(), script[k..]) == Pass(s0, script)
        invariant calls + PassCalls(View(), script[k..]) == PassCalls(s0, script)
        decreases |todo|
      {
        ghost var before := todo;
        PassTurn(View(), script, k, calls);
        var q := Visit(wd, script[k]);
        CallStep(all, calls, before, todo, script);
        calls := calls + [q];
        k := k + 1;
      }
      CallEnd(all, calls, script);
      DoneInv(View());
      lists := lists[wd := lists[wd].(iterating := false)];
      MaybeFreeList(wd);
      cur := -1;
    }
  }

  /** No callback stops `h` before its turn.  Its own callback may. */
  predicate SparedIn(calls: seq<nat>, script: seq<seq<Op>>, h: nat)
    requires |calls| <= |script|
  {
    forall k :: 0 <= k < |calls| && Stop(h) in script[k] ==> h in calls[..k + 1]
  }

  /** After some calls: called or still to be called are exactly the handles of the list that
      no callback so far has stopped before their turn; and no handle comes twice. */
  ghost predicate Called(all: seq<nat>, calls: seq<nat>, todo: seq<nat>, script: seq<seq<Op>>) {
    && |calls| <= |script| && NoDup(calls) && NoDup(todo)
    && (forall h :: h in calls ==> h !in todo)
    && (forall h :: h in calls || h in todo <==> h in all && SparedIn(calls, script, h))
  }

  /** The calls that an event leads to. */
  ghost predicate OnceEach(all: seq<nat>, calls: seq<nat>, script: seq<seq<Op>>) {
    && |calls| <= |script| && NoDup(calls)
    && forall h :: h in calls <==> h in all && SparedIn(calls, script, h)
  }

  lemma {:induction false} CallStart(all: seq<nat>, script: seq<seq<Op>>)
    requires NoDup(all)
    ensures Called(all, [], all, script)
  {
  }

  lemma {:induction false} SparedSnoc(calls: seq<nat>, q: nat, script: seq<seq<Op>>, h: nat)
    requires |calls| < |script|
    ensures SparedIn(calls + [q], script, h) <==>
      SparedIn(calls, script, h) && (Stop(h) in script[|calls|] ==> h == q || h in calls)
  {
    var more, n := calls + [q], |calls|;
    assert more[..n + 1] == more;
    forall k | 0 <= k < n && Stop(h) in script[k]
      ensures h in calls[..k + 1] <==> h in more[..k + 1]
    {
      assert more[..k + 1] == calls[..k + 1];
    }
  }

  lemma {:induction false} CallStep(all: seq<nat>, calls: seq<nat>, before: seq<nat>, todo: seq<nat>, script: seq<seq<Op>>)
    requires Called(all, calls, before, script) && before != [] && |calls| < |script| && NoDup(todo)
    requires forall h :: h in todo <==> h in before[1..] && Stop(h) !in script[|calls|]
    ensures Called(all, calls + [before[0]], todo, script)
  {
    var q, n := before[0], |calls|;
    var more := calls + [q];
    assert before == [q] + before[1..];
    assert q in before && q !in calls && q !in before[1..];
    assert forall i :: 0 <= i < n ==> calls[i] in calls;
    assert forall h :: h in more <==> h == q || h in calls;
    forall h
      ensures h in more || h in todo <==> h in all && SparedIn(more, script, h)
    {
      SparedSnoc(calls, q, script, h);
      hide SparedIn;
    }
  }

  lemma {:induction false} CallEnd(all: seq<nat>, calls: seq<nat>, script: seq<seq<Op>>)
    requires Called(all, calls, [], script)
    ensures OnceEach(all, calls, script)
  {
  }
}
