/** The start, stop and run functions of idle, prepare and check handles, with callbacks
    that start and stop handles as they like. */
module LoopWatcher {
  import opened Seqs
  import opened Queue

  /** loop->idle_handles (or prepare, check) in `q`, and in `todo` the list that a pass has
      taken from it. */
  datatype Lists = Lists(todo: seq<Node>, q: seq<Node>)

  /** What a callback does; `hasCb` is `cb != NULL`. */
  datatype Op = Start(x: Node, hasCb: bool) | Stop(x: Node)

  predicate On(s: Lists, x: Node) {
    x in s.todo || x in s.q
  }

  function Do(s: Lists, op: Op): Lists {
    match op
    case Start(x, hasCb) => if On(s, x) || !hasCb then s else s.(q := [x] + s.q)
    case Stop(x) => Lists(Without(s.todo, x), Without(s.q, x))
  }

  function DoAll(s: Lists, ops: seq<Op>): Lists
    decreases |ops|
  {
    if ops == [] then s else DoAll(Do(s, ops[0]), ops[1..])
  }

  /** Whether a start with a callback came after the last stop of `x`, or `on` if neither came. */
  predicate StartedLast(ops: seq<Op>, x: Node, on: bool)
    decreases |ops|
  {
    if ops == [] then on
    else
      var last := ops[|ops| - 1];
      last == Start(x, true) || (StartedLast(ops[..|ops| - 1], x, on) && last != Stop(x))
  }

  /** After any operations a handle is registered exactly if it was started after its last stop. */
  lemma {:induction false} RegisteredExactly(s: Lists, ops: seq<Op>, x: Node)
    ensures On(DoAll(s, ops), x) <==> StartedLast(ops, x, On(s, x))
    decreases |ops|
  {
    if ops != [] {
      var n := |ops| - 1;
      RegisteredExactly(s, ops[..n], x);
      DoAllSnoc(s, ops[..n], ops[n]);
      assert ops == ops[..n] + [ops[n]];
    }
  }

  lemma {:induction false} DoAllSnoc(s: Lists, ops: seq<Op>, op: Op)
    ensures DoAll(s, ops + [op]) == Do(DoAll(s, ops), op)
    decreases |ops|
  {
    if ops == [] {
      assert ([] + [op])[1..] == [];
    } else {
      DoAllSnoc(Do(s, ops[0]), ops[1..], op);
      assert (ops + [op])[1..] == ops[1..] + [op];
    }
  }

  /** One turn of uv__run_idle and its siblings: move the handle back, call it. */
  function Turn(s: Lists, ops: seq<Op>): Lists
    requires s.todo != []
  {
    DoAll(Lists(s.todo[1..], s.q + [s.todo[0]]), ops)
  }

  // ---------- a whole pass ----------

  lemma {:induction false} DoAllShrinks(s: Lists, ops: seq<Op>)
    ensures |DoAll(s, ops).todo| <= |s.todo|
    ensures forall y :: y in DoAll(s, ops).todo ==> y in s.todo
    decreases |ops|
  {
    if ops != [] {
      if ops[0].Stop? {
        WithoutLength(s.todo, ops[0].x);
      }
      DoAllShrinks(Do(s, ops[0]), ops[1..]);
    }
  }

  /** The handles that a pass calls, in order; `script[k]` is what its k-th callback does. */
  function Calls(s: Lists, script: seq<seq<Op>>): (calls: seq<Node>)
    requires |script| >= |s.todo|
    ensures |calls| <= |s.todo|
    decreases |script|
  {
    if s.todo == [] then []
    else
      DoAllShrinks(Lists(s.todo[1..], s.q + [s.todo[0]]), script[0]);
      [s.todo[0]] + Calls(Turn(s, script[0]), script[1..])
  }

  /** The list after the pass. */
  function After(s: Lists, script: seq<seq<Op>>): seq<Node>
    requires |script| >= |s.todo|
    decreases |script|
  {
    if s.todo == [] then s.q
    else
      DoAllShrinks(Lists(s.todo[1..], s.q + [s.todo[0]]), script[0]);
      After(Turn(s, script[0]), script[1..])
  }

  predicate Stops(ops: seq<Op>, x: Node) {
    Stop(x) in ops
  }

  // A handle that no operation stops stays where it is.
  lemma {:induction false} DoAllKeeps(s: Lists, ops: seq<Op>, x: Node)
    requires x in s.todo && !Stops(ops, x)
    ensures x in DoAll(s, ops).todo
    decreases |ops|
  {
    if ops != [] {
      assert ops[0] in ops;
      assert forall op :: op in ops[1..] ==> op in ops;
      DoAllKeeps(Do(s, ops[0]), ops[1..], x);
    }
  }

  /** Only handles registered when the pass starts are called in it, and none is called twice. */
  lemma {:induction false} CallsAreOld(s: Lists, script: seq<seq<Op>>)
    requires |script| >= |s.todo| && NoDup(s.todo)
    ensures NoDup(Calls(s, script))
    ensures forall x :: x in Calls(s, script) ==> x in s.todo
    decreases |script|
  {
    if s.todo != [] {
      var x, s1 := s.todo[0], Lists(s.todo[1..], s.q + [s.todo[0]]);
      DoAllShrinks(s1, script[0]);
      DoAllNoDup(s1, script[0]);
      CallsAreOld(Turn(s, script[0]), script[1..]);
      assert x !in s.todo[1..];
      var rest := Calls(Turn(s, script[0]), script[1..]);
      assert x !in rest;
      NoDupCons(x, rest);
    }
  }

  lemma {:induction false} DoAllNoDup(s: Lists, ops: seq<Op>)
    requires NoDup(s.todo)
    ensures NoDup(DoAll(s, ops).todo)
    decreases |ops|
  {
    if ops != [] {
      if ops[0].Stop? {
        WithoutNoDup(s.todo, ops[0].x);
      }
      DoAllNoDup(Do(s, ops[0]), ops[1..]);
    }
  }

  /** No callback stops `x` before its turn.  Its own callback may. */
  predicate SparedIn(calls: seq<Node>, script: seq<seq<Op>>, x: Node)
    requires |calls| <= |script|
  {
    forall k :: 0 <= k < |calls| && Stops(script[k], x) ==> x in calls[..k + 1]
  }

  // Where `x` is not the one called, sparing it goes on in the rest of the pass.
  lemma {:induction false} SparedRest(calls: seq<Node>, script: seq<seq<Op>>, x: Node)
    requires 0 < |calls| <= |script| && calls[0] != x
    ensures SparedIn(calls, script, x) <==> !Stops(script[0], x) && SparedIn(calls[1..], script[1..], x)
  {
    var rest := calls[1..];
    assert calls[..1] == [calls[0]];
    assert forall k :: 0 <= k < |rest| ==> script[1..][k] == script[k + 1] && calls[..k + 2] == [calls[0]] + rest[..k + 1];
    hide Stops;
    if SparedIn(calls, script, x) {
      forall k | 0 <= k < |rest| && Stops(script[1..][k], x)
        ensures x in rest[..k + 1]
      {
        assert x in calls[..k + 2];
      }
    }
    if !Stops(script[0], x) && SparedIn(rest, script[1..], x) {
      forall k | 0 <= k < |calls| && Stops(script[k], x)
        ensures x in calls[..k + 1]
      {
        assert script[1..][k - 1] == script[k] && x in rest[..k];
        assert calls[..k + 1] == [calls[0]] + rest[..k];
      }
    }
  }

  // A handle that is stopped leaves the local list for good: a start puts it into the other one.
  lemma {:induction false} DoAllStops(s: Lists, ops: seq<Op>, x: Node)
    requires Stops(ops, x) || x !in s.todo
    ensures x !in DoAll(s, ops).todo
    decreases |ops|
  {
    if ops != [] {
      assert ops == [ops[0]] + ops[1..];
      DoAllStops(Do(s, ops[0]), ops[1..], x);
    }
  }

  /** Which handles a pass calls, exactly: those registered when it started that no callback
      stops before their turn, whether or not they are started again. */
  lemma {:induction false} CalledOnce(s: Lists, script: seq<seq<Op>>, x: Node)
    requires |script| >= |s.todo| && NoDup(s.todo)
    ensures x in Calls(s, script) <==> x in s.todo && SparedIn(Calls(s, script), script, x)
    decreases |script|
  {
    if s.todo != [] {
      var h, calls := s.todo[0], Calls(s, script);
      var s1, s' := Lists(s.todo[1..], s.q + [h]), Turn(s, script[0]);
      DoAllShrinks(s1, script[0]);
      DoAllNoDup(s1, script[0]);
      if h == x {
        forall k | 0 <= k < |calls| && Stops(script[k], x)
          ensures x in calls[..k + 1]
        {
          assert calls[..k + 1][0] == x;
        }
      } else {
        CalledOnce(s', script[1..], x);
        assert calls == [h] + Calls(s', script[1..]) && calls[1..] == Calls(s', script[1..]);
        SparedRest(calls, script, x);
        TurnTodo(s1, script[0], x);
        assert s.todo == [h] + s.todo[1..];
        hide DoAll, Calls, SparedIn, Stops;
      }
    }
  }

  lemma {:induction false} TurnTodo(s: Lists, ops: seq<Op>, x: Node)
    ensures x in DoAll(s, ops).todo <==> x in s.todo && !Stops(ops, x)
  {
    if x in s.todo && !Stops(ops, x) {
      DoAllKeeps(s, ops, x);
    } else {
      DoAllStops(s, ops, x);
    }
  }

  /** If the callbacks change no registration, every handle is called, and the order stays. */
  lemma {:induction false} QuietPass(s: Lists, script: seq<seq<Op>>)
    requires |script| >= |s.todo| && forall k :: 0 <= k < |script| ==> script[k] == []
    ensures Calls(s, script) == s.todo && After(s, script) == s.q + s.todo
    decreases |script|
  {
    if s.todo != [] {
      QuietPass(Turn(s, script[0]), script[1..]);
      assert s.q + [s.todo[0]] + s.todo[1..] == s.q + s.todo;
    }
  }

  // ---------- the code ----------

  /** The two lists are linked and disjoint. */
  ghost predicate Linked(m: Mem, handles: Node, local: Node, s: Lists) {
    && handles != local && Ring(m, handles, s.q) && Ring(m, local, s.todo)
    && handles !in s.todo && local !in s.q && forall x :: x in s.q ==> x !in s.todo
  }

  /** A loop's list of idle (prepare, check) handles, and the local list of its run function.
      The ghost fields repeat the links and give the elements of the two lists. */
  class Loop {
    const handles: Node
    const local: Node
    ghost var m: Mem
    ghost var s: Lists

    ghost predicate Mirror()
      reads `m, m.Keys`next, m.Keys`prev
    {
      forall x :: x in m ==> m[x] == Rec(x.next, x.prev)
    }

    /** The lists are linked, disjoint, and hold exactly the active handles. */
    ghost predicate Valid()
      reads this, m.Keys
    {
      && Mirror() && Linked(m, handles, local, s)
      && forall x :: x in m && x != handles && x != local ==> (x.active <==> On(s, x))
    }

    constructor ()
      ensures Valid() && s == Lists([], [])
    {
      handles := new Node();
      local := new Node();
      new;
      handles.next, handles.prev := handles, handles;
      local.next, local.prev := local, local;
      m := map[handles := Rec(handles, handles), local := Rec(local, local)];
      s := Lists([], []);
      assert Link(m, handles, [], 0) && Link(m, local, [], 0);
    }

    method SetNextOf(x: Node, y: Node?)
      requires Mirror() && x in m
      modifies `m, x`next
      ensures Mirror() && m == SetNext(old(m), x, y)
    {
      x.next := y;
      m := m[x := m[x].(next := y)];
    }

    method SetPrevOf(x: Node, y: Node?)
      requires Mirror() && x in m
      modifies `m, x`prev
      ensures Mirror() && m == SetPrev(old(m), x, y)
    {
      x.prev := y;
      m := m[x := m[x].(prev := y)];
    }

    lemma {:induction false} Reads(x: Node)
      requires Mirror() && x in m
      ensures m[x] == Rec(x.next, x.prev)
    {
    }

    /** QUEUE_INSERT_TAIL */
    method InsertTailLinks(h: Node, x: Node)
      requires Mirror() && h in m && x in m && m[h].prev != null && m[h].prev in m && x != h
      modifies `m, m.Keys`next, m.Keys`prev
      ensures Mirror() && m == TailMem(old(m), h, old(m)[h].prev, x)
    {
      hide Mirror;
      SetNextOf(x, h);
      Reads(h);
      SetPrevOf(x, h.prev);
      Reads(x);
      SetNextOf(x.prev, x);
      SetPrevOf(h, x);
    }

    /** QUEUE_INSERT_HEAD */
    method InsertHeadLinks(h: Node, x: Node)
      requires Mirror() && h in m && x in m && m[h].next != null && m[h].next in m && x != h && m[h].next != x
      modifies `m, m.Keys`next, m.Keys`prev
      ensures Mirror() && m == HeadMem(old(m), h, old(m)[h].next, x)
    {
      hide Mirror;
      Reads(h);
      SetNextOf(x, h.next);
      SetPrevOf(x, h);
      Reads(x);
      SetPrevOf(x.next, x);
      SetNextOf(h, x);
    }

    /** QUEUE_REMOVE */
    method RemoveLinks(x: Node)
      requires Mirror() && x in m && m[x].prev != null && m[x].next != null && m[x].prev in m && m[x].next in m
      requires m[x].prev != x && m[x].next != x
      modifies `m, m.Keys`next, m.Keys`prev
      ensures Mirror() && m == RemoveMem(old(m), old(m)[x].prev, old(m)[x].next)
    {
      hide Mirror;
      Reads(x);
      SetNextOf(x.prev, x.next);
      Reads(x);
      SetPrevOf(x.next, x.prev);
    }

    /** QUEUE_MOVE */
    method MoveLinks(h: Node, n: Node)
      requires Mirror() && h in m && n in m && h != n && m[h].next != null && m[h].prev != null
      requires m[h].next in m && m[h].prev in m && m[h].next != n && m[h].prev != n
      requires m[h].next == h ==> m[h].prev == h
      requires m[h].next != h ==> m[h].prev != h && m[m[h].next].prev == h
      modifies `m, m.Keys`next, m.Keys`prev
      ensures Mirror()
      ensures m == if old(m)[h].next == h then SetPrev(SetNext(old(m), n, n), n, n)
                   else MoveMem(old(m), h, old(m)[h].next, old(m)[h].prev, n)
    {
      hide Mirror;
      Reads(h);
      if h.next == h {
        SetNextOf(n, n);
        SetPrevOf(n, n);
      } else {
        var q := h.next;
        SetPrevOf(n, h.prev);
        Reads(n);
        SetNextOf(n.prev, n);
        SetNextOf(n, q);
        Reads(q);
        SetPrevOf(h, q.prev);
        Reads(h);
        SetNextOf(h.prev, h);
        SetPrevOf(q, n);
      }
    }

    ghost method SetLists(s': Lists)
      requires Mirror()
      modifies `s
      ensures Mirror() && s == s'
    {
      s := s';
    }

    /** uv_idle_init: the handle belongs to the loop. */
    method Init(x: Node)
      requires Valid() && x !in m
      modifies `m, x`active
      ensures Valid() && m.Keys == old(m.Keys) + {x} && s == old(s)
    {
      InitPlan(m, handles, local, s, x, Rec(x.next, x.prev));
      m := m[x := Rec(x.next, x.prev)];
      x.active := false;
    }

    /** uv_idle_start; `ok` is 0 rather than UV_EINVAL. */
    method StartHandle(x: Node, hasCb: bool) returns (ok: bool)
      requires Valid() && x in m && x != handles && x != local
      modifies `m, `s, m.Keys
      ensures Valid() && m.Keys == old(m.Keys) && s == Do(old(s), Start(x, hasCb))
      ensures ok <==> On(old(s), x) || hasCb
      ensures s == if ok && !On(old(s), x) then Lists(old(s).todo, [x] + old(s).q) else old(s)
      ensures ok ==> On(s, x)
    {
      if x.active {
        return true;
      }
      if !hasCb {
        return false;
      }
      StartPlan(m, handles, local, s, x);
      hide Mirror, Linked, HeadMem;
      InsertHeadLinks(handles, x);
      SetLists(Lists(s.todo, [x] + s.q));
      x.active := true;
      return true;
    }

    /** uv_idle_stop */
    method StopHandle(x: Node)
      requires Valid() && x in m && x != handles && x != local
      modifies `m, `s, m.Keys
      ensures Valid() && m.Keys == old(m.Keys) && s == Do(old(s), Stop(x))
      ensures !On(s, x) && forall y :: y != x ==> (On(s, y) <==> On(old(s), y))
    {
      StopPlan(m, handles, local, s, x);
      hide Mirror, Linked, RemoveMem, Without;
      if !x.active {
        return;
      }
      RemoveLinks(x);
      SetLists(Lists(Without(s.todo, x), Without(s.q, x)));
      x.active := false;
    }

    /** What a callback does. */
    method RunOps(ops: seq<Op>)
      requires Valid() && forall op :: op in ops ==> op.x in m && op.x != handles && op.x != local
      modifies `m, `s, m.Keys
      ensures Valid() && m.Keys == old(m.Keys) && s == DoAll(old(s), ops)
    {
      hide Valid, Do;
      var i := 0;
      while i < |ops|
        invariant i <= |ops| && Valid() && m.Keys == old(m.Keys)
        invariant DoAll(s, ops[i..]) == DoAll(old(s), ops)
      {
        assert ops[i..][0] == ops[i] && ops[i..][1..] == ops[i + 1..];
        match ops[i] {
          case Start(x, hasCb) => var _ := StartHandle(x, hasCb);
          case Stop(x) => StopHandle(x);
        }
        i := i + 1;
      }
    }

    /** QUEUE_REMOVE from the local list and QUEUE_INSERT_TAIL to the loop's. */
    method TakeHead() returns (x: Node)
      requires Valid() && s.todo != []
      modifies `m, `s, m.Keys`next, m.Keys`prev
      ensures Valid() && m.Keys == old(m.Keys) && x == old(s).todo[0] && x in m
      ensures s == Lists(old(s).todo[1..], old(s).q + [x])
    {
      TakePlan(m, handles, local, s);
      Reads(local);
      hide Mirror, Linked, RemoveMem, TailMem;
      x := local.next;
      RemoveLinks(x);
      InsertTailLinks(handles, x);
      SetLists(Lists(s.todo[1..], s.q + [x]));
    }

    // One turn of the run function.
    method RunTurn(ops: seq<Op>) returns (x: Node)
      requires Valid() && s.todo != []
      requires forall op :: op in ops ==> op.x in m && op.x != handles && op.x != local
      modifies `m, `s, m.Keys
      ensures Valid() && m.Keys == old(m.Keys) && x == old(s).todo[0] && s == Turn(old(s), ops)
    {
      hide Valid, DoAll;
      x := TakeHead();
      RunOps(ops);
    }

    /** QUEUE_MOVE of the loop's list to the local one. */
    method MoveAll()
      requires Valid() && s.todo == []
      modifies `m, `s, m.Keys`next, m.Keys`prev
      ensures Valid() && m.Keys == old(m.Keys) && s == Lists(old(s).q, [])
    {
      MovePlan(m, handles, local, s);
      hide Linked, Ring, MoveMem, SetNext, SetPrev;
      MoveLinks(handles, local);
      SetLists(Lists(s.q, []));
    }

    /** uv__run_idle (prepare, check): terminates, and makes exactly the calls of `Calls`. */
    method Run(script: seq<seq<Op>>) returns (calls: seq<Node>)
      requires Valid() && s.todo == [] && |script| >= |s.q|
      requires forall ops :: ops in script ==> forall op :: op in ops ==> op.x in m && op.x != handles && op.x != local
      modifies `m, `s, m.Keys
      ensures Valid() && m.Keys == old(m.Keys) && s.todo == []
      ensures calls == Calls(Lists(old(s).q, []), script) && s.q == After(Lists(old(s).q, []), script)
    {
      hide Valid;
      MoveAll();
      ghost var s0 := s;
      calls := [];
      var k := 0;
      assert script[0..] == script && calls + Calls(s, script) == Calls(s, script);
      Emptiness();
      while local.next != local
        invariant Valid() && m.Keys == old(m.Keys) && k <= |script| && |script[k..]| >= |s.todo|
        invariant calls + Calls(s, script[k..]) == Calls(s0, script) && After(s, script[k..]) == After(s0, script)
        invariant local.next == local <==> s.todo == []
        decreases |script| - k
      {
        hide Calls, After, Turn;
        PassStep(s, script, k, calls);
        assert script[k] in script;
        var x := RunTurn(script[k]);
        calls := calls + [x];
        k := k + 1;
        Emptiness();
      }
    }

    lemma {:induction false} Emptiness()
      requires Valid()
      ensures local.next == local <==> s.todo == []
    {
      RingEnds(m, local, s.todo);
    }
  }

  // One turn of the pass, seen from what is left of it.
  lemma {:induction false} PassStep(s: Lists, script: seq<seq<Op>>, k: nat, calls: seq<Node>)
    requires k <= |script| && |script[k..]| >= |s.todo| > 0
    ensures k < |script|
    ensures |script[k + 1..]| >= |Turn(s, script[k]).todo|
    ensures calls + [s.todo[0]] + Calls(Turn(s, script[k]), script[k + 1..]) == calls + Calls(s, script[k..])
    ensures After(Turn(s, script[k]), script[k + 1..]) == After(s, script[k..])
  {
    assert script[k..][0] == script[k] && script[k..][1..] == script[k + 1..];
    DoAllShrinks(Lists(s.todo[1..], s.q + [s.todo[0]]), script[k]);
  }

  lemma {:induction false} MovePlan(m: Mem, h: Node, l: Node, s: Lists)
    requires Linked(m, h, l, s) && s.todo == []
    ensures h in m && l in m && m[h].next != null && m[h].prev != null && m[h].next in m && m[h].prev in m
    ensures m[h].next != l && m[h].prev != l && (m[h].next == h ==> m[h].prev == h)
    ensures m[h].next != h ==> m[h].prev != h && m[m[h].next].prev == h
    ensures var m' := if m[h].next == h then SetPrev(SetNext(m, l, l), l, l) else MoveMem(m, h, m[h].next, m[h].prev, l);
      Linked(m', h, l, Lists(s.q, [])) && m'.Keys == m.Keys
  {
    RingEnds(m, h, s.q);
    RingEnds(m, l, []);
    if s.q == [] {
      assert Link(m, l, [], 0);
      var m' := SetPrev(SetNext(m, l, l), l, l);
      assert m' == m;
    } else {
      Move(m, h, s.q, l);
    }
  }

  lemma {:induction false} InitPlan(m: Mem, h: Node, l: Node, s: Lists, x: Node, r: Rec)
    requires Linked(m, h, l, s) && x !in m
    ensures Linked(m[x := r], h, l, s) && !On(s, x) && x != h && x != l
  {
    RingEnds(m, h, s.q);
    RingEnds(m, l, s.todo);
    RingFrame(m, m[x := r], h, s.q);
    RingFrame(m, m[x := r], l, s.todo);
  }

  lemma {:induction false} StartPlan(m: Mem, h: Node, l: Node, s: Lists, x: Node)
    requires Linked(m, h, l, s) && x in m && !On(s, x) && x != h && x != l
    ensures h in m && m[h].next != null && m[h].next in m && m[h].next != x
    ensures var m' := HeadMem(m, h, m[h].next, x);
      Linked(m', h, l, Lists(s.todo, [x] + s.q)) && m'.Keys == m.Keys
  {
    RingEnds(m, h, s.q);
    RingEnds(m, l, s.todo);
    InsertHead(m, h, s.q, x);
    RingFrame(m, HeadMem(m, h, First(h, s.q), x), l, s.todo);
  }

  lemma {:induction false} WithoutCut(q: seq<Node>, k: nat)
    requires NoDup(q) && k < |q|
    ensures Without(q, q[k]) == Cut(q, k)
    decreases |q|
  {
    if k == 0 {
      WithoutNone(q[1..], q[0]);
    } else {
      WithoutCut(q[1..], k - 1);
      assert Cut(q, k) == [q[0]] + Cut(q[1..], k - 1);
    }
  }

  // Taking an element out of one list leaves the other as it is.
  lemma {:induction false} RemoveOther(m: Mem, h: Node, q: seq<Node>, k: nat, l: Node, q2: seq<Node>)
    requires Ring(m, h, q) && k < |q| && Ring(m, l, q2) && h != l && h !in q2 && l !in q && forall y :: y in q2 ==> y !in q
    ensures Around(h, q, k) in m && Around(h, q, k + 2) in m
    ensures Ring(RemoveMem(m, Around(h, q, k), Around(h, q, k + 2)), l, q2)
  {
    Remove(m, h, q, k);
    RingEnds(m, l, q2);
    assert Around(h, q, k) == h || Around(h, q, k) in q;
    assert Around(h, q, k + 2) == h || Around(h, q, k + 2) in q;
    RingFrame(m, RemoveMem(m, Around(h, q, k), Around(h, q, k + 2)), l, q2);
  }

  ghost predicate CanRemove(m: Mem, x: Node) {
    x in m && m[x].prev != null && m[x].next != null && m[x].prev in m && m[x].next in m && m[x].prev != x && m[x].next != x
  }

  lemma {:induction false} StopPlan(m: Mem, h: Node, l: Node, s: Lists, x: Node)
    requires Linked(m, h, l, s) && x in m
    ensures !On(s, x) ==> Do(s, Stop(x)) == s
    ensures On(s, x) ==> CanRemove(m, x)
    ensures On(s, x) ==> Linked(RemoveMem(m, m[x].prev, m[x].next), h, l, Do(s, Stop(x)))
    ensures On(s, x) ==> RemoveMem(m, m[x].prev, m[x].next).Keys == m.Keys
  {
    if x in s.q {
      var k :| 0 <= k < |s.q| && s.q[k] == x;
      Remove(m, h, s.q, k);
      RemoveOther(m, h, s.q, k, l, s.todo);
      WithoutCut(s.q, k);
      WithoutNone(s.todo, x);
    } else if x in s.todo {
      var k :| 0 <= k < |s.todo| && s.todo[k] == x;
      Remove(m, l, s.todo, k);
      RemoveOther(m, l, s.todo, k, h, s.q);
      WithoutCut(s.todo, k);
      WithoutNone(s.q, x);
    } else {
      WithoutNone(s.q, x);
      WithoutNone(s.todo, x);
    }
  }

  lemma {:induction false} TakePlan(m: Mem, h: Node, l: Node, s: Lists)
    requires Linked(m, h, l, s) && s.todo != []
    ensures var x := s.todo[0];
      && l in m && m[l].next == x && x in m
      && var (p, n) := (m[x].prev, m[x].next);
      && p != null && n != null && p in m && n in m && p != x && n != x
      && var m1 := RemoveMem(m, p, n);
      && m1.Keys == m.Keys && h in m && m1[h].prev != null && m1[h].prev in m && x != h
      && var m2 := TailMem(m1, h, m1[h].prev, x);
      && m2.Keys == m.Keys && Linked(m2, h, l, Lists(s.todo[1..], s.q + [x]))
  {
    var x, todo := s.todo[0], s.todo[1..];
    RingEnds(m, l, s.todo);
    Remove(m, l, s.todo, 0);
    RemoveOther(m, l, s.todo, 0, h, s.q);
    assert Cut(s.todo, 0) == todo;
    InsertOther(RemoveMem(m, l, Around(l, s.todo, 2)), h, s.q, x, l, todo);
  }

  lemma {:induction false} InsertOther(m: Mem, h: Node, q: seq<Node>, x: Node, l: Node, todo: seq<Node>)
    requires Ring(m, h, q) && Ring(m, l, todo) && h != l && h !in todo && l !in q && forall y :: y in q ==> y !in todo
    requires x in m && x != h && x != l && x !in q && x !in todo
    ensures h in m && m[h].prev == End(h, q) && End(h, q) in m
    ensures var m' := TailMem(m, h, End(h, q), x);
      Ring(m', h, q + [x]) && Ring(m', l, todo) && m'.Keys == m.Keys
  {
    RingEnds(m, h, q);
    RingEnds(m, l, todo);
    InsertTail(m, h, q, x);
    assert End(h, q) == h || End(h, q) in q;
    RingFrame(m, TailMem(m, h, End(h, q), x), l, todo);
  }
}
