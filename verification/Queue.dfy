/** queue.h: the circular lists as sequences. */
module Queue {
  import opened Seqs

  /** A QUEUE node inside its handle, or the head of a list. */
  class Node {
    var next: Node?
    var prev: Node?
    var active: bool

    constructor ()
      ensures !active
    {
      next, prev, active := null, null, false;
    }
  }

  datatype Rec = Rec(next: Node?, prev: Node?)
  type Mem = map<Node, Rec>

  /** The nodes around the circle: the head, the elements, and the head again. */
  ghost function Around(h: Node, q: seq<Node>, i: nat): Node
    requires i <= |q| + 1
  {
    if i == 0 || i == |q| + 1 then h else q[i - 1]
  }

  ghost predicate Link(m: Mem, h: Node, q: seq<Node>, i: nat)
    requires i <= |q|
  {
    var x, y := Around(h, q, i), Around(h, q, i + 1);
    x in m && y in m && m[x].next == y && m[y].prev == x
  }

  /** `m` links the list with head `h` and elements `q`. */
  ghost predicate Ring(m: Mem, h: Node, q: seq<Node>) {
    && NoDup(q) && h !in q
    && forall i: nat {:trigger Link(m, h, q, i)} :: i <= |q| ==> Link(m, h, q, i)
  }

  ghost function First(h: Node, q: seq<Node>): Node {
    if q == [] then h else q[0]
  }

  ghost function End(h: Node, q: seq<Node>): Node {
    if q == [] then h else q[|q| - 1]
  }

  lemma {:induction false} RingEnds(m: Mem, h: Node, q: seq<Node>)
    requires Ring(m, h, q)
    ensures h in m && m[h].next == First(h, q) && m[h].prev == End(h, q)
    ensures First(h, q) in m && End(h, q) in m && m[First(h, q)].prev == h && m[End(h, q)].next == h
    ensures forall x :: x in q ==> x in m
  {
    assert Link(m, h, q, 0) && Link(m, h, q, |q|);
    forall x | x in q
      ensures x in m
    {
      var i :| 0 <= i < |q| && q[i] == x;
      assert Link(m, h, q, i);
    }
  }

  // Writes to other nodes leave a list as it is.
  lemma {:induction false} RingFrame(m: Mem, m': Mem, h: Node, q: seq<Node>)
    requires Ring(m, h, q) && h in m && h in m' && m'[h] == m[h]
    requires forall x :: x in q ==> x in m && x in m' && m'[x] == m[x]
    ensures Ring(m', h, q)
  {
    forall i: nat | i <= |q|
      ensures Link(m', h, q, i)
    {
      assert Link(m, h, q, i);
    }
  }

  // ---------- the macros ----------

  ghost function SetNext(m: Mem, x: Node, y: Node?): Mem
    requires x in m
  {
    m[x := m[x].(next := y)]
  }

  ghost function SetPrev(m: Mem, x: Node, y: Node?): Mem
    requires x in m
  {
    m[x := m[x].(prev := y)]
  }

  /** QUEUE_INSERT_TAIL */
  ghost function TailMem(m: Mem, h: Node, e: Node, x: Node): Mem
    requires h in m && e in m && x in m
  {
    SetPrev(SetNext(SetPrev(SetNext(m, x, h), x, e), e, x), h, x)
  }

  lemma {:induction false} InsertTail(m: Mem, h: Node, q: seq<Node>, x: Node)
    requires Ring(m, h, q) && x in m && x !in q && x != h
    ensures h in m && End(h, q) in m && Ring(TailMem(m, h, End(h, q), x), h, q + [x])
  {
    RingEnds(m, h, q);
    var m', q' := TailMem(m, h, End(h, q), x), q + [x];
    forall i: nat | i <= |q'|
      ensures Link(m', h, q', i)
    {
      if i < |q| {
        assert Link(m, h, q, i);
      }
    }
  }

  /** QUEUE_INSERT_HEAD */
  ghost function HeadMem(m: Mem, h: Node, f: Node, x: Node): Mem
    requires h in m && f in m && x in m
  {
    SetNext(SetPrev(SetPrev(SetNext(m, x, f), x, h), f, x), h, x)
  }

  lemma {:induction false} InsertHead(m: Mem, h: Node, q: seq<Node>, x: Node)
    requires Ring(m, h, q) && x in m && x !in q && x != h
    ensures h in m && First(h, q) in m && Ring(HeadMem(m, h, First(h, q), x), h, [x] + q)
  {
    RingEnds(m, h, q);
    var m', q' := HeadMem(m, h, First(h, q), x), [x] + q;
    forall i: nat | i <= |q'|
      ensures Link(m', h, q', i)
    {
      if i >= 2 {
        assert Link(m, h, q, i - 1);
      } else {
        assert Link(m, h, q, 0);
      }
    }
  }

  /** QUEUE_REMOVE */
  ghost function RemoveMem(m: Mem, p: Node, n: Node): Mem
    requires p in m && n in m
  {
    SetPrev(SetNext(m, p, n), n, p)
  }

  ghost function Cut(q: seq<Node>, k: nat): seq<Node>
    requires k < |q|
  {
    q[..k] + q[k + 1..]
  }

  lemma {:induction false} Remove(m: Mem, h: Node, q: seq<Node>, k: nat)
    requires Ring(m, h, q) && k < |q|
    ensures q[k] in m && m[q[k]].prev == Around(h, q, k) && m[q[k]].next == Around(h, q, k + 2)
    ensures Around(h, q, k) in m && Around(h, q, k + 2) in m
    ensures Ring(RemoveMem(m, Around(h, q, k), Around(h, q, k + 2)), h, Cut(q, k))
  {
    assert Link(m, h, q, k) && Link(m, h, q, k + 1);
    var m', q' := RemoveMem(m, Around(h, q, k), Around(h, q, k + 2)), Cut(q, k);
    forall i: nat | i <= |q'|
      ensures Link(m', h, q', i)
    {
      if i < k {
        assert Link(m, h, q, i);
      } else if i > k {
        assert Link(m, h, q, i + 1);
      }
    }
  }

  /** QUEUE_SPLIT of the list of `h` at `f`; `p` is the node before `f`, `e` the last one. */
  ghost function SplitMem(m: Mem, h: Node, p: Node, f: Node, e: Node, n: Node): Mem
    requires h in m && p in m && f in m && e in m && n in m
  {
    var m1 := SetNext(SetNext(SetPrev(m, n, e), e, n), n, f);
    SetPrev(SetNext(SetPrev(m1, h, p), p, h), f, n)
  }

  /** From `q[k]` on, the list goes to the head `n`. */
  lemma {:induction false} Split(m: Mem, h: Node, q: seq<Node>, k: nat, n: Node)
    requires Ring(m, h, q) && k < |q| && n in m && n !in q && n != h
    ensures h in m && Around(h, q, k) in m && q[k] in m && End(h, q) in m
    ensures m[h].prev == End(h, q) && m[q[k]].prev == Around(h, q, k)
    ensures var m' := SplitMem(m, h, Around(h, q, k), q[k], End(h, q), n); Ring(m', h, q[..k]) && Ring(m', n, q[k..])
  {
    RingEnds(m, h, q);
    assert Link(m, h, q, k);
    var p, e := Around(h, q, k), End(h, q);
    var m' := SplitMem(m, h, p, q[k], e, n);
    var a, b := q[..k], q[k..];
    forall i: nat | i <= |a|
      ensures Link(m', h, a, i)
    {
      assert Link(m, h, q, i);
      assert i < |a| ==> Around(h, a, i + 1) == q[i];
    }
    forall i: nat | i <= |b|
      ensures Link(m', n, b, i)
    {
      assert Link(m, h, q, k + i);
      assert 0 < i ==> Around(n, b, i) == q[k + i - 1];
    }
  }

  /** QUEUE_MOVE of a list that is not empty: QUEUE_SPLIT at its head. */
  ghost function MoveMem(m: Mem, h: Node, f: Node, e: Node, n: Node): Mem
    requires h in m && f in m && e in m && n in m
  {
    SplitMem(m, h, h, f, e, n)
  }

  lemma {:induction false} Move(m: Mem, h: Node, q: seq<Node>, n: Node)
    requires Ring(m, h, q) && q != [] && n in m && n !in q && n != h
    ensures h in m && First(h, q) in m && End(h, q) in m
    ensures var m' := MoveMem(m, h, First(h, q), End(h, q), n); Ring(m', h, []) && Ring(m', n, q)
  {
    Split(m, h, q, 0, n);
    assert q[..0] == [] && q[0..] == q;
  }

  /** QUEUE_ADD: `e` is the last node of the list of `h`, `f` and `l` are the first and the last
      of that of `n`, as far as the macro reads them. */
  ghost function AddMem(m: Mem, h: Node, e: Node, f: Node, l: Node): Mem
    requires h in m && e in m && f in m && l in m
  {
    SetNext(SetPrev(SetPrev(SetNext(m, e, f), f, e), h, l), l, h)
  }

  /** The list of `h` goes on with that of `n`.  If the second one is empty, the macro reads
      the last node of the first one through the link that it has just written. */
  lemma {:induction false} Add(m: Mem, h: Node, q: seq<Node>, n: Node, r: seq<Node>)
    requires Ring(m, h, q) && Ring(m, n, r) && h != n && h !in r && n !in q && forall x :: x in q ==> x !in r
    ensures var e, f := End(h, q), First(n, r); var l := if r == [] then e else End(n, r);
      && h in m && e in m && f in m && l in m && n in m
      && m[h].prev == e && m[n].next == f && SetPrev(SetNext(m, e, f), f, e)[n].prev == l
      && Ring(AddMem(m, h, e, f, l), h, q + r)
  {
    RingEnds(m, h, q);
    RingEnds(m, n, r);
    if r == [] {
      assert q + r == q;
      AddNothing(m, h, q, n);
    } else {
      AddMore(m, h, q, n, r);
    }
  }

  lemma {:induction false} AddNothing(m: Mem, h: Node, q: seq<Node>, n: Node)
    requires Ring(m, h, q) && n in m && h != n && n !in q && End(h, q) in m && h in m
    ensures Ring(AddMem(m, h, End(h, q), n, End(h, q)), h, q)
  {
    RingEnds(m, h, q);
    var m' := AddMem(m, h, End(h, q), n, End(h, q));
    forall i: nat | i <= |q|
      ensures Link(m', h, q, i)
    {
      assert Link(m, h, q, i);
    }
  }

  lemma {:induction false} AddMore(m: Mem, h: Node, q: seq<Node>, n: Node, r: seq<Node>)
    requires Ring(m, h, q) && Ring(m, n, r) && h != n && h !in r && n !in q && forall x :: x in q ==> x !in r
    requires r != [] && h in m && End(h, q) in m && First(n, r) in m && End(n, r) in m
    ensures Ring(AddMem(m, h, End(h, q), First(n, r), End(n, r)), h, q + r)
  {
    RingEnds(m, h, q);
    RingEnds(m, n, r);
    var m', all := AddMem(m, h, End(h, q), First(n, r), End(n, r)), q + r;
    assert forall i :: 0 <= i < |q| ==> q[i] in q;
    assert forall i :: 0 <= i < |r| ==> r[i] in r;
    forall i: nat | i <= |all|
      ensures Link(m', h, all, i)
    {
      if i <= |q| {
        assert Link(m, h, q, i);
      }
      if i >= |q| {
        assert Link(m, n, r, i - |q|);
      }
    }
  }
}
