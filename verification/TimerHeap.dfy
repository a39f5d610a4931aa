/** heap_insert, heap_remove and heap_dequeue on linked nodes. */
module TimerHeap {
  import opened HeapShape

  /** struct heap.  The ghost fields repeat the links and the keys of the linked nodes,
      and list the nodes slot by slot. */
  class Heap {
    var min: Node?
    var nelts: nat
    ghost var m: Mem
    ghost var keys: Keys
    ghost var a: seq<Node>

    /** The ghost fields agree with the real ones. */
    ghost predicate Mirror()
      reads `m, `keys
      reads m.Keys`left, m.Keys`right, m.Keys`parent, m.Keys`timeout, m.Keys`startId
    {
      && (forall x :: x in m ==> m[x] == Rec(x.left, x.right, x.parent))
      && (forall x :: x in m ==> x in keys && keys[x] == Key(x.timeout, x.startId))
    }

    /** The links form the complete binary tree `a`. */
    ghost predicate Linked()
      reads this
      reads m.Keys`left, m.Keys`right, m.Keys`parent, m.Keys`timeout, m.Keys`startId
    {
      Mirror() && Tree(m, min, a)
    }

    ghost predicate Valid()
      reads this
      reads m.Keys`left, m.Keys`right, m.Keys`parent, m.Keys`timeout, m.Keys`startId
    {
      Linked() && nelts == |a| && Ordered(keys, a)
    }

    constructor ()
      ensures Valid() && a == []
    {
      min, nelts := null, 0;
      m, keys, a := map[], map[], [];
    }

    method SetLinks(x: Node, left: Node?, right: Node?, parent: Node?)
      requires Mirror() && x in m
      modifies this`m, x`left, x`right, x`parent
      ensures Mirror() && m == old(m)[x := Rec(left, right, parent)]
    {
      x.left, x.right, x.parent := left, right, parent;
      m := m[x := Rec(left, right, parent)];
    }

    method Adopt(child: Node?, parent: Node)
      requires Mirror() && (child != null ==> child in m)
      modifies this`m, m.Keys`parent
      ensures Mirror() && m == WithParent(old(m), child, parent)
    {
      if child != null {
        child.parent := parent;
        m := m[child := m[child].(parent := parent)];
      }
    }

    // The link from `parent` (or `heap->min`) to `x` leads to `y`.
    method Redirect(parent: Node?, x: Node, y: Node)
      requires Mirror() && (parent != null ==> parent in m)
      modifies this`min, this`m, m.Keys`left, m.Keys`right
      ensures Mirror() && m.Keys == old(m.Keys)
      ensures min == (if parent == null then y else old(min))
      ensures m == Redirected(old(m), parent, x, y)
    {
      if parent == null {
        min := y;
      } else if parent.left == x {
        parent.left := y;
        m := m[parent := m[parent].(left := y)];
      } else {
        parent.right := y;
        m := m[parent := m[parent].(right := y)];
      }
    }

    // heap_node_swap: exchange the two structs and fix the links between them.
    method SwapTopLinks(parent: Node, child: Node)
      requires Mirror() && CanSwap(m, parent, child)
      modifies this`m, m.Keys`left, m.Keys`right, m.Keys`parent
      ensures Mirror() && m == SwapTop(old(m), parent, child)
    {
      var left, right, up := parent.left, parent.right, parent.parent;
      SetLinks(parent, child.left, child.right, child);
      if left == child {
        SetLinks(child, parent, right, up);
        Adopt(right, child);
      } else {
        SetLinks(child, left, parent, up);
        Adopt(left, child);
      }
    }

    // heap_node_swap: all writes.
    method SwapLinks(parent: Node, child: Node)
      requires Mirror() && CanSwap(m, parent, child)
      modifies this`min, this`m, m.Keys`left, m.Keys`right, m.Keys`parent
      ensures Mirror() && m == SwapMem(old(m), parent, child)
      ensures min == (if old(m)[parent].parent == null then child else old(min))
    {
      hide SwapTop;
      var left, right, up := child.left, child.right, parent.parent;
      SwapTopKeys(m, parent, child);
      SwapTopLinks(parent, child);
      Adopt(left, parent);
      Adopt(right, parent);
      Redirect(up, parent, child);
    }

    ghost method SetSlots(b: seq<Node>)
      requires Mirror()
      modifies this`a
      ensures Mirror() && a == b
    {
      a := b;
    }

    method SetCount(n: nat)
      requires Mirror()
      modifies this`nelts
      ensures Mirror() && nelts == n
    {
      nelts := n;
    }

    /** heap_node_swap on the edge above slot `i`. */
    method Swap(parent: Node, child: Node, ghost i: nat)
      requires Linked() && 0 < i < |a| && parent == a[Up(i)] && child == a[i]
      modifies this`min, this`m, this`a, m.Keys`left, m.Keys`right, m.Keys`parent
      ensures Linked() && m.Keys == old(m.Keys) && a == Swapped(old(a), Up(i), i)
      ensures |a| == |old(a)| && a[Up(i)] == child && a[i] == parent
    {
      SwapPlan(m, min, a, i);
      hide Mirror, Tree, SwapMem, CanSwap, Swapped, Up;
      SwapLinks(parent, child);
      SetSlots(Swapped(a, Up(i), i));
    }

    /** Sift up: while the node is less than its parent, swap them. */
    method Rise(x: Node, ghost i0: nat)
      requires Linked() && i0 < |a| && a[i0] == x && MayRise(keys, a, i0)
      modifies this`min, this`m, this`a, m.Keys`left, m.Keys`right, m.Keys`parent
      ensures Linked() && m.Keys == old(m.Keys) && Ordered(keys, a)
      ensures |a| == |old(a)|
    {
      hide Mirror, Tree, MayRise, Ordered, Swapped;
      ghost var i: nat := i0;
      SlotFields(i);
      while x.parent != null && Less(Key(x.timeout, x.startId), Key(x.parent.timeout, x.parent.startId))
        invariant Linked() && m.Keys == old(m.Keys) && i < |a| == |old(a)| && a[i] == x && MayRise(keys, a, i)
        invariant Fields(x, i)
        decreases i
      {
        RiseStep(keys, a, i);
        Swap(x.parent, x, i);
        i := Up(i);
        SlotFields(i);
      }
      assert Fits(keys, a, i);
      RiseEnd(keys, a, i);
    }

    ghost predicate Fields(x: Node, i: nat)
      reads this, m.Keys
    {
      && x in m && i < |a|
      && x.left == Slot(a, 2 * i + 1) && x.right == Slot(a, 2 * i + 2)
      && x.parent == (if i == 0 then null else a[Up(i)])
      && KeyAt(keys, a, i) == Key(x.timeout, x.startId)
      && (x.left != null ==> x.left in m && KeyAt(keys, a, 2 * i + 1) == Key(x.left.timeout, x.left.startId))
      && (x.right != null ==> x.right in m && KeyAt(keys, a, 2 * i + 2) == Key(x.right.timeout, x.right.startId))
      && (x.parent != null ==> x.parent in m && KeyAt(keys, a, Up(i)) == Key(x.parent.timeout, x.parent.startId))
    }

    lemma {:induction false} SlotFields(i: nat)
      requires Linked() && i < |a|
      ensures Fields(a[i], i)
    {
      assert LinkedAt(m, a, i);
      assert i > 0 ==> LinkedAt(m, a, Up(i));
      assert 2 * i + 1 < |a| ==> LinkedAt(m, a, 2 * i + 1);
      assert 2 * i + 2 < |a| ==> LinkedAt(m, a, 2 * i + 2);
    }

    /** Sift down: while a child is less than the node, swap it with the lesser one. */
    method Sink(x: Node, ghost i0: nat) returns (ghost i: nat)
      requires Linked() && i0 < |a| && a[i0] == x && MayMove(keys, a, i0)
      modifies this`min, this`m, this`a, m.Keys`left, m.Keys`right, m.Keys`parent
      ensures Linked() && m.Keys == old(m.Keys) && |a| == |old(a)|
      ensures i < |a| && a[i] == x && MayRise(keys, a, i)
    {
      hide Mirror, Tree, MayRise, MayMove, Ordered, Swapped;
      i := i0;
      SlotFields(i);
      while true
        invariant Linked() && m.Keys == old(m.Keys) && i < |a| == |old(a)| && a[i] == x && MayMove(keys, a, i)
        invariant Fields(x, i)
        decreases |a| - i
      {
        var smallest := x;
        ghost var c := i;
        if x.left != null && Less(Key(x.left.timeout, x.left.startId), Key(smallest.timeout, smallest.startId)) {
          smallest := x.left;
          c := 2 * i + 1;
        }
        if x.right != null && Less(Key(x.right.timeout, x.right.startId), Key(smallest.timeout, smallest.startId)) {
          smallest := x.right;
          c := 2 * i + 2;
        }
        if smallest == x {
          SlotsApart(i);
          SinkEnd(keys, a, i);
          return;
        }
        SinkStep(keys, a, i, c);
        Swap(x, smallest, c);
        i := c;
        SlotFields(i);
      }
    }

    // A node is not its own child.
    lemma {:induction false} SlotsApart(i: nat)
      requires Linked() && i < |a|
      ensures Slot(a, 2 * i + 1) != a[i] && Slot(a, 2 * i + 2) != a[i]
    {
    }

    /** The second loop of heap_insert and heap_remove: follow the bit path to the link of slot `v`. */
    method Walk(path0: nat, k0: nat, ghost v: nat) returns (holder: Node?, right: bool)
      requires Linked() && 0 < v <= |a| + 1 && path0 == Pack(Turns(v)) && k0 == |Turns(v)|
      ensures holder == (if v == 1 then null else a[v / 2 - 1]) && right == (v > 1 && v % 2 == 1)
    {
      hide Mirror, Tree, Turns, Pack;
      var path, k, cur := path0, k0, min;
      holder, right := null, false;
      ghost var u, t := 1, Turns(v);
      TurnsStart(v);
      RootSlot();
      while k > 0
        invariant 0 < u && Turns(v) == Turns(u) + t && path == Pack(t) && k == |t|
        invariant cur == Slot(a, u - 1)
        invariant holder == (if u == 1 then null else Slot(a, u / 2 - 1)) && right == (u > 1 && u % 2 == 1)
        decreases k
      {
        TurnTaken(u, v, t);
        SlotFields(u - 1);
        holder := cur;
        right := path % 2 == 1;
        cur := if right then holder.right else holder.left;
        u := 2 * u + if t[0] then 1 else 0;
        t := t[1..];
        path := path / 2;
        k := k - 1;
      }
      TurnsEnd(u, v, t);
    }

    lemma {:induction false} RootSlot()
      requires Linked()
      ensures min == Slot(a, 0)
    {
    }

    ghost function Only(x: Node?): set<Node> {
      if x == null then {} else {x}
    }

    // The link found by the walk is set.
    method SetLink(holder: Node?, right: bool, c: Node?)
      requires Mirror() && (holder != null ==> holder in m)
      modifies this`min, this`m, Only(holder)`left, Only(holder)`right
      ensures Mirror() && m.Keys == old(m.Keys) && m == WithChild(old(m), holder, right, c)
      ensures min == (if holder == null then c else old(min))
    {
      if holder == null {
        min := c;
      } else if right {
        holder.right := c;
        m := m[holder := m[holder].(right := c)];
      } else {
        holder.left := c;
        m := m[holder := m[holder].(left := c)];
      }
    }

    // heap_insert: the new node has no children yet.
    method Enter(x: Node, parent: Node?)
      requires Mirror() && x !in m
      modifies this`m, this`keys, x`left, x`right, x`parent
      ensures Mirror() && m == old(m)[x := Rec(null, null, parent)]
      ensures keys == old(keys)[x := Key(x.timeout, x.startId)]
    {
      x.left, x.right, x.parent := null, null, parent;
      m := m[x := Rec(null, null, parent)];
      keys := keys[x := Key(x.timeout, x.startId)];
    }

    method Attach(x: Node, holder: Node?, right: bool)
      requires Mirror() && x !in m && (holder != null ==> holder in m)
      modifies this`min, this`m, this`keys, m.Keys`left, m.Keys`right, x`left, x`right, x`parent
      ensures Mirror() && m == WithChild(old(m)[x := Rec(null, null, holder)], holder, right, x)
      ensures m.Keys == old(m.Keys) + {x} && min == (if holder == null then x else old(min))
      ensures keys == old(keys)[x := Key(x.timeout, x.startId)]
    {
      hide Mirror, WithChild;
      Enter(x, holder);
      SetLink(holder, right, x);
    }

    // heap_insert: put the node into the link that the walk found.
    method Append(x: Node, holder: Node?, right: bool)
      requires Linked() && nelts == |a| && x !in m
      requires holder == (if a == [] then null else a[Up(|a|)]) && (holder != null ==> right == (|a| % 2 == 0))
      modifies this, m.Keys`left, m.Keys`right, x`left, x`right, x`parent
      ensures Linked() && nelts == |a| && a == old(a) + [x] && m.Keys == old(m.Keys) + {x}
      ensures keys == old(keys)[x := Key(x.timeout, x.startId)]
    {
      AppendPlan(m, min, a, x);
      hide Mirror, Tree, WithChild, Up;
      Attach(x, holder, right);
      SetSlots(a + [x]);
      SetCount(nelts + 1);
    }

    /** heap_insert: the heap holds exactly one node more. */
    method Insert(x: Node)
      requires Valid() && x !in m
      modifies this, m.Keys`left, m.Keys`right, m.Keys`parent, x`left, x`right, x`parent
      ensures Valid() && m.Keys == old(m.Keys) + {x}
    {
      var path, k := ComputePath(1 + nelts);
      var holder, right := Walk(path, k, 1 + nelts);
      ghost var n := |a|;
      AppendMayRise(keys, keys[x := Key(x.timeout, x.startId)], a, x, m.Keys);
      Append(x, holder, right);
      Rise(x, n);
    }

    // heap_remove: take the last node out of the tree.
    method Unlink(holder: Node?, right: bool) returns (child: Node)
      requires Linked() && nelts == |a| > 0
      requires holder == (if |a| == 1 then null else a[Up(|a| - 1)]) && right == (|a| > 1 && |a| % 2 == 1)
      modifies this`min, this`nelts, this`m, this`a, m.Keys`left, m.Keys`right
      ensures Linked() && nelts == |a| && child == old(a[|a| - 1]) && a == old(a[..|a| - 1])
      ensures m.Keys == old(m.Keys) - {child} && min != child
    {
      hide Mirror, Tree, WithChild, Up, Linkee;
      DropPlan(m, min, a, holder, right);
      child := Cut(holder, right);
      SetCount(nelts - 1);
      SetSlots(a[..|a| - 1]);
    }

    // heap_remove: clear the link that the walk found.
    method Cut(holder: Node?, right: bool) returns (child: Node)
      requires Mirror() && (holder != null ==> holder in m) && Linkee(m, min, holder, right) != null
      modifies this`min, this`m, m.Keys`left, m.Keys`right
      ensures Mirror() && child == Linkee(old(m), old(min), holder, right)
      ensures m == WithChild(old(m), holder, right, null) - {child}
      ensures min == (if holder == null then null else old(min))
    {
      LinkMirrored(holder, right);
      hide Mirror, WithChild;
      child := if holder == null then min else if right then holder.right else holder.left;
      SetLink(holder, right, null);
      Forget(child);
    }

    lemma {:induction false} LinkMirrored(h: Node?, right: bool)
      requires Mirror() && (h != null ==> h in m)
      ensures Linkee(m, min, h, right) == (if h == null then min else if right then h.right else h.left)
    {
    }

    // heap_remove: give `child` the links of `node`.
    method TakeLinks(child: Node, node: Node)
      requires Mirror() && node in m && child !in m && child in keys
      requires keys[child] == Key(child.timeout, child.startId)
      modifies this`m, child`left, child`right, child`parent
      ensures Mirror() && m == old(m)[child := old(m)[node]]
      ensures child.left == node.left && child.right == node.right && child.parent == node.parent
      ensures child.left == m[node].left && child.right == m[node].right && child.parent == m[node].parent
    {
      child.left, child.right, child.parent := node.left, node.right, node.parent;
      m := m[child := m[node]];
    }

    method AdoptBoth(left: Node?, right: Node?, parent: Node)
      requires Mirror() && (left != null ==> left in m) && (right != null ==> right in m)
      modifies this`m, m.Keys`parent
      ensures Mirror() && m == WithParent(WithParent(old(m), left, parent), right, parent)
    {
      hide Mirror;
      Adopt(left, parent);
      Adopt(right, parent);
    }

    // heap_remove: all writes that put `child` in the place of `node`.
    method ReplaceLinks(child: Node, node: Node)
      requires Mirror() && CanReplace(m, node, child) && child in keys
      requires keys[child] == Key(child.timeout, child.startId)
      modifies this`min, this`m, m.Keys`left, m.Keys`right, m.Keys`parent, child`left, child`right, child`parent
      ensures Mirror() && m == ReplaceMem(old(m), node, child)
      ensures min == (if old(m)[node].parent == null then child else old(min))
    {
      hide Mirror;
      var left, right, up := node.left, node.right, node.parent;
      NodeMirrored(node);
      TakeLinks(child, node);
      AdoptBoth(left, right, child);
      Redirect(up, node, child);
      Forget(node);
    }

    lemma {:induction false} NodeMirrored(x: Node)
      requires Mirror() && x in m
      ensures m[x] == Rec(x.left, x.right, x.parent)
    {
    }

    ghost method Forget(x: Node)
      requires Mirror()
      modifies this`m
      ensures Mirror() && m == old(m) - {x}
    {
      m := m - {x};
    }

    // heap_remove: the former last node takes slot `i`.
    method Substitute(child: Node, node: Node, ghost b: seq<Node>, ghost i: nat)
      requires Linked() && nelts == |a| && i + 1 < |b| && a == b[..|b| - 1] && child == b[|b| - 1] && node == b[i]
      requires child !in m && child in keys && keys[child] == Key(child.timeout, child.startId)
      modifies this`min, this`m, this`a, m.Keys`left, m.Keys`right, m.Keys`parent
      modifies child`left, child`right, child`parent
      ensures Linked() && nelts == |a| && a == Replaced(b, i)
      ensures m.Keys == old(m.Keys) - {node} + {child}
    {
      ReplacePlan(m, min, a, i, child);
      hide Mirror, Tree, ReplaceMem, CanReplace;
      ReplaceLinks(child, node);
      SetSlots(a[i := child]);
    }

    // heap_remove: find the last node by its path and unlink it.
    method Detach() returns (child: Node)
      requires Linked() && nelts == |a| > 0
      modifies this`min, this`nelts, this`m, this`a, m.Keys`left, m.Keys`right
      ensures Linked() && nelts == |a| && child == old(a[|a| - 1]) && a == old(a[..|a| - 1])
      ensures m.Keys == old(m.Keys) - {child} && child in old(m.Keys) && min != child
      ensures child in keys && keys[child] == Key(child.timeout, child.startId)
    {
      hide Mirror, Tree;
      LastKey();
      var path, k := ComputePath(nelts);
      var holder, right := Walk(path, k, nelts);
      child := Unlink(holder, right);
    }

    // heap_remove: put the former last node into slot `i` and restore the order.
    method Refill(child: Node, node: Node, ghost b: seq<Node>, ghost i: nat)
      requires Linked() && nelts == |a| && i + 1 < |b| && a == b[..|b| - 1] && child == b[|b| - 1] && node == b[i]
      requires child !in m && child in keys && keys[child] == Key(child.timeout, child.startId) && Ordered(keys, b)
      modifies this`min, this`m, this`a, m.Keys`left, m.Keys`right, m.Keys`parent
      modifies child`left, child`right, child`parent
      ensures Valid() && m.Keys == old(m.Keys) - {node} + {child}
    {
      hide Mirror, Tree, Ordered, MayMove, MayRise, Replaced;
      ReplacedSlot(b, i);
      ReplacedMayMove(keys, b, i);
      Substitute(child, node, b, i);
      ghost var j := Sink(child, i);
      Rise(child, j);
    }

    lemma {:induction false} LastKey()
      requires Linked() && a != []
      ensures var x := a[|a| - 1]; x in m && x in keys && keys[x] == Key(x.timeout, x.startId)
    {
      assert LinkedAt(m, a, |a| - 1);
    }

    lemma {:induction false} MemberSlot(x: Node) returns (i: nat)
      requires Linked() && x in m
      ensures i < |a| && a[i] == x
    {
      assert x in a;
      i :| 0 <= i < |a| && a[i] == x;
    }

    lemma {:induction false} EmptyHeap()
      requires Linked()
      ensures a == [] ==> m.Keys == {}
    {
    }

    /** heap_remove: the heap holds exactly one node less. */
    method Remove(node: Node)
      requires Valid() && (nelts > 0 ==> node in m)
      modifies this`min, this`nelts, this`m, this`a, m.Keys`left, m.Keys`right, m.Keys`parent
      ensures Valid() && m.Keys == old(m.Keys) - {node}
    {
      EmptyHeap();
      hide Mirror, Tree, Ordered;
      if nelts == 0 {
        return;
      }
      RemoveMember(node);
    }

    method RemoveMember(node: Node)
      requires Valid() && node in m && nelts > 0
      modifies this`min, this`nelts, this`m, this`a, m.Keys`left, m.Keys`right, m.Keys`parent
      ensures Valid() && m.Keys == old(m.Keys) - {node}
    {
      hide Mirror, Tree, Ordered, MayMove, MayRise, Replaced;
      ghost var b := a;
      ghost var i := MemberSlot(node);
      DroppedOrdered(keys, a);
      var child := Detach();
      // `child` is not the minimum any more, so that `heap->min` needs no change here.
      if child == node {
        return;
      }
      Refill(child, node, b, i);
    }

    /** heap_min: the root is null for the empty heap only, and no node is less than it. */
    method Min() returns (x: Node?)
      requires Valid()
      ensures x == null <==> m.Keys == {}
      ensures x != null ==> x in m && forall y :: y in m ==> !Less(keys[y], keys[x])
    {
      x := min;
      if x != null {
        RootSlot();
        SlotFields(0);
        forall y | y in m
          ensures !Less(keys[y], keys[x])
        {
          var i := MemberSlot(y);
          RootIsLeast(keys, a, i);
        }
      }
    }

    /** heap_dequeue */
    method Dequeue()
      requires Valid()
      modifies this`min, this`nelts, this`m, this`a, m.Keys`left, m.Keys`right, m.Keys`parent
      ensures Valid()
      ensures m.Keys == if old(min) == null then old(m.Keys) else old(m.Keys) - {old(min)}
    {
      RootSlot();
      if min != null {
        SlotFields(0);
        Remove(min);
      }
    }
  }
}
