/** The intrusive binary heap of heap-inl.h as values: the complete binary tree
    of a sequence of nodes, the links that form it, and the bit path to a slot. */
module HeapShape {
  import opened Seqs

  /** uv_timer_t: its heap_node, the fields that timer_less_than compares, the repeat
      interval, the flags, and whether timer_cb is set. */
  class Node {
    var left: Node?
    var right: Node?
    var parent: Node?
    var timeout: nat
    var startId: nat
    var repeat: nat
    var active: bool
    var closing: bool
    var hasCb: bool

    /** uv_timer_init */
    constructor ()
      ensures timeout == 0 && repeat == 0 && !active && !closing && !hasCb
    {
      left, right, parent, timeout, startId := null, null, null, 0, 0;
      repeat, active, closing, hasCb := 0, false, false, false;
    }
  }

  datatype Rec = Rec(left: Node?, right: Node?, parent: Node?)
  type Mem = map<Node, Rec>

  datatype Key = Key(timeout: nat, startId: nat)

  /** timer_less_than */
  predicate Less(x: Key, y: Key) {
    if x.timeout < y.timeout then true
    else if y.timeout < x.timeout then false
    else x.startId < y.startId
  }

  lemma {:induction false} LessTrans(x: Key, y: Key, z: Key)
    ensures !Less(y, x) && !Less(z, y) ==> !Less(z, x)
  {
  }

  // ---------- slots ----------

  ghost function Slot(a: seq<Node>, i: int): Node? {
    if 0 <= i < |a| then a[i] else null
  }

  function Up(i: nat): nat
    requires i > 0
  {
    (i - 1) / 2
  }

  /** The links of the node in slot `i` of the complete binary tree `a`. */
  ghost function RecAt(a: seq<Node>, i: nat): Rec {
    Rec(Slot(a, 2 * i + 1), Slot(a, 2 * i + 2), if i == 0 then null else Slot(a, Up(i)))
  }

  ghost predicate LinkedAt(m: Mem, a: seq<Node>, i: nat)
    requires i < |a|
  {
    a[i] in m && m[a[i]] == RecAt(a, i)
  }

  /** `m` links the nodes of `a` into the complete binary tree with root `root`. */
  ghost predicate Shape(m: Mem, root: Node?, a: seq<Node>) {
    && NoDup(a) && root == Slot(a, 0)
    && forall i: nat {:trigger LinkedAt(m, a, i)} :: i < |a| ==> LinkedAt(m, a, i)
  }

  ghost function Members(a: seq<Node>): set<Node> {
    set x | x in a
  }

  /** `Shape`, and `m` has no other nodes. */
  ghost predicate Tree(m: Mem, root: Node?, a: seq<Node>) {
    Shape(m, root, a) && m.Keys == Members(a)
  }

  // ---------- heap_node_swap ----------

  ghost function WithParent(m: Mem, x: Node?, p: Node?): Mem
    requires x != null ==> x in m
  {
    if x == null then m else m[x := m[x].(parent := p)]
  }

  /** The nodes around the edge from `p` down to `c` are in `m` and all different. */
  ghost predicate CanSwap(m: Mem, p: Node, c: Node) {
    && p in m && c in m && p != c
    && (m[p].left == c || m[p].right == c) && m[p].left != m[p].right
    && var s, q, l, r := if m[p].left == c then m[p].right else m[p].left, m[p].parent, m[c].left, m[c].right;
    && (s != null ==> s in m && s != p && s != q && s != l && s != r)
    && (q != null ==> q in m && q != p && q != c && q != l && q != r)
    && (l != null ==> l in m && l != p && l != c && l != r)
    && (r != null ==> r in m && r != p && r != c)
  }

  /** The writes of heap_node_swap, in order: first `p`, `c` and the other child of `p`. */
  ghost function SwapTop(m: Mem, p: Node, c: Node): Mem
    requires CanSwap(m, p, c)
  {
    var (tp, tc) := (m[p], m[c]);
    var m1 := m[p := Rec(tc.left, tc.right, c)];
    if tp.left == c then WithParent(m1[c := Rec(p, tp.right, tp.parent)], tp.right, c)
    else WithParent(m1[c := Rec(tp.left, p, tp.parent)], tp.left, c)
  }

  /** Then the children that `p` has taken over, and the link that led to `p`. */
  ghost function SwapRest(m: Mem, p: Node, c: Node, l: Node?, r: Node?, q: Node?): Mem
    requires (l != null ==> l in m) && (r != null ==> r in m) && (q != null ==> q in m)
  {
    Redirected(WithParent(WithParent(m, l, p), r, p), q, p, c)
  }

  ghost function Redirected(m: Mem, q: Node?, p: Node, c: Node): Mem
    requires q != null ==> q in m
  {
    if q == null then m else m[q := if m[q].left == p then m[q].(left := c) else m[q].(right := c)]
  }

  ghost function SwapMem(m: Mem, p: Node, c: Node): Mem
    requires CanSwap(m, p, c)
  {
    SwapRest(SwapTop(m, p, c), p, c, m[c].left, m[c].right, m[p].parent)
  }

  lemma {:induction false} SwapTopKeys(m: Mem, p: Node, c: Node)
    requires CanSwap(m, p, c)
    ensures SwapTop(m, p, c).Keys == m.Keys
  {
  }

  lemma {:induction false} SwapMemFacts(m: Mem, p: Node, c: Node)
    requires CanSwap(m, p, c)
    ensures var m' := SwapMem(m, p, c);
      var s, q, l, r := if m[p].left == c then m[p].right else m[p].left, m[p].parent, m[c].left, m[c].right;
      && m'.Keys == m.Keys
      && m'[p] == Rec(l, r, c)
      && m'[c] == (if m[p].left == c then Rec(p, s, q) else Rec(s, p, q))
      && (s != null ==> m'[s] == m[s].(parent := c))
      && (l != null ==> m'[l] == m[l].(parent := p))
      && (r != null ==> m'[r] == m[r].(parent := p))
      && (q != null ==> m'[q] == if m[q].left == p then m[q].(left := c) else m[q].(right := c))
      && (forall x :: x in m && x != p && x != c && x != s && x != q && x != l && x != r ==> m'[x] == m[x])
  {
  }

  ghost function Swapped(a: seq<Node>, i: nat, j: nat): seq<Node>
    requires i < |a| && j < |a|
  {
    a[i := a[j]][j := a[i]]
  }

  lemma {:induction false} SlotsDiffer(a: seq<Node>, i: int, j: int)
    requires NoDup(a) && i != j
    ensures Slot(a, i) == null || Slot(a, i) != Slot(a, j)
  {
  }

  // The nodes around an edge of the tree are where the formulas say, and distinct.
  lemma {:induction false} Around(m: Mem, root: Node?, a: seq<Node>, i: nat)
    requires Shape(m, root, a) && 0 < i < |a|
    ensures CanSwap(m, a[Up(i)], a[i])
    ensures m[a[i]] == RecAt(a, i) && m[a[Up(i)]] == RecAt(a, Up(i))
    ensures m[a[Up(i)]].left == a[i] <==> i == 2 * Up(i) + 1
    ensures m[a[Up(i)]].right == a[i] <==> i == 2 * Up(i) + 2
  {
    var p := Up(i);
    assert LinkedAt(m, a, i) && LinkedAt(m, a, p);
    assert p > 0 ==> LinkedAt(m, a, Up(p));
    var s := 4 * p + 3 - i;
    assert s == 2 * p + 1 || s == 2 * p + 2;
    assert s < |a| ==> LinkedAt(m, a, s);
    assert 2 * i + 1 < |a| ==> LinkedAt(m, a, 2 * i + 1);
    assert 2 * i + 2 < |a| ==> LinkedAt(m, a, 2 * i + 2);
  }

  // The other child of the upper node.
  lemma {:induction false} SwapSibling(m: Mem, root: Node?, a: seq<Node>, i: nat, k: nat)
    requires Shape(m, root, a) && 0 < i < |a| && k < |a|
    requires k == 4 * Up(i) + 3 - i
    ensures CanSwap(m, a[Up(i)], a[i])
    ensures LinkedAt(SwapMem(m, a[Up(i)], a[i]), Swapped(a, Up(i), i), k)
  {
    Around(m, root, a, i);
    SwapMemFacts(m, a[Up(i)], a[i]);
    assert LinkedAt(m, a, k);
    hide SwapMem, CanSwap, Shape, NoDup;
  }

  // A child of the lower node.
  lemma {:induction false} SwapChild(m: Mem, root: Node?, a: seq<Node>, i: nat, k: nat)
    requires Shape(m, root, a) && 0 < i < |a| && k < |a|
    requires k == 2 * i + 1 || k == 2 * i + 2
    ensures CanSwap(m, a[Up(i)], a[i])
    ensures LinkedAt(SwapMem(m, a[Up(i)], a[i]), Swapped(a, Up(i), i), k)
  {
    Around(m, root, a, i);
    SwapMemFacts(m, a[Up(i)], a[i]);
    assert LinkedAt(m, a, k);
    hide SwapMem, CanSwap, Shape, NoDup;
  }

  // The parent of the upper node.
  lemma {:induction false} SwapParent(m: Mem, root: Node?, a: seq<Node>, i: nat, k: nat)
    requires Shape(m, root, a) && 0 < i < |a| && k < |a|
    requires Up(i) > 0 && k == Up(Up(i))
    ensures CanSwap(m, a[Up(i)], a[i])
    ensures LinkedAt(SwapMem(m, a[Up(i)], a[i]), Swapped(a, Up(i), i), k)
  {
    Around(m, root, a, i);
    SwapMemFacts(m, a[Up(i)], a[i]);
    assert LinkedAt(m, a, k);
    hide SwapMem, CanSwap, Shape, NoDup;
  }

  // A node that is not next to the edge keeps its links.
  lemma {:induction false} SwapFar(m: Mem, root: Node?, a: seq<Node>, i: nat, k: nat)
    requires Shape(m, root, a) && 0 < i < |a| && k < |a| && k != i && k != Up(i)
    requires k != 4 * Up(i) + 3 - i && k != 2 * i + 1 && k != 2 * i + 2 && (Up(i) > 0 ==> k != Up(Up(i)))
    ensures CanSwap(m, a[Up(i)], a[i])
    ensures LinkedAt(SwapMem(m, a[Up(i)], a[i]), Swapped(a, Up(i), i), k)
  {
    var p := Up(i);
    Around(m, root, a, i);
    SwapMemFacts(m, a[p], a[i]);
    assert LinkedAt(m, a, k);
    assert a[k] != a[i] && a[k] != a[p];
    SlotsDiffer(a, k, 4 * p + 3 - i);
    SlotsDiffer(a, k, 2 * i + 1);
    SlotsDiffer(a, k, 2 * i + 2);
    assert p > 0 ==> a[k] != a[Up(p)];
    hide SwapMem, CanSwap, Shape, NoDup;
  }

  lemma {:induction false} SwapOther(m: Mem, root: Node?, a: seq<Node>, i: nat, k: nat)
    requires Shape(m, root, a) && 0 < i < |a| && k < |a| && k != i && k != Up(i)
    ensures CanSwap(m, a[Up(i)], a[i])
    ensures LinkedAt(SwapMem(m, a[Up(i)], a[i]), Swapped(a, Up(i), i), k)
  {
    hide Shape, SwapMem, CanSwap, LinkedAt;
    if k == 4 * Up(i) + 3 - i {
      SwapSibling(m, root, a, i, k);
    } else if k == 2 * i + 1 || k == 2 * i + 2 {
      SwapChild(m, root, a, i, k);
    } else if Up(i) > 0 && k == Up(Up(i)) {
      SwapParent(m, root, a, i, k);
    } else {
      SwapFar(m, root, a, i, k);
    }
  }

  lemma {:induction false} SwapEnds(m: Mem, root: Node?, a: seq<Node>, i: nat)
    requires Shape(m, root, a) && 0 < i < |a|
    ensures CanSwap(m, a[Up(i)], a[i])
    ensures var a' := Swapped(a, Up(i), i); var m' := SwapMem(m, a[Up(i)], a[i]);
      LinkedAt(m', a', i) && LinkedAt(m', a', Up(i))
  {
    Around(m, root, a, i);
    SwapMemFacts(m, a[Up(i)], a[i]);
  }

  lemma {:induction false} SwappedNoDup(a: seq<Node>, i: nat, j: nat)
    requires i < j < |a| && NoDup(a)
    ensures NoDup(Swapped(a, i, j))
  {
  }

  lemma {:induction false} SwappedMembers(a: seq<Node>, i: nat, j: nat)
    requires i < j < |a|
    ensures Members(Swapped(a, i, j)) == Members(a)
  {
    var a' := Swapped(a, i, j);
    assert a'[i] == a[j] && a'[j] == a[i];
    forall x
      ensures x in a' <==> x in a
    {
      if x in a {
        var k :| 0 <= k < |a| && a[k] == x;
        assert a'[if k == i then j else if k == j then i else k] == x;
      }
    }
  }

  /** heap_node_swap exchanges exactly the two adjacent nodes of the tree. */
  lemma {:induction false} SwapShape(m: Mem, root: Node?, a: seq<Node>, i: nat)
    requires Shape(m, root, a) && 0 < i < |a|
    ensures CanSwap(m, a[Up(i)], a[i])
    ensures Shape(SwapMem(m, a[Up(i)], a[i]), if Up(i) == 0 then a[i] else root, Swapped(a, Up(i), i))
    ensures SwapMem(m, a[Up(i)], a[i]).Keys == m.Keys
  {
    Around(m, root, a, i);
    SwapMemFacts(m, a[Up(i)], a[i]);
    SwappedNoDup(a, Up(i), i);
    SwapEnds(m, root, a, i);
    var a', m' := Swapped(a, Up(i), i), SwapMem(m, a[Up(i)], a[i]);
    forall k: nat | k < |a'|
      ensures LinkedAt(m', a', k)
    {
      if k != i && k != Up(i) {
        SwapOther(m, root, a, i, k);
      }
    }
  }

  // Everything a swap of the edge above slot `i` does.
  lemma {:induction false} SwapPlan(m: Mem, root: Node?, a: seq<Node>, i: nat)
    requires Tree(m, root, a) && 0 < i < |a|
    ensures CanSwap(m, a[Up(i)], a[i])
    ensures var a' := Swapped(a, Up(i), i);
      && Tree(SwapMem(m, a[Up(i)], a[i]), if m[a[Up(i)]].parent == null then a[i] else root, a')
      && SwapMem(m, a[Up(i)], a[i]).Keys == m.Keys
      && |a'| == |a| && a'[Up(i)] == a[i] && a'[i] == a[Up(i)]
  {
    Around(m, root, a, i);
    SwapShape(m, root, a, i);
    SwappedMembers(a, Up(i), i);
    SwappedNoDup(a, Up(i), i);
  }

  // ---------- adding and removing the last slot, replacing a node ----------

  ghost function WithChild(m: Mem, p: Node?, right: bool, c: Node?): Mem
    requires p != null ==> p in m
  {
    if p == null then m else m[p := if right then m[p].(right := c) else m[p].(left := c)]
  }

  lemma {:induction false} AppendShape(m: Mem, root: Node?, a: seq<Node>, x: Node)
    requires Shape(m, root, a) && x !in a
    ensures var h := if a == [] then null else a[Up(|a|)];
      && (h != null ==> h in m && h != x)
      && Shape(WithChild(m[x := Rec(null, null, h)], h, |a| % 2 == 0, x), if a == [] then x else root, a + [x])
  {
    var n := |a|;
    var h := if n == 0 then null else a[Up(n)];
    assert n > 0 ==> LinkedAt(m, a, Up(n));
    var m' := WithChild(m[x := Rec(null, null, h)], h, n % 2 == 0, x);
    var a' := a + [x];
    forall k: nat | k < |a'|
      ensures LinkedAt(m', a', k)
    {
      if k < n {
        assert LinkedAt(m, a, k);
        assert n > 0 && k != Up(n) ==> a[k] != a[Up(n)];
      }
    }
  }

  // Everything that linking a new last node does.
  lemma {:induction false} AppendPlan(m: Mem, root: Node?, a: seq<Node>, x: Node)
    requires Tree(m, root, a) && x !in m
    ensures var h := if a == [] then null else a[Up(|a|)];
      && (h != null ==> h in m && h != x)
      && var m' := WithChild(m[x := Rec(null, null, h)], h, |a| % 2 == 0, x);
      && Tree(m', if h == null then x else root, a + [x]) && m'.Keys == m.Keys + {x}
      && (h == null ==> m' == WithChild(m[x := Rec(null, null, h)], h, !(|a| % 2 == 0), x))
  {
    assert forall y :: y in a ==> y in Members(a);
    AppendShape(m, root, a, x);
  }

  lemma {:induction false} DropLastShape(m: Mem, root: Node?, a: seq<Node>)
    requires Shape(m, root, a) && a != []
    ensures var n := |a| - 1; var h := if n == 0 then null else a[Up(n)];
      && (h != null ==> h in m && h != a[n])
      && Shape(WithChild(m, h, n % 2 == 0, null) - {a[n]}, if n == 0 then null else root, a[..n])
  {
    var n := |a| - 1;
    var h := if n == 0 then null else a[Up(n)];
    assert n > 0 ==> LinkedAt(m, a, Up(n));
    var m', a' := WithChild(m, h, n % 2 == 0, null) - {a[n]}, a[..n];
    forall k: nat | k < n
      ensures LinkedAt(m', a', k)
    {
      assert LinkedAt(m, a, k);
      assert k != Up(n) ==> a[k] != a[Up(n)];
    }
  }

  /** The node to which `*child` leads, for the link to slot `v` in its parent `h`. */
  ghost function Linkee(m: Mem, root: Node?, h: Node?, right: bool): Node?
    requires h != null ==> h in m
  {
    if h == null then root else if right then m[h].right else m[h].left
  }

  // Everything that clearing the link to the last node does.
  lemma {:induction false} DropPlan(m: Mem, root: Node?, a: seq<Node>, h: Node?, right: bool)
    requires Tree(m, root, a) && a != []
    requires h == (if |a| == 1 then null else a[Up(|a| - 1)]) && right == (|a| > 1 && |a| % 2 == 1)
    ensures var x := a[|a| - 1];
      && (h != null ==> h in m && root != x && root != null) && x in m
      && Linkee(m, root, h, right) == x
      && var m' := WithChild(m, h, right, null) - {x};
      && Tree(m', if h == null then null else root, a[..|a| - 1]) && m'.Keys == m.Keys - {x}
  {
    var n := |a| - 1;
    DropLastShape(m, root, a);
    assert LinkedAt(m, a, n) && (n > 0 ==> LinkedAt(m, a, Up(n)));
    assert right == (n > 0 && n % 2 == 0);
    DroppedMembers(a);
  }

  lemma {:induction false} DroppedMembers(a: seq<Node>)
    requires NoDup(a) && a != []
    ensures Members(a[..|a| - 1]) == Members(a) - {a[|a| - 1]}
  {
    assert a == a[..|a| - 1] + [a[|a| - 1]];
  }

  /** The node in slot `i` and its neighbours are distinct nodes of `m`. */
  ghost predicate CanReplace(m: Mem, x: Node, y: Node) {
    && x in m && y !in m
    && var r := m[x];
    && (r.left != null ==> r.left in m && r.left != x && r.left != r.right && r.left != r.parent)
    && (r.right != null ==> r.right in m && r.right != x && r.right != r.parent)
    && (r.parent != null ==> r.parent in m && r.parent != x)
  }

  /** The writes with which heap_remove puts `y` in the place of `x`. */
  ghost function ReplaceMem(m: Mem, x: Node, y: Node): Mem
    requires CanReplace(m, x, y)
  {
    var r := m[x];
    var m1 := m[y := r];
    var m2 := WithParent(m1, r.left, y);
    var m3 := WithParent(m2, r.right, y);
    Redirected(m3, r.parent, x, y) - {x}
  }

  lemma {:induction false} ReplaceMemFacts(m: Mem, x: Node, y: Node)
    requires CanReplace(m, x, y)
    ensures var m', r := ReplaceMem(m, x, y), m[x];
      && m'.Keys == m.Keys - {x} + {y} && m'[y] == r
      && (r.left != null ==> m'[r.left] == m[r.left].(parent := y))
      && (r.right != null ==> m'[r.right] == m[r.right].(parent := y))
      && (r.parent != null ==>
            m'[r.parent] == if m[r.parent].left == x then m[r.parent].(left := y) else m[r.parent].(right := y))
      && (forall k :: k in m && k != x && k != r.left && k != r.right && k != r.parent ==> m'[k] == m[k])
  {
  }

  lemma {:induction false} ReplaceAround(m: Mem, root: Node?, a: seq<Node>, i: nat, y: Node)
    requires Shape(m, root, a) && i < |a| && y !in m
    ensures CanReplace(m, a[i], y) && m[a[i]] == RecAt(a, i)
  {
    assert LinkedAt(m, a, i);
    assert i > 0 ==> LinkedAt(m, a, Up(i));
    assert 2 * i + 1 < |a| ==> LinkedAt(m, a, 2 * i + 1);
    assert 2 * i + 2 < |a| ==> LinkedAt(m, a, 2 * i + 2);
  }

  lemma {:induction false} ReplaceSlot(m: Mem, root: Node?, a: seq<Node>, i: nat, y: Node, k: nat)
    requires Shape(m, root, a) && i < |a| && y !in m && k < |a|
    ensures CanReplace(m, a[i], y) && LinkedAt(ReplaceMem(m, a[i], y), a[i := y], k)
  {
    ReplaceAround(m, root, a, i, y);
    ReplaceMemFacts(m, a[i], y);
    assert LinkedAt(m, a, k);
    assert k != i ==> a[k] != a[i];
    assert k != 2 * i + 1 ==> a[k] != Slot(a, 2 * i + 1);
    assert k != 2 * i + 2 ==> a[k] != Slot(a, 2 * i + 2);
    assert i > 0 && k != Up(i) ==> a[k] != a[Up(i)];
    hide ReplaceMem, CanReplace, Shape, NoDup;
  }

  lemma {:induction false} ReplaceShape(m: Mem, root: Node?, a: seq<Node>, i: nat, y: Node)
    requires Shape(m, root, a) && i < |a| && y !in m
    ensures CanReplace(m, a[i], y)
    ensures Shape(ReplaceMem(m, a[i], y), if i == 0 then y else root, a[i := y])
  {
    ReplaceAround(m, root, a, i, y);
    var a', m' := a[i := y], ReplaceMem(m, a[i], y);
    assert y !in a by {
      forall k: nat | k < |a|
        ensures a[k] != y
      {
        assert LinkedAt(m, a, k);
      }
    }
    forall k: nat | k < |a'|
      ensures LinkedAt(m', a', k)
    {
      ReplaceSlot(m, root, a, i, y, k);
    }
  }

  ghost function Replaced(a: seq<Node>, i: nat): seq<Node>
    requires i + 1 < |a|
  {
    a[..|a| - 1][i := a[|a| - 1]]
  }

  // Everything that putting a node that has left the tree into slot `i` does.
  lemma {:induction false} ReplacePlan(m: Mem, root: Node?, a: seq<Node>, i: nat, y: Node)
    requires Tree(m, root, a) && i < |a| && y !in m
    ensures CanReplace(m, a[i], y)
    ensures var m' := ReplaceMem(m, a[i], y);
      && Tree(m', if m[a[i]].parent == null then y else root, a[i := y]) && m'.Keys == m.Keys - {a[i]} + {y}
  {
    ReplaceAround(m, root, a, i, y);
    ReplaceShape(m, root, a, i, y);
    ReplaceMemFacts(m, a[i], y);
    ReplacedMembers(a, i, y);
    hide ReplaceMem, CanReplace;
    assert LinkedAt(m, a, i) && (i > 0 ==> LinkedAt(m, a, Up(i)));
  }

  lemma {:induction false} ReplacedMembers(a: seq<Node>, i: nat, y: Node)
    requires i < |a| && NoDup(a) && y !in a
    ensures Members(a[i := y]) == Members(a) - {a[i]} + {y}
  {
    var a' := a[i := y];
    forall x
      ensures x in a' <==> (x in a && x != a[i]) || x == y
    {
      if x in a && x != a[i] {
        var k :| 0 <= k < |a| && a[k] == x;
        assert a'[k] == x;
      }
      assert a'[i] == y;
    }
  }

  lemma {:induction false} ReplacedSlot(a: seq<Node>, i: nat)
    requires i + 1 < |a|
    ensures |Replaced(a, i)| == |a| - 1 && Replaced(a, i)[i] == a[|a| - 1]
  {
  }

  // ---------- the heap order ----------

  type Keys = map<Node, Key>

  ghost function KeyAt(keys: Keys, a: seq<Node>, i: int): Key {
    if 0 <= i < |a| && a[i] in keys then keys[a[i]] else Key(0, 0)
  }

  /** The node in slot `i` is not less than its parent. */
  ghost predicate Fits(keys: Keys, a: seq<Node>, i: nat) {
    i == 0 || !Less(KeyAt(keys, a, i), KeyAt(keys, a, Up(i)))
  }

  ghost predicate Ordered(keys: Keys, a: seq<Node>) {
    forall i: nat {:trigger Fits(keys, a, i)} :: i < |a| ==> Fits(keys, a, i)
  }

  /** The node in slot `i` is not less than its grandparent. */
  ghost predicate FitsOver(keys: Keys, a: seq<Node>, i: nat) {
    i == 0 || Up(i) == 0 || !Less(KeyAt(keys, a, i), KeyAt(keys, a, Up(Up(i))))
  }

  /** Ordered, except that the node in slot `i` may be less than its parent. */
  ghost predicate MayRise(keys: Keys, a: seq<Node>, i: nat) {
    && (forall j: nat {:trigger Fits(keys, a, j)} :: j < |a| && j != i ==> Fits(keys, a, j))
    && (forall j: nat {:trigger FitsOver(keys, a, j)} :: j < |a| && j > 0 && Up(j) == i ==> FitsOver(keys, a, j))
  }

  /** Ordered, except around the node in slot `i`, which may be on the wrong level either way. */
  ghost predicate MayMove(keys: Keys, a: seq<Node>, i: nat) {
    && (forall j: nat {:trigger Fits(keys, a, j)} :: j < |a| && j != i && (j == 0 || Up(j) != i) ==> Fits(keys, a, j))
    && (forall j: nat {:trigger FitsOver(keys, a, j)} :: j < |a| && j > 0 && Up(j) == i ==> FitsOver(keys, a, j))
  }

  lemma {:induction false} AppendMayRise(keys: Keys, keys': Keys, a: seq<Node>, x: Node, s: set<Node>)
    requires Ordered(keys, a) && x !in s && s == Members(a)
    requires forall y :: y in s ==> y in keys && y in keys' && keys'[y] == keys[y]
    ensures MayRise(keys', a + [x], |a|)
  {
    var a' := a + [x];
    forall j: nat | j < |a'| && j != |a|
      ensures Fits(keys', a', j)
    {
      assert Fits(keys, a, j);
      assert a[j] in s && (j > 0 ==> a[Up(j)] in s);
    }
  }

  // The last node, put into slot `i`, may belong elsewhere; every other node is in order.
  lemma {:induction false} ReplacedMayMove(keys: Keys, a: seq<Node>, i: nat)
    requires Ordered(keys, a) && i + 1 < |a|
    ensures MayMove(keys, Replaced(a, i), i)
  {
    var a' := Replaced(a, i);
    forall j: nat | j < |a'| && j != i && (j == 0 || Up(j) != i)
      ensures Fits(keys, a', j)
    {
      assert Fits(keys, a, j);
    }
    forall j: nat | j < |a'| && j > 0 && Up(j) == i
      ensures FitsOver(keys, a', j)
    {
      assert Fits(keys, a, j) && Fits(keys, a, i);
    }
  }

  lemma {:induction false} DroppedOrdered(keys: Keys, a: seq<Node>)
    requires Ordered(keys, a) && a != []
    ensures Ordered(keys, a[..|a| - 1])
  {
    var b := a[..|a| - 1];
    forall j: nat | j < |b|
      ensures Fits(keys, b, j)
    {
      assert Fits(keys, a, j);
    }
  }

  // Swapping a node that is less than its parent upwards moves the exception up.
  lemma {:induction false} RiseStep(keys: Keys, a: seq<Node>, i: nat)
    requires MayRise(keys, a, i) && 0 < i < |a| && Less(KeyAt(keys, a, i), KeyAt(keys, a, Up(i)))
    ensures MayRise(keys, Swapped(a, Up(i), i), Up(i))
  {
    var p, a' := Up(i), Swapped(a, Up(i), i);
    assert Fits(keys, a, p);
    forall j: nat | j < |a'| && j != p
      ensures Fits(keys, a', j)
    {
      assert j != i ==> Fits(keys, a, j);
      assert FitsOver(keys, a, j) || Up(j) != i;
    }
    forall j: nat | j < |a'| && j > 0 && Up(j) == p
      ensures FitsOver(keys, a', j)
    {
      assert j != i ==> Fits(keys, a, j);
    }
  }

  // Swapping a node with its lesser child moves the exception down.
  lemma {:induction false} SinkStep(keys: Keys, a: seq<Node>, i: nat, c: nat)
    requires MayMove(keys, a, i) && i < c < |a| && Up(c) == i
    requires Less(KeyAt(keys, a, c), KeyAt(keys, a, i))
    requires var s := 4 * i + 3 - c; s < |a| ==> !Less(KeyAt(keys, a, s), KeyAt(keys, a, c))
    ensures MayMove(keys, Swapped(a, i, c), c)
  {
    var a' := Swapped(a, i, c);
    assert FitsOver(keys, a, c);
    forall j: nat | j < |a'| && j != c && (j == 0 || Up(j) != c)
      ensures Fits(keys, a', j)
    {
      assert j != i && (j == 0 || Up(j) != i) ==> Fits(keys, a, j);
    }
    forall j: nat | j < |a'| && j > 0 && Up(j) == c
      ensures FitsOver(keys, a', j)
    {
      assert Fits(keys, a, j);
    }
  }

  // A node that is not greater than its children can only be too low.
  lemma {:induction false} SinkEnd(keys: Keys, a: seq<Node>, i: nat)
    requires MayMove(keys, a, i)
    requires 2 * i + 1 < |a| ==> !Less(KeyAt(keys, a, 2 * i + 1), KeyAt(keys, a, i))
    requires 2 * i + 2 < |a| ==> !Less(KeyAt(keys, a, 2 * i + 2), KeyAt(keys, a, i))
    ensures MayRise(keys, a, i)
  {
  }

  lemma {:induction false} RiseEnd(keys: Keys, a: seq<Node>, i: nat)
    requires MayRise(keys, a, i) && Fits(keys, a, i)
    ensures Ordered(keys, a)
  {
  }

  /** No node is less than the root. */
  lemma {:induction false} RootIsLeast(keys: Keys, a: seq<Node>, i: nat)
    requires Ordered(keys, a) && i < |a|
    ensures !Less(KeyAt(keys, a, i), KeyAt(keys, a, 0))
  {
    if i > 0 {
      assert Fits(keys, a, i);
      RootIsLeast(keys, a, Up(i));
      LessTrans(KeyAt(keys, a, 0), KeyAt(keys, a, Up(i)), KeyAt(keys, a, i));
    }
  }

  // ---------- the bit path ----------

  /** The turns from slot 1 to slot `v`, counting from 1; true is right. */
  ghost function Turns(v: nat): seq<bool>
    requires v > 0
  {
    if v == 1 then [] else Turns(v / 2) + [v % 2 == 1]
  }

  /** The number whose bits, lowest first, are `t`. */
  function Pack(t: seq<bool>): nat {
    if t == [] then 0 else (if t[0] then 1 else 0) + 2 * Pack(t[1..])
  }

  lemma {:induction false} PackStep(t: seq<bool>)
    requires t != []
    ensures Pack(t) % 2 == (if t[0] then 1 else 0) && Pack(t) / 2 == Pack(t[1..])
  {
  }

  /** The first loop of heap_insert and heap_remove: reverse the bits of `nelts` below its leading one. */
  method ComputePath(nelts: nat) returns (path: nat, k: nat)
    requires nelts > 0
    ensures path == Pack(Turns(nelts)) && k == |Turns(nelts)|
  {
    path, k := 0, 0;
    var n := nelts;
    ghost var t: seq<bool> := [];
    assert Turns(n) + t == Turns(n);
    while n >= 2
      invariant n >= 1 && Turns(nelts) == Turns(n) + t && path == Pack(t) && k == |t|
    {
      path := 2 * path + n % 2;
      assert Turns(n) + t == Turns(n / 2) + ([n % 2 == 1] + t);
      assert ([n % 2 == 1] + t)[1..] == t;
      t := [n % 2 == 1] + t;
      k := k + 1;
      n := n / 2;
    }
    assert Turns(n) + t == t;
  }

  lemma {:induction false} TurnsInjective(u: nat, v: nat)
    requires u > 0 && v > 0 && Turns(u) == Turns(v)
    ensures u == v
  {
    if u > 1 && v > 1 {
      var a, b := Turns(u), Turns(v);
      assert a[|a| - 1] == (u % 2 == 1) && b[|b| - 1] == (v % 2 == 1);
      assert a[..|a| - 1] == Turns(u / 2) && b[..|b| - 1] == Turns(v / 2);
      TurnsInjective(u / 2, v / 2);
    }
  }

  // A slot on the way to slot `v`, with turns still to take, lies above it.
  lemma {:induction false} TurnsAbove(u: nat, v: nat, t: seq<bool>)
    requires u > 0 && v > 0 && t != [] && Turns(v) == Turns(u) + t
    ensures u <= v / 2
    decreases t
  {
    var n := |t| - 1;
    assert Turns(v)[..|Turns(v)| - 1] == Turns(v / 2);
    assert (Turns(u) + t)[..|Turns(u) + t| - 1] == Turns(u) + t[..n];
    if n == 0 {
      assert Turns(u) + t[..0] == Turns(u);
      TurnsInjective(u, v / 2);
    } else {
      TurnsAbove(u, v / 2, t[..n]);
    }
  }

  lemma {:induction false} TurnsDown(u: nat, b: bool, t: seq<bool>)
    requires u > 0
    ensures var u' := 2 * u + if b then 1 else 0; Turns(u') + t == Turns(u) + ([b] + t)
  {
    var u' := 2 * u + if b then 1 else 0;
    assert u' / 2 == u && (u' % 2 == 1) == b;
    assert (Turns(u) + [b]) + t == Turns(u) + ([b] + t);
  }

  // One turn of the walk towards slot `v`.
  lemma {:induction false} TurnTaken(u: nat, v: nat, t: seq<bool>)
    requires u > 0 && v > 0 && t != [] && Turns(v) == Turns(u) + t
    ensures u <= v / 2
    ensures var u' := 2 * u + if t[0] then 1 else 0; Turns(v) == Turns(u') + t[1..]
    ensures (Pack(t) % 2 == 1) == t[0] && Pack(t) / 2 == Pack(t[1..])
  {
    PackStep(t);
    TurnsAbove(u, v, t);
    assert t == [t[0]] + t[1..];
    TurnsDown(u, t[0], t[1..]);
  }

  lemma {:induction false} TurnsStart(v: nat)
    requires v > 0
    ensures Turns(v) == Turns(1) + Turns(v)
  {
    assert Turns(1) + Turns(v) == Turns(v);
  }

  lemma {:induction false} TurnsEnd(u: nat, v: nat, t: seq<bool>)
    requires u > 0 && v > 0 && t == [] && Turns(v) == Turns(u) + t
    ensures u == v
  {
    assert Turns(u) + t == Turns(u);
    TurnsInjective(u, v);
  }
}
