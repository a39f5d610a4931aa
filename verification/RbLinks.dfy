/** When the link fields of a set of nodes form a given tree, and what link
    updates do to that tree.  The fields are a value here, a map from nodes to
    field contents, so that no lemma has to reason about the heap. */
module RbLinks {
  import opened RbShape

  /** What the four link fields of one node hold. */
  datatype Rec = Rec(left: Node?, right: Node?, parent: Node?, red: bool)

  type Mem = map<Node, Rec>

  /** In `m`, the nodes of `t` are linked to each other as `t` says, below `parent`. */
  ghost predicate Linked(m: Mem, t: Tree, parent: Node?) {
    t.Br? ==>
      && t.n in m && m[t.n] == Rec(Root(t.l), Root(t.r), parent, t.red)
      && Linked(m, t.l, t.n) && Linked(m, t.r, t.n)
  }

  /** In `m`, the nodes of `c` are linked as `c` says, with `child` in the hole. */
  ghost predicate CLinked(m: Mem, root: Node?, c: Ctx, child: Node?) {
    match c
    case Top => root == child
    case InL(up, n, red, r) =>
      && n in m && m[n] == Rec(child, Root(r), CNode(up), red)
      && Linked(m, r, n) && CLinked(m, root, up, n)
    case InR(up, l, n, red) =>
      && n in m && m[n] == Rec(Root(l), child, CNode(up), red)
      && Linked(m, l, n) && CLinked(m, root, up, n)
  }

  /** `m` holds the tree `t` in context `c`, all nodes distinct. */
  ghost predicate At(m: Mem, root: Node?, c: Ctx, t: Tree) {
    && Disj(t) && CDisj(c) && Nodes(t) !! CNodes(c)
    && Linked(m, t, CNode(c)) && CLinked(m, root, c, Root(t))
  }

  // Moving the cursor changes nothing in the heap.
  lemma {:induction false} AtPlug(m: Mem, root: Node?, c: Ctx, t: Tree)
    ensures At(m, root, c, t) <==> At(m, root, Top, Plug(c, t))
    ensures CNodes(c) + Nodes(t) == Nodes(Plug(c, t))
    decreases c
  {
    match c
    case Top =>
    case InL(up, n, red, r) =>
      AtPlug(m, root, up, Br(t, n, red, r));
    case InR(up, l, n, red) =>
      AtPlug(m, root, up, Br(l, n, red, t));
  }

  lemma {:induction false} FrameT(m: Mem, m': Mem, t: Tree, parent: Node?)
    requires Linked(m, t, parent)
    requires forall x :: x in Nodes(t) ==> x in m && x in m' && m'[x] == m[x]
    ensures Linked(m', t, parent)
  {
    if t.Br? {
      FrameT(m, m', t.l, t.n);
      FrameT(m, m', t.r, t.n);
    }
  }

  lemma {:induction false} FrameC(m: Mem, m': Mem, root: Node?, c: Ctx, child: Node?)
    requires CLinked(m, root, c, child)
    requires forall x :: x in CNodes(c) ==> x in m && x in m' && m'[x] == m[x]
    ensures CLinked(m', root, c, child)
  {
    match c
    case Top =>
    case InL(up, n, red, r) => FrameT(m, m', r, n); FrameC(m, m', root, up, n);
    case InR(up, l, n, red) => FrameT(m, m', l, n); FrameC(m, m', root, up, n);
  }

  /** `m'` is `m` with the parent link of the root of `t` redirected. */
  lemma {:induction false} AdoptedT(m: Mem, m': Mem, t: Tree, was: Node?, now: Node?)
    requires Linked(m, t, was) && Disj(t)
    requires t.Br? ==> t.n in m' && m'[t.n] == m[t.n].(parent := now)
    requires forall x :: x in Nodes(t) && x != Root(t) ==> x in m && x in m' && m'[x] == m[x]
    ensures Linked(m', t, now)
  {
    if t.Br? {
      FrameT(m, m', t.l, t.n);
      FrameT(m, m', t.r, t.n);
    }
  }

  /** The link into the hole of `c`, and nothing else of `c`, is redirected. */
  ghost predicate Relinked(m: Mem, m': Mem, root: Node?, root': Node?, c: Ctx, child: Node?) {
    if c.Top? then root' == child
    else
      && root' == root && c.n in m && c.n in m'
      && m'[c.n] == if c.InL? then m[c.n].(left := child) else m[c.n].(right := child)
  }

  lemma {:induction false} RelinkedC(m: Mem, m': Mem, root: Node?, root': Node?, c: Ctx, was: Node?, child: Node?)
    requires CLinked(m, root, c, was) && CDisj(c)
    requires Relinked(m, m', root, root', c, child)
    requires forall x :: x in CNodes(c) && x != CNode(c) ==> x in m && x in m' && m'[x] == m[x]
    ensures CLinked(m', root', c, child)
  {
    match c
    case Top =>
    case InL(up, n, red, r) => FrameT(m, m', r, n); FrameC(m, m', root, up, n);
    case InR(up, l, n, red) => FrameT(m, m', l, n); FrameC(m, m', root, up, n);
  }

  ghost function RotL(t: Tree): Tree
    requires t.Br? && t.r.Br?
  {
    Br(Br(t.l, t.n, t.red, t.r.l), t.r.n, t.r.red, t.r.r)
  }

  ghost function RotR(t: Tree): Tree
    requires t.Br? && t.l.Br?
  {
    Br(t.l.l, t.l.n, t.l.red, Br(t.l.r, t.n, t.red, t.r))
  }

  /** The trees and nodes that a rotation rearranges are pairwise disjoint. */
  ghost predicate Apart(a: Tree, x: Node, b: Tree, y: Node, d: Tree, rest: set<Node>) {
    && x != y && x !in rest && y !in rest
    && x !in Nodes(a) && x !in Nodes(b) && x !in Nodes(d)
    && y !in Nodes(a) && y !in Nodes(b) && y !in Nodes(d)
    && Nodes(a) !! Nodes(b) && Nodes(a) !! Nodes(d) && Nodes(b) !! Nodes(d)
    && rest !! Nodes(a) && rest !! Nodes(b) && rest !! Nodes(d)
    && Disj(a) && Disj(b) && Disj(d)
  }

  lemma {:induction false} LeftLeaning(a: Tree, x: Node, xr: bool, b: Tree, y: Node, yr: bool, d: Tree, rest: set<Node>)
    ensures var t := Br(Br(a, x, xr, b), y, yr, d);
      && Nodes(t) == Nodes(a) + {x} + Nodes(b) + {y} + Nodes(d)
      && (Disj(t) && Nodes(t) !! rest <==> Apart(a, x, b, y, d, rest))
  {
    assert Nodes(Br(a, x, xr, b)) == Nodes(a) + {x} + Nodes(b);
  }

  lemma {:induction false} RightLeaning(a: Tree, x: Node, xr: bool, b: Tree, y: Node, yr: bool, d: Tree, rest: set<Node>)
    ensures var t := Br(a, x, xr, Br(b, y, yr, d));
      && Nodes(t) == Nodes(a) + {x} + Nodes(b) + {y} + Nodes(d)
      && (Disj(t) && Nodes(t) !! rest <==> Apart(a, x, b, y, d, rest))
  {
    assert Nodes(Br(b, y, yr, d)) == Nodes(b) + {y} + Nodes(d);
  }

  lemma {:induction false} LinkedLeft(m: Mem, a: Tree, x: Node, xr: bool, b: Tree, y: Node, yr: bool, d: Tree, parent: Node?)
    ensures Linked(m, Br(Br(a, x, xr, b), y, yr, d), parent) <==>
      && x in m && m[x] == Rec(Root(a), Root(b), y, xr) && y in m && m[y] == Rec(x, Root(d), parent, yr)
      && Linked(m, a, x) && Linked(m, b, x) && Linked(m, d, y)
  {
    assert Linked(m, Br(a, x, xr, b), y) <==>
      x in m && m[x] == Rec(Root(a), Root(b), y, xr) && Linked(m, a, x) && Linked(m, b, x);
  }

  lemma {:induction false} LinkedRight(m: Mem, a: Tree, x: Node, xr: bool, b: Tree, y: Node, yr: bool, d: Tree, parent: Node?)
    ensures Linked(m, Br(a, x, xr, Br(b, y, yr, d)), parent) <==>
      && x in m && m[x] == Rec(Root(a), y, parent, xr) && y in m && m[y] == Rec(Root(b), Root(d), x, yr)
      && Linked(m, a, x) && Linked(m, b, y) && Linked(m, d, y)
  {
    assert Linked(m, Br(b, y, yr, d), x) <==>
      y in m && m[y] == Rec(Root(b), Root(d), x, yr) && Linked(m, b, y) && Linked(m, d, y);
  }

  // A subtree that a rotation of `p` below `q` does not touch.
  lemma {:induction false} RotFrameT(m: Mem, m': Mem, root: Node?, root': Node?, c: Ctx, p: Node, q: Node, b: Tree,
                  t: Tree, parent: Node?)
    requires Linked(m, t, parent) && Nodes(t) <= m.Keys
    requires p !in Nodes(t) && q !in Nodes(t) && Nodes(b) !! Nodes(t) && CNodes(c) !! Nodes(t)
    requires p in m && m[p].parent == CNode(c)
    requires Rotated(m, m', root, root', p, q, Root(b))
    ensures Linked(m', t, parent)
  {
    assert Root(b) != null ==> Root(b) in Nodes(b);
    assert CNode(c) != null ==> CNode(c) in CNodes(c);
    FrameT(m, m', t, parent);
  }

  // The middle subtree, which moves from `q` to `p`.
  lemma {:induction false} RotMiddle(m: Mem, m': Mem, root: Node?, root': Node?, c: Ctx, p: Node, q: Node, b: Tree)
    requires Linked(m, b, q) && Nodes(b) <= m.Keys && Disj(b)
    requires p !in Nodes(b) && q !in Nodes(b) && CNodes(c) !! Nodes(b)
    requires p in m && m[p].parent == CNode(c)
    requires Rotated(m, m', root, root', p, q, Root(b))
    ensures Linked(m', b, p)
  {
    assert CNode(c) != null ==> CNode(c) in CNodes(c);
    AdoptedT(m, m', b, q, p);
  }

  lemma {:induction false} RotFrameC(m: Mem, m': Mem, root: Node?, root': Node?, c: Ctx, p: Node, q: Node, b: Tree)
    requires p !in CNodes(c) && q !in CNodes(c) && CNodes(c) !! Nodes(b) && CDisj(c)
    requires CLinked(m, root, c, p)
    requires p in m && m[p].parent == CNode(c)
    requires Rotated(m, m', root, root', p, q, Root(b))
    requires CNodes(c) <= m.Keys
    ensures CLinked(m', root', c, q)
  {
    assert Root(b) != null ==> Root(b) in Nodes(b);
    assert c.InR? && c.l.Br? ==> c.l.n in CNodes(c);
    RelinkedC(m, m', root, root', c, p, q);
  }

  lemma {:induction false} RotLLinked(m: Mem, m': Mem, root: Node?, root': Node?, c: Ctx,
                   a: Tree, x: Node, xr: bool, b: Tree, y: Node, yr: bool, d: Tree)
    requires At(m, root, c, Br(a, x, xr, Br(b, y, yr, d)))
    requires x in m' && m'[x] == Rec(Root(a), Root(b), y, xr)
    requires y in m' && m'[y] == Rec(x, Root(d), CNode(c), yr)
    requires Rotated(m, m', root, root', x, y, Root(b))
    requires Nodes(Br(a, x, xr, Br(b, y, yr, d))) + CNodes(c) <= m.Keys
    ensures At(m', root', c, Br(Br(a, x, xr, b), y, yr, d))
    ensures Nodes(Br(Br(a, x, xr, b), y, yr, d)) == Nodes(Br(a, x, xr, Br(b, y, yr, d)))
  {
    RightLeaning(a, x, xr, b, y, yr, d, CNodes(c));
    LeftLeaning(a, x, xr, b, y, yr, d, CNodes(c));
    LinkedRight(m, a, x, xr, b, y, yr, d, CNode(c));
    RotFrameT(m, m', root, root', c, x, y, b, a, x);
    RotMiddle(m, m', root, root', c, x, y, b);
    RotFrameT(m, m', root, root', c, x, y, b, d, y);
    RotFrameC(m, m', root, root', c, x, y, b);
    LinkedLeft(m', a, x, xr, b, y, yr, d, CNode(c));
  }

  lemma {:induction false} RotRLinked(m: Mem, m': Mem, root: Node?, root': Node?, c: Ctx,
                   a: Tree, x: Node, xr: bool, b: Tree, y: Node, yr: bool, d: Tree)
    requires At(m, root, c, Br(Br(a, x, xr, b), y, yr, d))
    requires y in m' && m'[y] == Rec(Root(b), Root(d), x, yr)
    requires x in m' && m'[x] == Rec(Root(a), y, CNode(c), xr)
    requires Rotated(m, m', root, root', y, x, Root(b))
    requires Nodes(Br(Br(a, x, xr, b), y, yr, d)) + CNodes(c) <= m.Keys
    ensures At(m', root', c, Br(a, x, xr, Br(b, y, yr, d)))
    ensures Nodes(Br(Br(a, x, xr, b), y, yr, d)) == Nodes(Br(a, x, xr, Br(b, y, yr, d)))
  {
    RightLeaning(a, x, xr, b, y, yr, d, CNodes(c));
    LeftLeaning(a, x, xr, b, y, yr, d, CNodes(c));
    LinkedLeft(m, a, x, xr, b, y, yr, d, CNode(c));
    RotFrameT(m, m', root, root', c, y, x, b, a, x);
    RotMiddle(m, m', root, root', c, y, x, b);
    RotFrameT(m, m', root, root', c, y, x, b, d, y);
    RotFrameC(m, m', root, root', c, y, x, b);
    LinkedRight(m', a, x, xr, b, y, yr, d, CNode(c));
  }

  /** `x`, its child `y`, the inner child of `y` and the parent of `x` are distinct nodes of `m`. */
  ghost predicate CanRotate(m: Mem, x: Node, y: Node?, left: bool) {
    && x in m && y != null && y in m && x != y
    && var b := if left then m[y].left else m[y].right;
    var p := m[x].parent;
    && p != x && p != y && (p != null ==> p in m)
    && b != x && b != y && (b != null ==> b in m && b != p)
  }

  /** The effect of rotating `x` below `y` on the other nodes: the inner child
      `b` of `y` moves to `x`, the parent of `x` adopts `y`. */
  ghost predicate Rotated(m: Mem, m': Mem, root: Node?, root': Node?, x: Node, y: Node, b: Node?) {
    && x in m && y in m && m'.Keys == m.Keys
    && var p := m[x].parent;
    && (b != null ==> b in m && m'[b] == m[b].(parent := x))
    && Redirected(m, m', root, root', p, x, y)
    && (forall k :: k in m && k != x && k != y && k != b && k != p ==> m'[k] == m[k])
  }

  ghost predicate Redirected(m: Mem, m': Mem, root: Node?, root': Node?, p: Node?, x: Node, y: Node?) {
    if p == null then root' == y
    else
      && root' == root && p in m && p in m'
      && m'[p] == if m[p].left == x then m[p].(left := y) else m[p].(right := y)
  }

  /** `child->parent = parent` when there is a child. */
  ghost function WithParent(m: Mem, child: Node?, parent: Node?): Mem
    requires child != null ==> child in m
  {
    if child == null then m else m[child := m[child].(parent := parent)]
  }

  /** The link of `parent`, if any, that leads to `x` leads to `y` instead. */
  ghost function WithChild(m: Mem, parent: Node?, x: Node, y: Node?): Mem
    requires parent != null ==> parent in m
  {
    if parent == null then m
    else m[parent := if m[parent].left == x then m[parent].(left := y) else m[parent].(right := y)]
  }

  /** The writes of RB_ROTATE_LEFT, in order: `x` sinks below its right child. */
  ghost function RotLMem(m: Mem, x: Node): Mem
    requires CanRotate(m, x, if x in m then m[x].right else null, true)
  {
    var y := m[x].right;
    var m1 := m[x := m[x].(right := m[y].left)];
    var m2 := WithParent(m1, m[y].left, x);
    var m3 := m2[y := m2[y].(parent := m[x].parent)];
    var m4 := WithChild(m3, m[x].parent, x, y);
    var m5 := m4[y := m4[y].(left := x)];
    m5[x := m5[x].(parent := y)]
  }

  lemma {:induction false} RotLMemRotated(m: Mem, m': Mem, root: Node?, root': Node?, x: Node, y: Node)
    requires CanRotate(m, x, y, true) && m[x].right == y && m' == RotLMem(m, x)
    requires root' == if m[x].parent == null then y else root
    ensures Rotated(m, m', root, root', x, y, m[y].left)
    ensures m'[x] == Rec(m[x].left, m[y].left, y, m[x].red)
    ensures m'[y] == Rec(x, m[y].right, m[x].parent, m[y].red)
  {
  }

  ghost function RotRMem(m: Mem, x: Node): Mem
    requires CanRotate(m, x, if x in m then m[x].left else null, false)
  {
    var y := m[x].left;
    var m1 := m[x := m[x].(left := m[y].right)];
    var m2 := WithParent(m1, m[y].right, x);
    var m3 := m2[y := m2[y].(parent := m[x].parent)];
    var m4 := WithChild(m3, m[x].parent, x, y);
    var m5 := m4[y := m4[y].(right := x)];
    m5[x := m5[x].(parent := y)]
  }

  lemma {:induction false} RotRMemRotated(m: Mem, m': Mem, root: Node?, root': Node?, x: Node, y: Node)
    requires CanRotate(m, x, y, false) && m[x].left == y && m' == RotRMem(m, x)
    requires root' == if m[x].parent == null then y else root
    ensures Rotated(m, m', root, root', x, y, m[y].right)
    ensures m'[x] == Rec(m[y].right, m[x].right, y, m[x].red)
    ensures m'[y] == Rec(m[y].left, x, m[x].parent, m[y].red)
  {
  }

  // The nodes whose links a rotation writes are different nodes.
  lemma {:induction false} Spots(m: Mem, c: Ctx, a: Tree, x: Node, xr: bool, b: Tree, y: Node, yr: bool, d: Tree, t: Tree)
    requires t == Br(a, x, xr, Br(b, y, yr, d))
    requires Disj(t) && Nodes(t) !! CNodes(c) && Linked(m, t, CNode(c)) && CNodes(c) <= m.Keys
    ensures CanRotate(m, x, y, true)
    ensures m[x] == Rec(Root(a), y, CNode(c), xr) && m[y] == Rec(Root(b), Root(d), x, yr)
  {
    RightLeaning(a, x, xr, b, y, yr, d, CNodes(c));
    LinkedRight(m, a, x, xr, b, y, yr, d, CNode(c));
    assert Root(b) != null ==> Root(b) in Nodes(b);
    assert CNode(c) != null ==> CNode(c) in CNodes(c);
  }

  lemma {:induction false} SpotsR(m: Mem, c: Ctx, a: Tree, x: Node, xr: bool, b: Tree, y: Node, yr: bool, d: Tree, t: Tree)
    requires t == Br(Br(a, x, xr, b), y, yr, d)
    requires Disj(t) && Nodes(t) !! CNodes(c) && Linked(m, t, CNode(c)) && CNodes(c) <= m.Keys
    ensures CanRotate(m, y, x, false)
    ensures m[y] == Rec(x, Root(d), CNode(c), yr) && m[x] == Rec(Root(a), Root(b), y, xr)
  {
    LeftLeaning(a, x, xr, b, y, yr, d, CNodes(c));
    LinkedLeft(m, a, x, xr, b, y, yr, d, CNode(c));
    assert Root(b) != null ==> Root(b) in Nodes(b);
    assert CNode(c) != null ==> CNode(c) in CNodes(c);
  }

  lemma {:induction false} PaintAt(m: Mem, m': Mem, root: Node?, c: Ctx, t: Tree, red: bool)
    requires At(m, root, c, t) && t.Br? && m' == m[t.n := m[t.n].(red := red)]
    requires m.Keys == CNodes(c) + Nodes(t)
    ensures At(m', root, Top, Plug(c, t.(red := red)))
    ensures m'.Keys == Nodes(Plug(c, t.(red := red)))
  {
    var t' := t.(red := red);
    FrameT(m, m', t.l, t.n);
    FrameT(m, m', t.r, t.n);
    FrameC(m, m', root, c, t.n);
    assert Nodes(t') == Nodes(t);
    AtPlug(m', root, c, t');
  }

  lemma {:induction false} RotLOrder(t: Tree)
    requires t.Br? && t.r.Br?
    ensures InOrder(RotL(t)) == InOrder(t)
  {
    var a, b, d := InOrder(t.l), InOrder(t.r.l), InOrder(t.r.r);
    assert InOrder(t.r) == b + [t.r.n] + d;
    assert InOrder(Br(t.l, t.n, t.red, t.r.l)) == a + [t.n] + b;
    assert a + [t.n] + (b + [t.r.n] + d) == (a + [t.n] + b) + [t.r.n] + d;
  }

  lemma {:induction false} RotROrder(t: Tree)
    requires t.Br? && t.l.Br?
    ensures InOrder(RotR(t)) == InOrder(t)
  {
    RotLOrder(RotR(t));
  }

  /** `elm` has been linked as a red leaf into the hole of `c`. */
  lemma {:induction false} LinkNew(m: Mem, m': Mem, root: Node?, root': Node?, c: Ctx, elm: Node)
    requires At(m, root, c, Leaf) && m.Keys == CNodes(c) && elm !in m
    requires elm in m' && m'[elm] == Rec(null, null, CNode(c), true)
    requires Relinked(m, m', root, root', c, elm)
    requires forall k :: k in m && k != CNode(c) ==> k in m' && m'[k] == m[k]
    ensures At(m', root', c, Br(Leaf, elm, true, Leaf))
  {
    RelinkedC(m, m', root, root', c, null, elm);
    assert Linked(m', Br(Leaf, elm, true, Leaf), CNode(c));
  }

  lemma {:induction false} RedirectedIsRelinked(m: Mem, m': Mem, root: Node?, root': Node?, c: Ctx, t: Tree, x: Node, child: Node?)
    requires CLinked(m, root, c, x) && t.Br? && t.n == x && Nodes(t) !! CNodes(c)
    requires Redirected(m, m', root, root', CNode(c), x, child)
    ensures Relinked(m, m', root, root', c, child)
  {
    assert c.InR? && c.l.Br? ==> c.l.n in CNodes(c);
  }

  /** The root `x` of `t`, which has at most the one child `ch`, has been bypassed. */
  // The same before the node itself is forgotten.
  lemma {:induction false} Unlinked(m: Mem, m': Mem, root: Node?, root': Node?, c: Ctx, t: Tree, ch: Tree)
    requires At(m, root, c, t) && t.Br? && m.Keys == Nodes(t) + CNodes(c) && m'.Keys == m.Keys
    requires (t.l.Leaf? && ch == t.r) || (t.r.Leaf? && ch == t.l)
    requires ch.Br? ==> ch.n in m' && m'[ch.n] == m[ch.n].(parent := CNode(c))
    requires Redirected(m, m', root, root', CNode(c), t.n, Root(ch))
    requires forall k :: k in m' && k != Root(ch) && k != CNode(c) ==> m'[k] == m[k]
    ensures At(m' - {t.n}, root', Top, Plug(c, ch)) && (m' - {t.n}).Keys == Nodes(Plug(c, ch))
    ensures Nodes(Plug(c, ch)) == m.Keys - {t.n}
  {
    UnlinkKeys(m, c, t, ch);
    UnlinkAt(m, m' - {t.n}, root, root', c, t, ch);
  }

  lemma {:induction false} UnlinkKeys(m: Mem, c: Ctx, t: Tree, ch: Tree)
    requires exists root :: At(m, root, c, t)
    requires t.Br? && ((t.l.Leaf? && ch == t.r) || (t.r.Leaf? && ch == t.l))
    ensures ch.Br? ==> ch.n != t.n
    ensures CNode(c) != t.n
  {
    assert CNode(c) != null ==> CNode(c) in CNodes(c);
    assert Root(ch) != null ==> Root(ch) in Nodes(ch);
  }

  lemma {:induction false} UnlinkAt(m: Mem, m': Mem, root: Node?, root': Node?, c: Ctx, t: Tree, ch: Tree)
    requires At(m, root, c, t) && t.Br? && m.Keys == Nodes(t) + CNodes(c) && m'.Keys == m.Keys - {t.n}
    requires (t.l.Leaf? && ch == t.r) || (t.r.Leaf? && ch == t.l)
    requires ch.Br? ==> ch.n in m' && m'[ch.n] == m[ch.n].(parent := CNode(c))
    requires Redirected(m, m', root, root', CNode(c), t.n, Root(ch))
    requires forall k :: k in m' && k != Root(ch) && k != CNode(c) ==> m'[k] == m[k]
    ensures At(m', root', Top, Plug(c, ch)) && m'.Keys == Nodes(Plug(c, ch))
  {
    assert Nodes(t) == Nodes(ch) + {t.n} && t.n !in Nodes(ch);
    assert CNode(c) != null ==> CNode(c) in CNodes(c);
    assert Root(ch) != null ==> Root(ch) in Nodes(ch);
    AdoptedT(m, m', ch, t.n, CNode(c));
    RedirectedIsRelinked(m, m', root, root', c, t, t.n, Root(ch));
    RelinkedC(m, m', root, root', c, t.n, Root(ch));
    AtPlug(m', root', c, ch);
  }

  ghost predicate CanSubstitute(m: Mem, x: Node) {
    && x in m
    && var o := m[x];
    && o.left != null && o.left in m && (o.right != null ==> o.right in m) && (o.parent != null ==> o.parent in m)
    && o.left != o.right && o.left != o.parent && x != o.parent && o.left != x && o.right != x
    && (o.right == null || o.right != o.parent)
  }

  /** The writes with which RB_REMOVE puts `s` in the place of `x`. */
  ghost function SubstMem(m: Mem, x: Node, s: Node): Mem
    requires CanSubstitute(m, x) && s !in m
  {
    var o := m[x];
    var m1 := WithChild(m[s := o], o.parent, x, s);
    var m2 := m1[o.left := m1[o.left].(parent := s)];
    WithParent(m2, o.right, s) - {x}
  }

  lemma {:induction false} SubstMemFacts(m: Mem, m': Mem, root: Node?, root': Node?, x: Node, s: Node)
    requires CanSubstitute(m, x) && s !in m && m' == SubstMem(m, x, s)
    requires root' == if m[x].parent == null then s else root
    ensures m'.Keys == m.Keys - {x} + {s} && m'[s] == m[x]
    ensures var o := m[x];
      && m'[o.left] == m[o.left].(parent := s)
      && (o.right != null ==> m'[o.right] == m[o.right].(parent := s))
      && Redirected(m, m', root, root', o.parent, x, s)
      && (forall k :: k in m' && k != s && k != o.left && k != o.right && k != o.parent ==> m'[k] == m[k])
  {
  }

  lemma {:induction false} SubstituteT(m: Mem, m': Mem, t: Tree, s: Node, parent: Node?)
    requires t.Br? && Linked(m, t, parent) && Disj(t) && Nodes(t) <= m.Keys && s !in m
    requires s in m' && m'[s] == m[t.n]
    requires t.l.Br? ==> t.l.n in m' && m'[t.l.n] == m[t.l.n].(parent := s)
    requires t.r.Br? ==> t.r.n in m' && m'[t.r.n] == m[t.r.n].(parent := s)
    requires forall k :: k in Nodes(t) && k != t.n && k != Root(t.l) && k != Root(t.r) ==> k in m' && m'[k] == m[k]
    ensures Linked(m', t.(n := s), parent)
  {
    assert Root(t.l) != null ==> Root(t.l) in Nodes(t.l);
    assert Root(t.r) != null ==> Root(t.r) in Nodes(t.r);
    AdoptedT(m, m', t.l, t.n, s);
    AdoptedT(m, m', t.r, t.n, s);
  }

  /** `s` has taken over the place, the links and the colour of the root of `t`. */
  lemma {:induction false} SubstituteAt(m: Mem, m': Mem, root: Node?, root': Node?, c: Ctx, t: Tree, s: Node)
    requires At(m, root, c, t) && t.Br? && m.Keys == Nodes(t) + CNodes(c) && s !in m
    requires m'.Keys == m.Keys - {t.n} + {s} && m'[s] == m[t.n]
    requires t.l.Br? ==> t.l.n in m' && m'[t.l.n] == m[t.l.n].(parent := s)
    requires t.r.Br? ==> t.r.n in m' && m'[t.r.n] == m[t.r.n].(parent := s)
    requires Redirected(m, m', root, root', CNode(c), t.n, s)
    requires forall k :: k in m' && k != s && k != Root(t.l) && k != Root(t.r) && k != CNode(c) ==> m'[k] == m[k]
    ensures At(m', root', Top, Plug(c, t.(n := s))) && m'.Keys == Nodes(Plug(c, t.(n := s)))
  {
    assert CNode(c) != null ==> CNode(c) in CNodes(c);
    assert Root(t.l) != null ==> Root(t.l) in Nodes(t);
    assert Root(t.r) != null ==> Root(t.r) in Nodes(t);
    assert Disj(t.(n := s));
    SubstituteT(m, m', t, s, CNode(c));
    RedirectedIsRelinked(m, m', root, root', c, t, t.n, s);
    RelinkedC(m, m', root, root', c, t.n, s);
    AtPlug(m', root', c, t.(n := s));
  }
}
