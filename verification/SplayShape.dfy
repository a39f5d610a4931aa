/** The trees of the SPLAY macros as values: in-order sequences, the links that form
    a tree, and the two half-built trees of a top-down splay. */
module SplayShape {

  /** An element with its SPLAY_ENTRY; the comparison function orders the keys. */
  class Node {
    var left: Node?
    var right: Node?
    const key: int

    constructor (k: int)
      ensures key == k && left == null && right == null
    {
      left, right, key := null, null, k;
    }
  }

  datatype Rec = Rec(left: Node?, right: Node?)
  type Mem = map<Node, Rec>

  datatype Tree = Nil | Bin(l: Tree, x: Node, r: Tree)

  ghost function In(t: Tree): seq<Node> {
    match t
    case Nil => []
    case Bin(l, x, r) => In(l) + [x] + In(r)
  }

  ghost predicate Sorted(q: seq<Node>) {
    forall i, j :: 0 <= i < j < |q| ==> q[i].key < q[j].key
  }

  ghost predicate AllLess(a: seq<Node>, b: seq<Node>) {
    forall x, y :: x in a && y in b ==> x.key < y.key
  }

  lemma {:induction false} SortedCat(a: seq<Node>, b: seq<Node>)
    ensures Sorted(a + b) <==> Sorted(a) && Sorted(b) && AllLess(a, b)
  {
    var q := a + b;
    if Sorted(q) {
      assert forall i :: 0 <= i < |a| ==> q[i] == a[i];
      assert forall i :: 0 <= i < |b| ==> q[|a| + i] == b[i];
    }
  }

  /** `m` links the nodes of `t` into that tree, with root `p`. */
  ghost predicate At(m: Mem, p: Node?, t: Tree) {
    match t
    case Nil => p == null
    case Bin(l, x, r) => p == x && x in m && At(m, m[x].left, l) && At(m, m[x].right, r)
  }

  lemma {:induction false} AtFrame(m: Mem, m': Mem, p: Node?, t: Tree)
    requires At(m, p, t)
    requires forall y :: y in In(t) && y in m ==> y in m' && m'[y] == m[y]
    ensures At(m', p, t)
  {
    if t.Bin? {
      assert t.x in In(t);
      AtFrame(m, m', m[t.x].left, t.l);
      AtFrame(m, m', m[t.x].right, t.r);
    }
  }

  /** One of the trees under construction, from its open end up to `__node`: each node
      with the subtree on its finished side. */
  datatype Spine = Top | More(up: Spine, x: Node, t: Tree)

  ghost function Last(sp: Spine, d: Node): Node {
    if sp.Top? then d else sp.x
  }

  ghost function InL(sp: Spine): seq<Node> {
    if sp.Top? then [] else InL(sp.up) + In(sp.t) + [sp.x]
  }

  ghost function InR(sp: Spine): seq<Node> {
    if sp.Top? then [] else [sp.x] + In(sp.t) + InR(sp.up)
  }

  /** The tree of smaller nodes hangs at `d.right` and grows at its rightmost node. */
  ghost predicate SpineL(m: Mem, d: Node, sp: Spine) {
    sp.More? ==>
      && sp.x in m && Last(sp.up, d) in m && m[Last(sp.up, d)].right == sp.x
      && At(m, m[sp.x].left, sp.t) && SpineL(m, d, sp.up)
  }

  /** The tree of greater nodes hangs at `d.left` and grows at its leftmost node. */
  ghost predicate SpineR(m: Mem, d: Node, sp: Spine) {
    sp.More? ==>
      && sp.x in m && Last(sp.up, d) in m && m[Last(sp.up, d)].left == sp.x
      && At(m, m[sp.x].right, sp.t) && SpineR(m, d, sp.up)
  }

  ghost function PlugL(sp: Spine, a: Tree): Tree {
    if sp.Top? then a else PlugL(sp.up, Bin(sp.t, sp.x, a))
  }

  ghost function PlugR(sp: Spine, b: Tree): Tree {
    if sp.Top? then b else PlugR(sp.up, Bin(b, sp.x, sp.t))
  }

  lemma {:induction false} PlugLIn(sp: Spine, a: Tree)
    ensures In(PlugL(sp, a)) == InL(sp) + In(a)
  {
    if sp.More? {
      PlugLIn(sp.up, Bin(sp.t, sp.x, a));
      assert InL(sp.up) + (In(sp.t) + [sp.x] + In(a)) == InL(sp.up) + In(sp.t) + [sp.x] + In(a);
    }
  }

  lemma {:induction false} PlugRIn(sp: Spine, b: Tree)
    ensures In(PlugR(sp, b)) == In(b) + InR(sp)
  {
    if sp.More? {
      PlugRIn(sp.up, Bin(b, sp.x, sp.t));
      assert In(b) + [sp.x] + In(sp.t) + InR(sp.up) == In(b) + ([sp.x] + In(sp.t) + InR(sp.up));
    }
  }

  lemma {:induction false} PlugLAt(m: Mem, d: Node, sp: Spine, a: Tree)
    requires SpineL(m, d, sp) && Last(sp, d) in m && At(m, m[Last(sp, d)].right, a)
    ensures d in m && At(m, m[d].right, PlugL(sp, a))
  {
    if sp.More? {
      PlugLAt(m, d, sp.up, Bin(sp.t, sp.x, a));
    }
  }

  lemma {:induction false} PlugRAt(m: Mem, d: Node, sp: Spine, b: Tree)
    requires SpineR(m, d, sp) && Last(sp, d) in m && At(m, m[Last(sp, d)].left, b)
    ensures d in m && At(m, m[d].left, PlugR(sp, b))
  {
    if sp.More? {
      PlugRAt(m, d, sp.up, Bin(sp.t, sp.x, b).(l := b, r := sp.t));
    }
  }

  // Writes elsewhere, and to the open link, leave the tree under construction as it is.
  lemma {:induction false} SpineLFrame(m: Mem, m': Mem, d: Node, sp: Spine)
    requires SpineL(m, d, sp) && Sorted(InL(sp)) && d in m && d in m' && (sp.More? ==> m'[d].right == m[d].right)
    requires forall y :: y in InL(sp) && y in m ==>
      y in m' && m'[y].left == m[y].left && (y != Last(sp, d) ==> m'[y].right == m[y].right)
    ensures SpineL(m', d, sp)
  {
    if sp.More? {
      SortedCat(InL(sp.up) + In(sp.t), [sp.x]);
      SortedCat(InL(sp.up), In(sp.t));
      assert sp.x in [sp.x] && sp.x in InL(sp);
      AtFrame(m, m', m[sp.x].left, sp.t);
      assert sp.up.More? ==> sp.up.x in InL(sp.up);
      SpineLFrame(m, m', d, sp.up);
    }
  }

  lemma {:induction false} SpineRFrame(m: Mem, m': Mem, d: Node, sp: Spine)
    requires SpineR(m, d, sp) && Sorted(InR(sp)) && d in m && d in m' && (sp.More? ==> m'[d].left == m[d].left)
    requires forall y :: y in InR(sp) && y in m ==>
      y in m' && m'[y].right == m[y].right && (y != Last(sp, d) ==> m'[y].left == m[y].left)
    ensures SpineR(m', d, sp)
  {
    if sp.More? {
      SortedCat([sp.x] + In(sp.t), InR(sp.up));
      SortedCat([sp.x], In(sp.t));
      assert sp.x in [sp.x] && sp.x in [sp.x] + In(sp.t);
      AtFrame(m, m', m[sp.x].right, sp.t);
      assert sp.up.More? ==> sp.up.x in InR(sp.up);
      SpineRFrame(m, m', d, sp.up);
    }
  }

  // ---------- the state of a splay ----------

  /** The nodes of `whole`, in this order: the tree of smaller nodes, the tree still to be
      searched, and the tree of greater nodes; `d` is the local `__node`. */
  ghost predicate Split(m: Mem, d: Node, lo: Spine, hi: Spine, root: Node?, t: Tree, whole: seq<Node>) {
    && d in m && d !in whole
    && SpineL(m, d, lo) && SpineR(m, d, hi) && t.Bin? && At(m, root, t)
    && whole == InL(lo) + In(t) + InR(hi) && Sorted(whole)
  }

  lemma {:induction false} Parts(lo: Spine, hi: Spine, t: Tree, whole: seq<Node>)
    requires whole == InL(lo) + In(t) + InR(hi) && Sorted(whole)
    ensures Sorted(InL(lo)) && Sorted(In(t)) && Sorted(InR(hi))
    ensures AllLess(InL(lo), In(t)) && AllLess(In(t), InR(hi)) && AllLess(InL(lo), InR(hi))
  {
    SortedCat(InL(lo) + In(t), InR(hi));
    SortedCat(InL(lo), In(t));
    assert forall x :: x in InL(lo) ==> x in InL(lo) + In(t);
    assert forall x :: x in In(t) ==> x in InL(lo) + In(t);
  }

  // The nodes of a tree and those of its parts.
  lemma {:induction false} TreeParts(t: Tree)
    requires t.Bin? && Sorted(In(t))
    ensures Sorted(In(t.l)) && Sorted(In(t.r)) && t.x in In(t)
    ensures t.x !in In(t.l) && t.x !in In(t.r)
    ensures forall y :: y in In(t.l) ==> y in In(t) && y !in In(t.r)
    ensures forall y :: y in In(t.r) ==> y in In(t)
  {
    SortedCat(In(t.l) + [t.x], In(t.r));
    SortedCat(In(t.l), [t.x]);
    assert t.x in [t.x] && t.x in In(t.l) + [t.x];
    assert forall y :: y in In(t.l) ==> y in In(t.l) + [t.x];
  }

  lemma {:induction false} AtParts(m: Mem, p: Node?, t: Tree)
    requires At(m, p, t) && t.Bin?
    ensures p == t.x && t.x in m && At(m, m[t.x].left, t.l) && At(m, m[t.x].right, t.r)
    ensures t.l.Bin? ==> m[t.x].left == t.l.x && t.l.x in m
    ensures t.r.Bin? ==> m[t.x].right == t.r.x && t.r.x in m
  {
  }

  lemma {:induction false} AtUpdate(m: Mem, p: Node?, t: Tree, q: Node, v: Rec)
    requires At(m, p, t) && q !in In(t)
    ensures At(m[q := v], p, t)
  {
    AtFrame(m, m[q := v], p, t);
  }

  lemma {:induction false} SpineLUpdate(m: Mem, d: Node, sp: Spine, q: Node, v: Rec)
    requires SpineL(m, d, sp) && Sorted(InL(sp)) && d in m && q in m
    requires q in InL(sp) ==> q == Last(sp, d) && v.left == m[q].left
    requires q == d && sp.More? ==> v.right == m[d].right
    ensures SpineL(m[q := v], d, sp)
  {
    SpineLFrame(m, m[q := v], d, sp);
  }

  lemma {:induction false} SpineRUpdate(m: Mem, d: Node, sp: Spine, q: Node, v: Rec)
    requires SpineR(m, d, sp) && Sorted(InR(sp)) && d in m && q in m
    requires q in InR(sp) ==> q == Last(sp, d) && v.right == m[q].right
    requires q == d && sp.More? ==> v.left == m[d].left
    ensures SpineR(m[q := v], d, sp)
  {
    SpineRFrame(m, m[q := v], d, sp);
  }

  // The open ends are `__node` or nodes of their own tree.
  lemma {:induction false} Ends(m: Mem, d: Node, lo: Spine, hi: Spine, root: Node?, t: Tree, whole: seq<Node>)
    requires Split(m, d, lo, hi, root, t, whole)
    ensures Sorted(InL(lo)) && Sorted(In(t)) && Sorted(InR(hi))
    ensures forall y :: y in In(t) ==> y in whole && y !in InL(lo) && y !in InR(hi) && y != d
    ensures var l, r := Last(lo, d), Last(hi, d);
      && l in m && r in m && l !in In(t) && r !in In(t) && l !in InR(hi) && r !in InL(lo)
      && (lo.Top? ==> l == d) && (lo.More? ==> l in InL(lo) && l != d)
      && (hi.Top? ==> r == d) && (hi.More? ==> r in InR(hi) && r != d)
    ensures d !in InL(lo) && d !in InR(hi) && d !in In(t) && TopAt(m, root, t)
    ensures forall y :: y in whole <==> y in InL(lo) || y in In(t) || y in InR(hi)
  {
    Parts(lo, hi, t, whole);
    assert forall y :: y in In(t) || y in InL(lo) || y in InR(hi) ==> y in whole;
    AtParts(m, root, t);
  }

  ghost predicate TopAt(m: Mem, root: Node?, t: Tree) {
    t.Bin? && root == t.x && t.x in m && At(m, m[t.x].left, t.l) && At(m, m[t.x].right, t.r)
  }

  // The spines survive a write to a node of the middle tree.
  lemma {:induction false} SpinesUpdate(m: Mem, d: Node, lo: Spine, hi: Spine, q: Node, v: Rec)
    requires SpineL(m, d, lo) && SpineR(m, d, hi) && Sorted(InL(lo)) && Sorted(InR(hi)) && d in m && q in m
    requires q !in InL(lo) && q !in InR(hi) && q != d
    ensures SpineL(m[q := v], d, lo) && SpineR(m[q := v], d, hi)
  {
    SpineLUpdate(m, d, lo, q, v);
    SpineRUpdate(m, d, hi, q, v);
  }

  /** SPLAY_ROTATE_RIGHT */
  ghost function RotatedRight(m: Mem, x: Node, y: Node): Mem
    requires x in m && y in m
  {
    var m1 := m[x := m[x].(left := m[y].right)];
    m1[y := m1[y].(right := x)]
  }

  lemma {:induction false} RotateRightTree(m: Mem, root: Node?, t: Tree)
    requires At(m, root, t) && t.Bin? && t.l.Bin? && Sorted(In(t))
    ensures t.x in m && t.l.x in m && t.x == root && m[t.x].left == t.l.x
    ensures var t' := Bin(t.l.l, t.l.x, Bin(t.l.r, t.x, t.r));
      At(RotatedRight(m, t.x, t.l.x), t.l.x, t') && In(t') == In(t)
  {
    var x, y := t.x, t.l.x;
    TreeParts(t);
    TreeParts(t.l);
    AtParts(m, root, t);
    AtParts(m, y, t.l);
    var v := m[x].(left := m[y].right);
    var m1 := m[x := v];
    AtUpdate(m, m[y].left, t.l.l, x, v);
    AtUpdate(m, m[y].right, t.l.r, x, v);
    AtUpdate(m, m[x].right, t.r, x, v);
    var w := m1[y].(right := x);
    AtUpdate(m1, m[y].left, t.l.l, y, w);
    AtUpdate(m1, m[y].right, t.l.r, y, w);
    AtUpdate(m1, m[x].right, t.r, y, w);
    assert In(t) == In(t.l.l) + [y] + In(t.l.r) + [x] + In(t.r);
    assert In(Bin(t.l.l, y, Bin(t.l.r, x, t.r))) == In(t.l.l) + [y] + (In(t.l.r) + [x] + In(t.r));
  }

  lemma {:induction false} RotateRight(m: Mem, d: Node, lo: Spine, hi: Spine, root: Node?, t: Tree, whole: seq<Node>)
    requires Split(m, d, lo, hi, root, t, whole) && t.l.Bin?
    ensures t.x in m && t.l.x in m && t.x == root && m[t.x].left == t.l.x
    ensures var t' := Bin(t.l.l, t.l.x, Bin(t.l.r, t.x, t.r));
      Split(RotatedRight(m, t.x, t.l.x), d, lo, hi, t.l.x, t', whole)
  {
    var x, y := t.x, t.l.x;
    Ends(m, d, lo, hi, root, t, whole);
    TreeParts(t);
    TreeParts(t.l);
    RotateRightTree(m, root, t);
    var v := m[x].(left := m[y].right);
    SpinesUpdate(m, d, lo, hi, x, v);
    SpinesUpdate(m[x := v], d, lo, hi, y, m[x := v][y].(right := x));
  }

  /** SPLAY_ROTATE_LEFT */
  ghost function RotatedLeft(m: Mem, x: Node, y: Node): Mem
    requires x in m && y in m
  {
    var m1 := m[x := m[x].(right := m[y].left)];
    m1[y := m1[y].(left := x)]
  }

  lemma {:induction false} RotateLeftTree(m: Mem, root: Node?, t: Tree)
    requires At(m, root, t) && t.Bin? && t.r.Bin? && Sorted(In(t))
    ensures t.x in m && t.r.x in m && t.x == root && m[t.x].right == t.r.x
    ensures var t' := Bin(Bin(t.l, t.x, t.r.l), t.r.x, t.r.r);
      At(RotatedLeft(m, t.x, t.r.x), t.r.x, t') && In(t') == In(t)
  {
    var x, y := t.x, t.r.x;
    TreeParts(t);
    TreeParts(t.r);
    AtParts(m, root, t);
    AtParts(m, y, t.r);
    var v := m[x].(right := m[y].left);
    var m1 := m[x := v];
    AtUpdate(m, m[y].left, t.r.l, x, v);
    AtUpdate(m, m[y].right, t.r.r, x, v);
    AtUpdate(m, m[x].left, t.l, x, v);
    var w := m1[y].(left := x);
    AtUpdate(m1, m[y].left, t.r.l, y, w);
    AtUpdate(m1, m[y].right, t.r.r, y, w);
    AtUpdate(m1, m[x].left, t.l, y, w);
    assert In(t) == In(t.l) + [x] + (In(t.r.l) + [y] + In(t.r.r));
    assert In(Bin(Bin(t.l, x, t.r.l), y, t.r.r)) == In(t.l) + [x] + In(t.r.l) + [y] + In(t.r.r);
  }

  lemma {:induction false} RotateLeft(m: Mem, d: Node, lo: Spine, hi: Spine, root: Node?, t: Tree, whole: seq<Node>)
    requires Split(m, d, lo, hi, root, t, whole) && t.r.Bin?
    ensures t.x in m && t.r.x in m && t.x == root && m[t.x].right == t.r.x
    ensures var t' := Bin(Bin(t.l, t.x, t.r.l), t.r.x, t.r.r);
      Split(RotatedLeft(m, t.x, t.r.x), d, lo, hi, t.r.x, t', whole)
  {
    var x, y := t.x, t.r.x;
    Ends(m, d, lo, hi, root, t, whole);
    TreeParts(t);
    TreeParts(t.r);
    RotateLeftTree(m, root, t);
    var v := m[x].(right := m[y].left);
    SpinesUpdate(m, d, lo, hi, x, v);
    SpinesUpdate(m[x := v], d, lo, hi, y, m[x := v][y].(left := x));
  }

  /** SPLAY_LINKLEFT */
  lemma {:induction false} LinkLeft(m: Mem, d: Node, lo: Spine, hi: Spine, root: Node?, t: Tree, whole: seq<Node>)
    requires Split(m, d, lo, hi, root, t, whole) && t.l.Bin?
    ensures Last(hi, d) in m && t.x in m && t.x == root
    ensures var q := Last(hi, d);
      Split(m[q := m[q].(left := t.x)], d, lo, More(hi, t.x, t.r), m[t.x].left, t.l, whole)
  {
    var x, q := t.x, Last(hi, d);
    var v := m[q].(left := x);
    Ends(m, d, lo, hi, root, t, whole);
    TreeParts(t);
    AtUpdate(m, m[x].left, t.l, q, v);
    AtUpdate(m, m[x].right, t.r, q, v);
    SpineLUpdate(m, d, lo, q, v);
    SpineRUpdateEnd(m, d, hi, v);
    WholeLinkedLeft(lo, hi, t);
    hide Sorted, In, InL, InR;
  }

  lemma {:induction false} WholeLinkedLeft(lo: Spine, hi: Spine, t: Tree)
    requires t.Bin?
    ensures InL(lo) + In(t) + InR(hi) == InL(lo) + In(t.l) + InR(More(hi, t.x, t.r))
  {
    LinkLeftIn(InL(lo), In(t.l), t.x, In(t.r), InR(hi));
  }

  lemma {:induction false} LinkLeftIn(a: seq<Node>, b: seq<Node>, x: Node, c: seq<Node>, e: seq<Node>)
    ensures a + (b + [x] + c) + e == a + b + ([x] + c + e)
  {
    assert b + [x] + c + e == b + ([x] + c + e);
    assert a + (b + [x] + c) + e == a + (b + [x] + c + e);
  }

  lemma {:induction false} LinkRightIn(a: seq<Node>, b: seq<Node>, x: Node, c: seq<Node>, e: seq<Node>)
    ensures a + (b + [x] + c) + e == a + b + [x] + c + e
  {
    assert a + (b + [x] + c) == a + b + [x] + c;
  }

  // A write to the open link itself.
  lemma {:induction false} SpineRUpdateEnd(m: Mem, d: Node, sp: Spine, v: Rec)
    requires SpineR(m, d, sp) && Sorted(InR(sp)) && d in m && d !in InR(sp) && Last(sp, d) in m
    requires v.right == m[Last(sp, d)].right
    ensures SpineR(m[Last(sp, d) := v], d, sp)
  {
    if sp.More? {
      assert sp.x in InR(sp);
      SpineRUpdate(m, d, sp, sp.x, v);
    }
  }

  lemma {:induction false} SpineLUpdateEnd(m: Mem, d: Node, sp: Spine, v: Rec)
    requires SpineL(m, d, sp) && Sorted(InL(sp)) && d in m && d !in InL(sp) && Last(sp, d) in m
    requires v.left == m[Last(sp, d)].left
    ensures SpineL(m[Last(sp, d) := v], d, sp)
  {
    if sp.More? {
      assert sp.x in InL(sp);
      SpineLUpdate(m, d, sp, sp.x, v);
    }
  }

  lemma {:induction false} WholeLinkedRight(lo: Spine, hi: Spine, t: Tree)
    requires t.Bin?
    ensures InL(lo) + In(t) + InR(hi) == InL(More(lo, t.x, t.l)) + In(t.r) + InR(hi)
  {
    LinkRightIn(InL(lo), In(t.l), t.x, In(t.r), InR(hi));
  }

  /** SPLAY_LINKRIGHT */
  lemma {:induction false} LinkRight(m: Mem, d: Node, lo: Spine, hi: Spine, root: Node?, t: Tree, whole: seq<Node>)
    requires Split(m, d, lo, hi, root, t, whole) && t.r.Bin?
    ensures Last(lo, d) in m && t.x in m && t.x == root
    ensures var q := Last(lo, d);
      Split(m[q := m[q].(right := t.x)], d, More(lo, t.x, t.l), hi, m[t.x].right, t.r, whole)
  {
    var x, q := t.x, Last(lo, d);
    var v := m[q].(right := x);
    Ends(m, d, lo, hi, root, t, whole);
    TreeParts(t);
    AtUpdate(m, m[x].left, t.l, q, v);
    AtUpdate(m, m[x].right, t.r, q, v);
    SpineRUpdate(m, d, hi, q, v);
    SpineLUpdateEnd(m, d, lo, v);
    WholeLinkedRight(lo, hi, t);
    hide Sorted, In, InL, InR;
  }

  /** The first two writes of SPLAY_ASSEMBLE close the two trees. */
  ghost function Closed(m: Mem, l: Node, r: Node, x: Node): Mem
    requires l in m && r in m && x in m
  {
    var m1 := m[l := m[l].(right := m[x].left)];
    m1[r := m1[r].(left := m1[x].right)]
  }

  lemma {:induction false} CloseTrees(m: Mem, d: Node, lo: Spine, hi: Spine, root: Node?, t: Tree, whole: seq<Node>)
    requires Split(m, d, lo, hi, root, t, whole)
    ensures var l, r := Last(lo, d), Last(hi, d);
      && l in m && r in m && t.x in m && t.x == root
      && var m' := Closed(m, l, r, t.x);
      && m'.Keys == m.Keys && At(m', m'[d].right, PlugL(lo, t.l)) && At(m', m'[d].left, PlugR(hi, t.r))
      && forall y :: y in m && y !in whole && y != d ==> m'[y] == m[y]
  {
    var x, l, r := t.x, Last(lo, d), Last(hi, d);
    Ends(m, d, lo, hi, root, t, whole);
    TreeParts(t);
    var v := m[l].(right := m[x].left);
    var m1 := m[l := v];
    AtUpdate(m, m[x].left, t.l, l, v);
    AtUpdate(m, m[x].right, t.r, l, v);
    SpineLUpdateEnd(m, d, lo, v);
    SpineRUpdate(m, d, hi, l, v);
    var w := m1[r].(left := m1[x].right);
    AtUpdate(m1, m1[l].right, t.l, r, w);
    AtUpdate(m1, m1[x].right, t.r, r, w);
    SpineRUpdateEnd(m1, d, hi, w);
    SpineLUpdate(m1, d, lo, r, w);
    PlugLAt(m1[r := w], d, lo, t.l);
    PlugRAt(m1[r := w], d, hi, t.r);
  }

  /** SPLAY_ASSEMBLE, after which `__node` is gone. */
  ghost function Assembled(m: Mem, d: Node, l: Node, r: Node, x: Node): Mem
    requires d in m && l in m && r in m && x in m
  {
    var m' := Closed(m, l, r, x);
    m'[x := Rec(m'[d].right, m'[d].left)] - {d}
  }

  lemma {:induction false} Assemble(m: Mem, d: Node, lo: Spine, hi: Spine, root: Node?, t: Tree, whole: seq<Node>)
    requires Split(m, d, lo, hi, root, t, whole)
    ensures var l, r := Last(lo, d), Last(hi, d);
      && l in m && r in m && t.x in m && t.x == root
      && var m', t' := Assembled(m, d, l, r, t.x), Bin(PlugL(lo, t.l), t.x, PlugR(hi, t.r));
      && At(m', root, t') && In(t') == whole && m'.Keys == m.Keys - {d}
      && In(t'.l) == InL(lo) + In(t.l) && In(t'.r) == In(t.r) + InR(hi)
      && forall y :: y in m' && y !in whole ==> m'[y] == m[y]
  {
    var x := t.x;
    CloseTrees(m, d, lo, hi, root, t, whole);
    AssembledIn(m, d, lo, hi, root, t, whole);
    var m1 := Closed(m, Last(lo, d), Last(hi, d), x);
    hide Closed, Sorted, In, Split, InL, InR;
    AtReplaced(m1, m1[d].right, PlugL(lo, t.l), x, Rec(m1[d].right, m1[d].left), d);
    AtReplaced(m1, m1[d].left, PlugR(hi, t.r), x, Rec(m1[d].right, m1[d].left), d);
  }

  lemma {:induction false} AtReplaced(m: Mem, p: Node?, t: Tree, x: Node, v: Rec, d: Node)
    requires At(m, p, t) && x !in In(t) && d !in In(t)
    ensures At(m[x := v] - {d}, p, t)
  {
    AtFrame(m, m[x := v] - {d}, p, t);
  }

  lemma {:induction false} AssembledIn(m: Mem, d: Node, lo: Spine, hi: Spine, root: Node?, t: Tree, whole: seq<Node>)
    requires Split(m, d, lo, hi, root, t, whole)
    ensures In(Bin(PlugL(lo, t.l), t.x, PlugR(hi, t.r))) == whole
    ensures In(PlugL(lo, t.l)) == InL(lo) + In(t.l) && In(PlugR(hi, t.r)) == In(t.r) + InR(hi)
    ensures t.x != d && t.x in whole && t.x !in In(PlugL(lo, t.l)) && t.x !in In(PlugR(hi, t.r))
    ensures d !in In(PlugL(lo, t.l)) && d !in In(PlugR(hi, t.r))
  {
    Ends(m, d, lo, hi, root, t, whole);
    TreeParts(t);
    PlugLIn(lo, t.l);
    PlugRIn(hi, t.r);
    AssembleIn(InL(lo), In(t.l), t.x, In(t.r), InR(hi));
  }

  lemma {:induction false} AssembleIn(a: seq<Node>, b: seq<Node>, x: Node, c: seq<Node>, e: seq<Node>)
    ensures a + (b + [x] + c) + e == (a + b) + [x] + (c + e)
  {
    assert a + (b + [x] + c) == (a + b) + [x] + c;
  }
}
