/** RB_INSERT, RB_REMOVE and their colour fix-ups, RB_FIND, RB_NFIND, RB_MINMAX,
    RB_NEXT and RB_PREV on linked nodes. */
module RbTree {
  import opened RbShape
  import opened RbLinks

  /** The loop condition of RB_INSERT_COLOR: `t` is red, and all is red-black
      except that the parent of `t` may be red too. */
  ghost predicate InsertHole(c: Ctx, t: Tree) {
    && t.Br? && t.red && Bal(t) && NoRedRed(t)
    && CBal(c, BH(t)) && CNoRedRed(c, false) && RootBlack(c)
  }

  /** The subtree of the parent of the hole of `c`, when the hole holds `t`. */
  ghost function Above(c: Ctx, t: Tree): Tree
    requires !c.Top?
  {
    if c.InL? then Br(t, c.n, c.red, c.r) else Br(c.l, c.n, c.red, t)
  }

  lemma {:induction false} AboveFacts(c: Ctx, t: Tree)
    requires !c.Top?
    ensures Plug(c, t) == Plug(c.up, Above(c, t))
    ensures Whole(c, t) == Whole(c.up, Above(c, t))
    ensures Bal(t) && CBal(c, BH(t)) ==> Bal(Above(c, t)) && CBal(c.up, BH(Above(c, t)))
    ensures forall b :: CNoRedRed(c, b) ==> CNoRedRed(c.up, c.red)
    ensures RootBlack(c) ==> RootBlack(c.up) && (c.red ==> !c.up.Top?)
    ensures Depth(c) == 1 + Depth(c.up)
  {
    assert Whole(c, t) == Whole(c.up, Above(c, t));
  }

  // The parent of a red-red violation is not the root, and its own parent is black.
  lemma {:induction false} InsertHoleUp(c: Ctx, t: Tree)
    requires InsertHole(c, t) && !c.Top? && c.red
    ensures !c.up.Top? && !c.up.red
    ensures CNoRedRed(c.up, true) && RootBlack(c.up)
  {
    AboveFacts(c, t);
  }

  ghost function Sibling(c: Ctx): Tree
    requires !c.Top?
  {
    if c.InL? then c.r else c.l
  }

  // Red uncle: parent and uncle turn black, the grandparent turns red.
  lemma {:induction false} InsertRecolored(c: Ctx, t: Tree, p: Tree, u: Tree)
    requires InsertHole(c, t) && !c.Top? && c.red && !c.up.Top?
    requires p == Above(c, t) && u == Sibling(c.up) && IsRed(u)
    ensures var p', u' := p.(red := false), u.(red := false);
      var t' := if c.up.InL? then Br(p', c.up.n, true, u') else Br(u', c.up.n, true, p');
      InsertHole(c.up.up, t') && Whole(c.up.up, t') == Whole(c, t)
  {
    InsertHoleUp(c, t);
    AboveFacts(c, t);
    AboveFacts(c.up, p);
    var p', u' := p.(red := false), u.(red := false);
    var g, t' := Above(c.up, p), if c.up.InL? then Br(p', c.up.n, true, u') else Br(u', c.up.n, true, p');
    assert InOrder(p') == InOrder(p) && InOrder(u') == InOrder(u);
    assert InOrder(t') == InOrder(g);
    assert BH(p') == BH(p) + 1 && BH(u') == BH(u) + 1;
    assert NoRedRed(p') && NoRedRed(u');
    assert CNoRedRed(c.up.up, false);
  }

  // The cursor can step down to either child of a subtree without changing the order.
  lemma {:induction false} StepDown(c: Ctx, t: Tree, redL: bool, redR: bool)
    requires t.Br?
    ensures Whole(InL(c, t.n, redL, t.r), t.l) == Whole(c, t)
    ensures Whole(InR(c, t.l, t.n, redR), t.r) == Whole(c, t)
  {
  }

  // The red parent with its red child turned to the outside.
  lemma {:induction false} InsertOuter(c: Ctx, t: Tree, left: bool)
    requires t.Br? && t.red && Bal(t) && NoRedRed(t) && !c.Top? && c.red
    requires CBal(c, BH(t)) && CNoRedRed(c, false)
    ensures var p := Above(c, t);
      var p1 := if c.InL? == left then p else if left then RotL(p) else RotR(p);
      && Bal(p1) && BH(p1) == BH(t) && InOrder(p1) == InOrder(p)
      && p1.red && NoRedRed(p1.l) && NoRedRed(p1.r)
      && IsRed(if left then p1.l else p1.r) && !IsRed(if left then p1.r else p1.l)
  {
    var p := Above(c, t);
    if c.InL? && !left {
      RotROrder(p);
    } else if c.InR? && left {
      RotLOrder(p);
    }
  }

  lemma {:induction false} InsertRotatedLeft(c: Ctx, t: Tree, p1: Tree)
    requires InsertHole(c, t) && !c.Top? && c.red && c.up.InL? && !IsRed(c.up.r)
    requires p1 == if c.InL? then Above(c, t) else RotL(Above(c, t))
    ensures var t' := p1.l; var c' := InL(c.up.up, p1.n, false, Br(p1.r, c.up.n, true, c.up.r));
      InsertHole(c', t') && Whole(c', t') == Whole(c, t)
  {
    InsertHoleUp(c, t);
    InsertOuter(c, t, true);
    var p, up, g, u := Above(c, t), c.up.up, c.up.n, c.up.r;
    AboveFacts(c, t);
    AboveFacts(c.up, p1);
    var gp := Br(p1, g, false, u);
    RotROrder(gp);
    StepDown(up, RotR(gp), false, false);
    StepDown(up, Br(p1.l, p1.n, false, Br(p1.r, g, true, u)), false, false);
    assert InOrder(Br(p1.r, g, true, u)) == InOrder(Br(p1.r, g, false, u));
  }

  lemma {:induction false} InsertRotatedRight(c: Ctx, t: Tree, p1: Tree)
    requires InsertHole(c, t) && !c.Top? && c.red && c.up.InR? && !IsRed(c.up.l)
    requires p1 == if c.InR? then Above(c, t) else RotR(Above(c, t))
    ensures var t' := p1.r; var c' := InR(c.up.up, Br(c.up.l, c.up.n, true, p1.l), p1.n, false);
      InsertHole(c', t') && Whole(c', t') == Whole(c, t)
  {
    InsertHoleUp(c, t);
    InsertOuter(c, t, false);
    var p, up, g, u := Above(c, t), c.up.up, c.up.n, c.up.l;
    AboveFacts(c, t);
    AboveFacts(c.up, p1);
    var gp := Br(u, g, false, p1);
    RotLOrder(gp);
    StepDown(up, RotL(gp), false, false);
    StepDown(up, Br(Br(u, g, true, p1.l), p1.n, false, p1.r), false, false);
    assert InOrder(Br(u, g, true, p1.l)) == InOrder(Br(u, g, false, p1.l));
  }

  // When the loop ends, blackening the root leaves a red-black tree.
  lemma {:induction false} PaintRoot(c: Ctx, t: Tree)
    requires InsertHole(c, t) && (!c.Top? ==> !c.red)
    ensures var t' := Plug(c, t); t'.Br? && RedBlack(t'.(red := false))
  {
    if c.Top? {
    } else {
      assert CNoRedRed(c, true);
      PlugRedBlack(c, t);
      PlugBr(c, t);
    }
  }

  lemma {:induction false} PlugBr(c: Ctx, t: Tree)
    requires t.Br?
    ensures Plug(c, t).Br?
    decreases c
  {
    match c
    case Top =>
    case InL(up, n, red, r) => PlugBr(up, Br(t, n, red, r));
    case InR(up, l, n, red) => PlugBr(up, Br(l, n, red, t));
  }

  /** `s'` is `s` with the new node `n` put in somewhere; no node of `s` has its key. */
  ghost predicate Inserted(s: seq<Node>, s': seq<Node>, n: Node) {
    && (forall x :: x in s ==> x.key != n.key)
    && exists i :: 0 <= i <= |s| && s' == s[..i] + [n] + s[i..]
  }

  ghost function Keys(s: seq<Node>): set<int> {
    set x | x in s :: x.key
  }

  lemma {:induction false} InsertedKeys(s: seq<Node>, s': seq<Node>, n: Node)
    requires Inserted(s, s', n)
    ensures n.key !in Keys(s) && Keys(s') == Keys(s) + {n.key}
  {
    var i :| 0 <= i <= |s| && s' == s[..i] + [n] + s[i..];
    assert s == s[..i] + s[i..];
    assert forall x :: x in s' <==> x == n || x in s;
    assert forall k :: k in Keys(s') <==> k == n.key || k in Keys(s);
  }

  lemma {:induction false} RemovedKeys(s: seq<Node>, s': seq<Node>, n: Node)
    requires Sorted(s) && Removed(s, s', n)
    ensures n.key in Keys(s) && Keys(s') == Keys(s) - {n.key}
  {
    var i :| 0 <= i < |s| && s[i] == n && s' == s[..i] + s[i + 1..];
    assert s == s[..i] + [n] + s[i + 1..];
    RemovedKeysAt(s[..i], n, s[i + 1..]);
  }

  lemma {:induction false} RemovedKeysAt(a: seq<Node>, n: Node, b: seq<Node>)
    requires Sorted(a + [n] + b)
    ensures n.key in Keys(a + [n] + b) && Keys(a + b) == Keys(a + [n] + b) - {n.key}
  {
    SortedParts(a, n, b);
    forall x | x in a + b
      ensures x.key != n.key
    {
      assert x in a || x in b;
    }
    assert (a + b)[..|a|] == a && (a + b)[|a|..] == b;
    InsertedKeys(a + b, a + [n] + b, n);
  }

  /** A client's request: insert a node, or remove the node with a key. */
  datatype Op = Put(n: Node) | Cut(key: int)

  ghost function KeysAfter(ops: seq<Op>, keys: set<int>): set<int> {
    if ops == [] then keys
    else
      var before := KeysAfter(ops[..|ops| - 1], keys);
      match ops[|ops| - 1]
      case Put(n) => before + {n.key}
      case Cut(k) => before - {k}
  }

  ghost function Puts(ops: seq<Op>): set<Node> {
    set o | o in ops && o.Put? :: o.n
  }

  ghost function First(s: seq<Node>): Node? {
    if s == [] then null else s[0]
  }

  ghost function Last(s: seq<Node>): Node? {
    if s == [] then null else s[|s| - 1]
  }

  lemma {:induction false} SortedKeysInjective(s: seq<Node>)
    requires Sorted(s)
    ensures forall x, y :: x in s && y in s && x.key == y.key ==> x == y
  {
    forall x, y | x in s && y in s && x.key == y.key
      ensures x == y
    {
      var i :| 0 <= i < |s| && s[i] == x;
      var j :| 0 <= j < |s| && s[j] == y;
      assert i == j;
    }
  }

  // In a sorted sequence the first node after the gap is the least node not below the key.
  lemma {:induction false} FirstAfter(c: Ctx, key: int)
    requires Sorted(Whole(c, Leaf)) && Fits(c, key)
    ensures After(c) == [] ==> forall x :: x in Whole(c, Leaf) ==> x.key < key
    ensures After(c) != [] ==>
      && After(c)[0] in Whole(c, Leaf) && key <= After(c)[0].key
      && forall x :: x in Whole(c, Leaf) && key <= x.key ==> After(c)[0].key <= x.key
  {
    var a, b, w := Before(c), After(c), Whole(c, Leaf);
    assert w == a + b;
    forall x | x in w
      ensures if x in a then x.key < key else b != [] && b[0].key <= x.key && key < x.key
    {
      if x !in a {
        var j :| 0 <= j < |b| && b[j] == x;
        assert w[|a|] == b[0] && w[|a| + j] == b[j];
      }
    }
    if b != [] {
      assert w[|a|] == b[0] && b[0] in b;
    }
  }

  lemma {:induction false} SpineOrder(c: Ctx, t: Tree)
    requires t.Br?
    ensures InOrder(t) + After(c) == InOrder(t.l) + After(InL(c, t.n, t.red, t.r))
    ensures Before(c) + InOrder(t) == Before(InR(c, t.l, t.n, t.red)) + InOrder(t.r)
  {
  }

  // The successor of the node at index `i` is the first node to its right.
  lemma {:induction false} NextAt(c: Ctx, t: Tree, i: nat)
    requires t.Br? && Sorted(Whole(c, t)) && i < |Whole(c, t)| && Whole(c, t)[i] == t.n
    ensures First(InOrder(t.r) + After(c)) == First(Whole(c, t)[i + 1..])
    ensures Last(Before(c) + InOrder(t.l)) == Last(Whole(c, t)[..i])
  {
    WholeAround(c, t);
    var a, b, w := Before(c) + InOrder(t.l), InOrder(t.r) + After(c), Whole(c, t);
    assert w[|a|] == t.n;
    assert i == |a|;
    assert w[i + 1..] == b && w[..i] == a;
  }

  // Filling an empty hole that the key fits keeps the sequence sorted.
  lemma {:induction false} InsertedOrder(c: Ctx, elm: Node)
    requires Sorted(Whole(c, Leaf)) && Fits(c, elm.key)
    ensures Sorted(Whole(c, Br(Leaf, elm, true, Leaf)))
    ensures Inserted(Whole(c, Leaf), Whole(c, Br(Leaf, elm, true, Leaf)), elm)
  {
    FitsAbsent(c, elm.key);
    var a, b := Before(c), After(c);
    assert Whole(c, Leaf) == a + b;
    SortedJoin(a, elm, b);
    assert Whole(c, Br(Leaf, elm, true, Leaf)) == a + [elm] + b;
    assert (a + b)[..|a|] == a && (a + b)[|a|..] == b;
  }

  // Everything RB_INSERT relies on when it links `elm` into the empty hole of `c`.
  lemma {:induction false} InsertPlan(c: Ctx, elm: Node)
    requires RedBlack(Plug(c, Leaf)) && Sorted(InOrder(Plug(c, Leaf))) && Fits(c, elm.key)
    ensures elm !in Nodes(Plug(c, Leaf))
    ensures var leaf := Br(Leaf, elm, true, Leaf);
      && InsertHole(c, leaf) && Sorted(Whole(c, leaf))
      && Inserted(InOrder(Plug(c, Leaf)), Whole(c, leaf), elm)
  {
    WholeIsPlug(c, Leaf);
    FitsAbsent(c, elm.key);
    InOrderNode(Plug(c, Leaf), elm);
    SplitRedBlack(c, Leaf);
    InsertedOrder(c, elm);
  }

  // ---------- RB_REMOVE_COLOR ----------

  /** The loop condition of RB_REMOVE_COLOR: all is red-black except that the
      paths through the cursor have one black node too few.  A red cursor may
      have red children: it is about to turn black. */
  ghost predicate RemoveHole(c: Ctx, t: Tree) {
    && Bal(t) && (t.Br? ==> NoRedRed(t.l) && NoRedRed(t.r))
    && CBal(c, BH(t) + 1) && CNoRedRed(c, false) && RootBlack(c)
  }

  /** A node with a near and a far subtree, as seen from a left or a right child. */
  ghost function Join(left: bool, near: Tree, n: Node, red: bool, far: Tree): Tree {
    if left then Br(near, n, red, far) else Br(far, n, red, near)
  }

  ghost function Hole(left: bool, up: Ctx, n: Node, red: bool, far: Tree): Ctx {
    if left then InL(up, n, red, far) else InR(up, far, n, red)
  }

  ghost function Near(left: bool, t: Tree): Tree
    requires t.Br?
  {
    if left then t.l else t.r
  }

  ghost function Far(left: bool, t: Tree): Tree
    requires t.Br?
  {
    if left then t.r else t.l
  }

  /** How many turns RB_REMOVE_COLOR can still make. */
  ghost function TurnsLeft(done: bool, c: Ctx, t: Tree): nat {
    if done || IsRed(t) then 0 else Depth(c)
  }

  lemma {:induction false} Fewer(c: Ctx, c1: Ctx, done: bool, c': Ctx, t': Tree)
    requires !c.Top? && !c1.Top? && (c1 == c || c1.red) && (!done ==> c' == c1.up && IsRed(t') == c1.red)
    ensures TurnsLeft(done, c', t') < Depth(c)
  {
  }

  /** The state of the RB_REMOVE_COLOR loop; `w` is the in-order sequence. */
  ghost predicate Repairing(done: bool, c: Ctx, t: Tree, w: seq<Node>) {
    if done then c.Top? && RedBlack(t) && InOrder(t) == w else RemoveHole(c, t) && Whole(c, t) == w
  }

  // A black cursor that is not the root has a sibling node, so reading its
  // colour is safe; and if the sibling is red it has two black children.
  lemma {:induction false} RemoveHoleSibling(c: Ctx, t: Tree)
    requires RemoveHole(c, t) && !c.Top?
    ensures Sibling(c).Br? && Bal(Sibling(c)) && NoRedRed(Sibling(c)) && BH(Sibling(c)) == BH(t) + 1
    ensures IsRed(Sibling(c)) ==> !c.red && Sibling(c).l.Br? && Sibling(c).r.Br?
    ensures CNoRedRed(c.up, c.red) && CBal(c.up, BH(t) + 1 + if c.red then 0 else 1) && RootBlack(c.up)
    ensures c.up.Top? ==> !c.red
    ensures c.red ==> CNoRedRed(c.up, true)
    ensures CNoRedRed(c.up, false)
  {
    var w := Sibling(c);
    assert CNoRedRed(c.up, c.red);
    assert w.red ==> BH(w.l) == BH(w.r) == BH(t) + 1;
  }

  // Red sibling: it turns black and rotates above the parent, which turns red.
  lemma {:induction false} RemoveRedSibling(c: Ctx, t: Tree, left: bool)
    requires RemoveHole(c, t) && !c.Top? && c.InL? == left && IsRed(Sibling(c))
    ensures Sibling(c).Br?
    ensures var w := Sibling(c);
      var up1 := Hole(left, c.up, w.n, false, Far(left, w));
      var c1 := Hole(left, up1, c.n, true, Near(left, w));
      && RemoveHole(c1, t) && !IsRed(Sibling(c1)) && Whole(c1, t) == Whole(c, t)
  {
    RemoveHoleSibling(c, t);
    var w := Sibling(c);
    if left {
      StepDown(c.up, Br(t, c.n, c.red, w), c.red, c.red);
      StepDown(c.up, Br(Br(t, c.n, true, w.l), w.n, false, w.r), false, false);
      StepDown(InL(c.up, w.n, false, w.r), Br(t, c.n, true, w.l), true, true);
      RotLOrder(Br(t, c.n, c.red, w));
      assert InOrder(Br(t, c.n, true, w.l)) == InOrder(Br(t, c.n, c.red, w.l));
    } else {
      StepDown(c.up, Br(w, c.n, c.red, t), c.red, c.red);
      StepDown(c.up, Br(w.l, w.n, false, Br(w.r, c.n, true, t)), false, false);
      StepDown(InR(c.up, w.l, w.n, false), Br(w.r, c.n, true, t), true, true);
      RotROrder(Br(w, c.n, c.red, t));
      assert InOrder(Br(w.r, c.n, true, t)) == InOrder(Br(w.r, c.n, c.red, t));
    }
  }

  // Black sibling with two black children: it turns red and the cursor moves up.
  lemma {:induction false} RemoveBlackNephews(c: Ctx, t: Tree)
    requires RemoveHole(c, t) && !IsRed(t) && !c.Top? && !IsRed(Sibling(c))
    ensures Sibling(c).Br?
    requires !IsRed(Sibling(c).l) && !IsRed(Sibling(c).r)
    ensures var w' := Sibling(c).(red := true);
      var t' := Join(c.InL?, t, c.n, c.red, w');
      RemoveHole(c.up, t') && Whole(c.up, t') == Whole(c, t)
  {
    RemoveHoleSibling(c, t);
    var w' := Sibling(c).(red := true);
    assert InOrder(w') == InOrder(Sibling(c));
    AboveFacts(c, t);
    assert InOrder(Join(c.InL?, t, c.n, c.red, w')) == InOrder(Above(c, t));
  }

  /** The black sibling `w` with its red child turned to the far side. */
  ghost function FarRed(left: bool, w: Tree): Tree
    requires w.Br?
    requires IsRed(w.l) || IsRed(w.r)
  {
    if IsRed(Far(left, w)) then w
    else
      var o := Near(left, w);
      Join(left, Near(left, o), o.n, false, Join(left, Far(left, o), w.n, true, Far(left, w)))
  }

  lemma {:induction false} FarRedFacts(left: bool, w: Tree)
    requires w.Br? && !w.red && Bal(w) && NoRedRed(w) && (IsRed(w.l) || IsRed(w.r))
    ensures var w1 := FarRed(left, w);
      && w1.Br? && !w1.red && IsRed(Far(left, w1)) && BH(w1) == BH(w)
      && Bal(w1) && NoRedRed(Near(left, w1)) && NoRedRed(Far(left, w1)) && InOrder(w1) == InOrder(w)
  {
    if IsRed(Far(left, w)) {
    } else if left {
      var o := w.l;
      RotROrder(w);
      assert InOrder(Br(o.r, w.n, true, w.r)) == InOrder(Br(o.r, w.n, false, w.r));
    } else {
      var o := w.r;
      RotLOrder(w);
      assert InOrder(Br(w.l, w.n, true, o.l)) == InOrder(Br(w.l, w.n, false, o.l));
    }
  }

  /** The tree after the last rotation of RB_REMOVE_COLOR. */
  ghost function RemoveRotated(c: Ctx, t: Tree, w1: Tree): Tree
    requires !c.Top? && w1.Br? && Far(c.InL?, w1).Br?
  {
    Plug(c.up, Join(c.InL?, Join(c.InL?, t, c.n, false, Near(c.InL?, w1)), w1.n, c.red, Far(c.InL?, w1).(red := false)))
  }

  lemma {:induction false} JoinBlack(left: bool, t: Tree, n: Node, u: Tree)
    requires Bal(t) && NoRedRed(t) && Bal(u) && NoRedRed(u) && BH(t) == BH(u)
    ensures var p := Join(left, t, n, false, u); Bal(p) && NoRedRed(p) && BH(p) == BH(t) + 1
  {
  }

  // Black sibling with a red child: the rotation restores the missing black node.
  lemma {:induction false} RemoveFinished(c: Ctx, t: Tree)
    requires RemoveHole(c, t) && !IsRed(t) && !c.Top? && !IsRed(Sibling(c))
    ensures Sibling(c).Br?
    requires IsRed(Sibling(c).l) || IsRed(Sibling(c).r)
    ensures var w1 := FarRed(c.InL?, Sibling(c));
      && w1.Br? && Far(c.InL?, w1).Br?
      && RedBlack(RemoveRotated(c, t, w1)) && InOrder(RemoveRotated(c, t, w1)) == Whole(c, t)
  {
    RemoveHoleSibling(c, t);
    FarRedFacts(c.InL?, Sibling(c));
    var left, w1 := c.InL?, FarRed(c.InL?, Sibling(c));
    var f := Far(left, w1).(red := false);
    var p := Join(left, t, c.n, false, Near(left, w1));
    var top := Join(left, p, w1.n, c.red, f);
    assert BH(w1.l) == BH(w1.r) == BH(t);
    JoinBlack(left, t, c.n, Near(left, w1));
    assert Bal(f) && NoRedRed(f) && BH(f) == BH(t) + 1;
    PlugRedBlack(c.up, top);
    WholeIsPlug(c.up, top);
    RemoveRotatedOrder(c, t, w1);
  }

  lemma {:induction false} RemoveRotatedOrder(c: Ctx, t: Tree, w1: Tree)
    requires !c.Top? && w1.Br? && Far(c.InL?, w1).Br? && InOrder(w1) == InOrder(Sibling(c))
    ensures var left := c.InL?;
      Whole(c.up, Join(left, Join(left, t, c.n, false, Near(left, w1)), w1.n, c.red, Far(left, w1).(red := false)))
        == Whole(c, t)
  {
    var left := c.InL?;
    AboveFacts(c, t);
    var p := Join(left, t, c.n, false, Near(left, w1));
    var f := Far(left, w1).(red := false);
    assert InOrder(f) == InOrder(Far(left, w1));
    if left {
      RotLOrder(Br(t, c.n, c.red, w1));
      assert InOrder(p) == InOrder(Br(t, c.n, c.red, w1.l));
    } else {
      RotROrder(Br(w1, c.n, c.red, t));
      assert InOrder(p) == InOrder(Br(w1.r, c.n, c.red, t));
    }
  }

  // Leaving the loop, a blackened cursor makes up for the missing black node.
  lemma {:induction false} RemoveEnd(c: Ctx, t: Tree, done: bool)
    requires done ==> c.Top? && RedBlack(t)
    requires !done ==> !IsRed(t) && ((c.Top? && RemoveHole(c, t)) || (t.Br? && RemoveHole(c, t.(red := true))))
    ensures RedBlack(Plug(c, t)) && InOrder(Plug(c, t)) == Whole(c, t)
    ensures c.Top? ==> Whole(c, t) == InOrder(t)
  {
    WholeIsPlug(c, t);
    if !done && !c.Top? {
      assert CBal(c, BH(t));
      PlugRedBlack(c, t);
    }
  }

  // The nodes around the root of `t` are different nodes.
  lemma {:induction false} SubstituteSpots(m: Mem, c: Ctx, t: Tree)
    requires t.Br? && Disj(t) && Nodes(t) !! CNodes(c) && m.Keys == CNodes(c) + Nodes(t)
    ensures CNode(c) != null ==> CNode(c) in m && CNode(c) != t.n && CNode(c) != Root(t.l) && CNode(c) != Root(t.r)
    ensures t.l.Br? ==> t.l.n in m && t.l.n != t.n && t.l.n != Root(t.r)
    ensures t.r.Br? ==> t.r.n in m && t.r.n != t.n
  {
    assert CNode(c) != null ==> CNode(c) in CNodes(c);
    assert Root(t.l) != null ==> Root(t.l) in Nodes(t.l);
    assert Root(t.r) != null ==> Root(t.r) in Nodes(t.r);
  }

  // ---------- RB_REMOVE ----------

  /** `s'` is `s` without its one occurrence of `n`. */
  ghost predicate Removed(s: seq<Node>, s': seq<Node>, n: Node) {
    exists i :: 0 <= i < |s| && s[i] == n && s' == s[..i] + s[i + 1..]
  }

  lemma {:induction false} RemovedOrder(a: seq<Node>, n: Node, b: seq<Node>)
    requires Sorted(a + [n] + b)
    ensures Sorted(a + b) && Removed(a + [n] + b, a + b, n)
  {
    SortedDrop(a, n, b);
    var s := a + [n] + b;
    assert s[|a|] == n && s[..|a|] == a && s[|a| + 1..] == b;
  }

  ghost predicate OneChild(t: Tree, ch: Tree) {
    t.Br? && ((t.l.Leaf? && ch == t.r) || (t.r.Leaf? && ch == t.l))
  }

  // What is left after bypassing a node with at most one child.
  lemma {:induction false} RemoveColors(c: Ctx, t: Tree, ch: Tree)
    requires RedBlack(Plug(c, t)) && OneChild(t, ch)
    ensures if t.red then RedBlack(Plug(c, ch)) else RemoveHole(c, ch)
  {
    SplitRedBlack(c, t);
    if t.red {
      assert ch.Leaf?;
      PlugRedBlack(c, ch);
    }
  }

  lemma {:induction false} RemoveOrder(c: Ctx, t: Tree, ch: Tree)
    requires OneChild(t, ch) && Sorted(InOrder(Plug(c, t)))
    ensures InOrder(Plug(c, ch)) == Whole(c, ch) && Sorted(Whole(c, ch))
    ensures Removed(InOrder(Plug(c, t)), Whole(c, ch), t.n)
  {
    WholeIsPlug(c, t);
    WholeIsPlug(c, ch);
    WholeAround(c, t);
    var a, b := Before(c) + InOrder(t.l), InOrder(t.r) + After(c);
    assert Whole(c, ch) == a + b;
    RemovedOrder(a, t.n, b);
  }

  /** The path to the leftmost node only turns left. */
  ghost predicate LeftOnly(c: Ctx) {
    c.Top? || (c.InL? && LeftOnly(c.up))
  }

  lemma {:induction false} LeftOnlyBefore(c: Ctx)
    requires LeftOnly(c)
    ensures Before(c) == []
  {
    if !c.Top? {
      LeftOnlyBefore(c.up);
    }
  }

  // RB_REMOVE of a node with two children: its in-order successor `s`, the
  // root of `st`, is bypassed and takes over the place of the node.
  lemma {:induction false} SuccessorColors(c: Ctx, t: Tree, seg: Ctx, st: Tree)
    requires RedBlack(Plug(c, t)) && t.Br? && t.r == Plug(seg, st) && st.Br? && st.l.Leaf?
    ensures var c' := Comp(seg, InR(c, t.l, st.n, t.red));
      if st.red then RedBlack(Plug(c', st.r)) else RemoveHole(c', st.r)
  {
    var base, base' := InR(c, t.l, t.n, t.red), InR(c, t.l, st.n, t.red);
    var cs, c' := Comp(seg, base), Comp(seg, base');
    PlugComp(seg, base, st);
    assert Plug(cs, st) == Plug(c, t);
    SplitRedBlack(cs, st);
    CompColors(seg, c, t.l, t.n, st.n, t.red, BH(st), IsRed(st));
    CompColors(seg, c, t.l, t.n, st.n, t.red, BH(st), false);
    assert !c'.Top?;
    if st.red {
      assert st.r.Leaf?;
      CNoRedRedWeaken(c', true);
      PlugRedBlack(c', st.r);
    }
  }

  lemma {:induction false} CNoRedRedWeaken(c: Ctx, b: bool)
    requires CNoRedRed(c, b)
    ensures CNoRedRed(c, false)
  {
    match c
    case Top =>
    case InL(up, n, red, r) =>
    case InR(up, l, n, red) =>
  }

  lemma {:induction false} SuccessorOrder(c: Ctx, t: Tree, seg: Ctx, st: Tree)
    requires Sorted(InOrder(Plug(c, t))) && t.Br? && LeftOnly(seg) && t.r == Plug(seg, st) && st.Br? && st.l.Leaf?
    ensures var c' := Comp(seg, InR(c, t.l, st.n, t.red));
      && Plug(c', st.r) == Plug(c, Br(t.l, st.n, t.red, Plug(seg, st.r)))
      && Sorted(Whole(c', st.r)) && Removed(InOrder(Plug(c, t)), Whole(c', st.r), t.n)
  {
    var c' := Comp(seg, InR(c, t.l, st.n, t.red));
    PlugComp(seg, InR(c, t.l, st.n, t.red), st.r);
    WholeIsPlug(c', st.r);
    WholeIsPlug(c, Br(t.l, st.n, t.red, Plug(seg, st.r)));
    WholeIsPlug(c, t);
    SuccessorFirst(seg, st);
    SuccessorMoves(c, t, st.n, Plug(seg, st.r));
  }

  lemma {:induction false} SuccessorMoves(c: Ctx, t: Tree, s: Node, r': Tree)
    requires t.Br? && InOrder(t.r) == [s] + InOrder(r') && Sorted(Whole(c, t))
    ensures var w := Whole(c, Br(t.l, s, t.red, r')); Sorted(w) && Removed(Whole(c, t), w, t.n)
  {
    WholeAround(c, t);
    WholeAround(c, Br(t.l, s, t.red, r'));
    var a, b := Before(c) + InOrder(t.l), InOrder(r') + After(c);
    assert InOrder(t.r) + After(c) == [s] + b;
    assert a + ([s] + b) == a + [s] + b;
    RemovedOrder(a, t.n, [s] + b);
  }

  lemma {:induction false} MovePlugs(c: Ctx, t: Tree, seg: Ctx, st: Tree, s: Node)
    requires t.Br? && t.r == Plug(seg, st)
    ensures var base, base', r' := InR(c, t.l, t.n, t.red), InR(c, t.l, s, t.red), Plug(seg, st.r);
      && Plug(Comp(seg, base), st) == Plug(c, t)
      && Plug(Comp(seg, base), st.r) == Plug(c, Br(t.l, t.n, t.red, r'))
      && Plug(Comp(seg, base'), st.r) == Plug(c, Br(t.l, s, t.red, r'))
    requires st.Br?
  {
    PlugComp(seg, InR(c, t.l, t.n, t.red), st);
    PlugComp(seg, InR(c, t.l, t.n, t.red), st.r);
    PlugComp(seg, InR(c, t.l, s, t.red), st.r);
  }

  // The node at the end of the left spine comes first.
  lemma {:induction false} SuccessorFirst(seg: Ctx, st: Tree)
    requires LeftOnly(seg) && st.Br? && st.l.Leaf?
    ensures InOrder(Plug(seg, st)) == [st.n] + InOrder(Plug(seg, st.r))
  {
    LeftOnlyBefore(seg);
    WholeIsPlug(seg, st);
    WholeIsPlug(seg, st.r);
    assert InOrder(st) == [st.n] + InOrder(st.r);
    assert Whole(seg, st) == [st.n] + Whole(seg, st.r);
  }

  ghost function NodeSet(n: Node?): set<Node> {
    if n == null then {} else {n}
  }

  /** The tree head (RB_HEAD).  The ghost `m` repeats the link fields of the
      nodes in the tree, so that the proofs can reason about links as values. */
  class Head {
    var root: Node?
    ghost var m: Mem
    ghost var tree: Tree

    /** `m` agrees with the real fields. */
    ghost predicate Mirror()
      reads this, m.Keys
    {
      forall x :: x in m ==> m[x] == Rec(x.left, x.right, x.parent, x.red)
    }

    /** The linked nodes form exactly the tree `t`. */
    ghost predicate Holds(t: Tree)
      reads this, m.Keys
    {
      Mirror() && m.Keys == Nodes(t) && At(m, root, Top, t)
    }

    /** A well-formed red-black search tree. */
    ghost predicate Valid()
      reads this, m.Keys
    {
      Holds(tree) && RedBlack(tree) && Sorted(InOrder(tree))
    }

    /** The nodes in the tree, in key order. */
    ghost function Elements(): seq<Node>
      reads this
    {
      InOrder(tree)
    }

    constructor ()
      ensures Valid() && Elements() == []
    {
      root := null;
      m := map[];
      tree := Leaf;
    }

    method SetLeft(x: Node, v: Node?)
      requires Mirror() && x in m
      modifies this`m, x`left
      ensures Mirror() && m == old(m)[x := old(m)[x].(left := v)]
    {
      x.left := v;
      m := m[x := m[x].(left := v)];
    }

    method SetRight(x: Node, v: Node?)
      requires Mirror() && x in m
      modifies this`m, x`right
      ensures Mirror() && m == old(m)[x := old(m)[x].(right := v)]
    {
      x.right := v;
      m := m[x := m[x].(right := v)];
    }

    method SetParent(x: Node, v: Node?)
      requires Mirror() && x in m
      modifies this`m, x`parent
      ensures Mirror() && m == old(m)[x := old(m)[x].(parent := v)]
    {
      x.parent := v;
      m := m[x := m[x].(parent := v)];
    }

    method SetRed(x: Node, v: bool)
      requires Mirror() && x in m
      modifies this`m, x`red
      ensures Mirror() && m == old(m)[x := old(m)[x].(red := v)]
    {
      x.red := v;
      m := m[x := m[x].(red := v)];
    }

    // The fields around the cursor.
    lemma {:induction false} Here(c: Ctx, t: Tree)
      requires Holds(Plug(c, t))
      ensures m.Keys == CNodes(c) + Nodes(t) && At(m, root, c, t)
      ensures t.Br? ==>
        && t.n in m && t.n.left == Root(t.l) && t.n.right == Root(t.r)
        && t.n.parent == CNode(c) && t.n.red == t.red
      ensures !c.Top? ==>
        && c.n in m && c.n.parent == CNode(c.up) && c.n.red == c.red
        && (if c.InL? then c.n.left == Root(t) && c.n.right == Root(c.r)
            else c.n.left == Root(c.l) && c.n.right == Root(t))
      ensures c.Top? <==> root == Root(t)
      ensures c.InR? && t.Br? ==> Root(c.l) != t.n
      ensures c.InL? && t.Br? ==> Root(c.r) != t.n
    {
      AtPlug(m, root, c, t);
    }

    // `child->parent = parent` when there is a child.
    method Adopt(child: Node?, parent: Node?)
      requires Mirror() && (child != null ==> child in m)
      modifies this`m, m.Keys`parent
      ensures Mirror()
      ensures m == WithParent(old(m), child, parent)
    {
      if child != null {
        SetParent(child, parent);
      }
    }

    // The link that leads from `parent` (or from the root) to `elm` leads to `tmp` instead.
    method ReplaceChild(parent: Node?, elm: Node, tmp: Node?)
      requires Mirror() && (parent != null ==> parent in m)
      modifies this`root, this`m, m.Keys
      ensures Mirror()
      ensures root == (if parent == null then tmp else old(root)) && m == WithChild(old(m), parent, elm, tmp)
    {
      if parent != null {
        if parent.left == elm {
          SetLeft(parent, tmp);
        } else {
          SetRight(parent, tmp);
        }
      } else {
        root := tmp;
      }
    }

    // The assignments of RB_ROTATE_LEFT.
    method RotateLeftLinks(elm: Node) returns (tmp: Node)
      requires Mirror() && CanRotate(m, elm, elm.right, true)
      modifies this, m.Keys
      ensures Mirror() && tmp == old(elm.right) && m == RotLMem(old(m), elm)
      ensures root == if old(elm.parent) == null then tmp else old(root)
    {
      tmp := elm.right;
      SetRight(elm, tmp.left);
      Adopt(tmp.left, elm);
      SetParent(tmp, elm.parent);
      ReplaceChild(elm.parent, elm, tmp);
      SetLeft(tmp, elm);
      SetParent(elm, tmp);
    }

    // The assignments of RB_ROTATE_RIGHT.
    method RotateRightLinks(elm: Node) returns (tmp: Node)
      requires Mirror() && CanRotate(m, elm, elm.left, false)
      modifies this, m.Keys
      ensures Mirror() && tmp == old(elm.left) && m == RotRMem(old(m), elm)
      ensures root == if old(elm.parent) == null then tmp else old(root)
    {
      tmp := elm.left;
      SetLeft(elm, tmp.right);
      Adopt(tmp.right, elm);
      SetParent(tmp, elm.parent);
      ReplaceChild(elm.parent, elm, tmp);
      SetRight(tmp, elm);
      SetParent(elm, tmp);
    }

    method RotateLeft(elm: Node, ghost c: Ctx, ghost t: Tree) returns (tmp: Node)
      requires Holds(Plug(c, t)) && t.Br? && t.n == elm && t.r.Br?
      modifies this, m.Keys
      ensures tmp == t.r.n && Holds(Plug(c, RotL(t))) && m.Keys == old(m.Keys)
    {
      ghost var m0, root0 := m, root;
      Here(c, t);
      Spots(m, c, t.l, elm, t.red, t.r.l, t.r.n, t.r.red, t.r.r, t);
      tmp := RotateLeftLinks(elm);
      RotLMemRotated(m0, m, root0, root, elm, tmp);
      RotLLinked(m0, m, root0, root, c, t.l, elm, t.red, t.r.l, t.r.n, t.r.red, t.r.r);
      AtPlug(m, root, c, RotL(t));
    }

    method RotateRight(elm: Node, ghost c: Ctx, ghost t: Tree) returns (tmp: Node)
      requires Holds(Plug(c, t)) && t.Br? && t.n == elm && t.l.Br?
      modifies this, m.Keys
      ensures tmp == t.l.n && Holds(Plug(c, RotR(t))) && m.Keys == old(m.Keys)
    {
      ghost var m0, root0 := m, root;
      Here(c, t);
      SpotsR(m, c, t.l.l, t.l.n, t.l.red, t.l.r, elm, t.red, t.r, t);
      tmp := RotateRightLinks(elm);
      RotRMemRotated(m0, m, root0, root, elm, tmp);
      RotRLinked(m0, m, root0, root, c, t.l.l, t.l.n, t.l.red, t.l.r, elm, t.red, t.r);
      AtPlug(m, root, c, RotR(t));
    }

    method Paint(n: Node, red: bool, ghost c: Ctx, ghost t: Tree)
      requires Holds(Plug(c, t)) && t.Br? && t.n == n
      modifies this, m.Keys
      ensures Holds(Plug(c, t.(red := red))) && m.Keys == old(m.Keys)
    {
      ghost var m0 := m;
      Here(c, t);
      SetRed(n, red);
      PaintAt(m0, m, root, c, t, red);
    }

    // The body of the RB_INSERT_COLOR loop when `parent` is a left child.
    method InsertFixLeft(elm: Node, parent: Node, gparent: Node, ghost c: Ctx, ghost t: Tree)
      returns (elm': Node, ghost c': Ctx, ghost t': Tree)
      requires Holds(Plug(c, t)) && InsertHole(c, t) && t.n == elm
      requires !c.Top? && c.red && c.n == parent && c.up.InL? && c.up.n == gparent
      modifies this, m.Keys
      ensures Holds(Plug(c', t')) && m.Keys == old(m.Keys)
      ensures InsertHole(c', t') && t'.n == elm' && Whole(c', t') == Whole(c, t) && Depth(c') < Depth(c)
    {
      ghost var up, g, u, p := c.up.up, c.up.n, c.up.r, Above(c, t);
      InsertHoleUp(c, t);
      AboveFacts(c, t);
      AboveFacts(c.up, p);
      assert Plug(c.up, p) == Plug(InR(up, p, g, false), u);
      Here(c, t);
      Here(c.up, p);
      Here(InR(up, p, g, false), u);
      var tmp := gparent.right;
      if tmp != null && tmp.red {
        ghost var p', u' := p.(red := false), u.(red := false);
        Paint(tmp, false, InR(up, p, g, false), u);
        Paint(parent, false, InL(up, g, false, u'), p);
        Paint(gparent, true, up, Br(p', g, false, u'));
        elm', c', t' := gparent, up, Br(p', g, true, u');
        InsertRecolored(c, t, p, u);
        return;
      }
      elm' := elm;
      var par := parent;
      ghost var p1 := p;
      if parent.right == elm {
        tmp := RotateLeft(parent, c.up, p);
        p1 := RotL(p);
        tmp := par;
        par := elm';
        elm' := tmp;
      }
      ghost var p2 := p1.(red := false);
      Paint(par, false, InL(up, g, false, u), p1);
      Paint(gparent, true, up, Br(p2, g, false, u));
      tmp := RotateRight(gparent, up, Br(p2, g, true, u));
      c', t' := InL(up, p2.n, false, Br(p2.r, g, true, u)), p2.l;
      InsertRotatedLeft(c, t, p1);
    }

    // The body of the RB_INSERT_COLOR loop when `parent` is a right child.
    method InsertFixRight(elm: Node, parent: Node, gparent: Node, ghost c: Ctx, ghost t: Tree)
      returns (elm': Node, ghost c': Ctx, ghost t': Tree)
      requires Holds(Plug(c, t)) && InsertHole(c, t) && t.n == elm
      requires !c.Top? && c.red && c.n == parent && c.up.InR? && c.up.n == gparent
      modifies this, m.Keys
      ensures Holds(Plug(c', t')) && m.Keys == old(m.Keys)
      ensures InsertHole(c', t') && t'.n == elm' && Whole(c', t') == Whole(c, t) && Depth(c') < Depth(c)
    {
      ghost var up, g, u, p := c.up.up, c.up.n, c.up.l, Above(c, t);
      InsertHoleUp(c, t);
      AboveFacts(c, t);
      AboveFacts(c.up, p);
      assert Plug(c.up, p) == Plug(InL(up, g, false, p), u);
      Here(c, t);
      Here(c.up, p);
      Here(InL(up, g, false, p), u);
      var tmp := gparent.left;
      if tmp != null && tmp.red {
        ghost var p', u' := p.(red := false), u.(red := false);
        Paint(tmp, false, InL(up, g, false, p), u);
        Paint(parent, false, InR(up, u', g, false), p);
        Paint(gparent, true, up, Br(u', g, false, p'));
        elm', c', t' := gparent, up, Br(u', g, true, p');
        InsertRecolored(c, t, p, u);
        return;
      }
      elm' := elm;
      var par := parent;
      ghost var p1 := p;
      if parent.left == elm {
        tmp := RotateRight(parent, c.up, p);
        p1 := RotR(p);
        tmp := par;
        par := elm';
        elm' := tmp;
      }
      ghost var p2 := p1.(red := false);
      Paint(par, false, InR(up, u, g, false), p1);
      Paint(gparent, true, up, Br(u, g, false, p2));
      tmp := RotateLeft(gparent, up, Br(u, g, true, p2));
      c', t' := InR(up, Br(u, g, true, p2.l), p2.n, false), p2.r;
      InsertRotatedRight(c, t, p1);
    }

    /** RB_INSERT_COLOR: repair the colours above a newly linked red node. */
    method InsertColor(elm0: Node, ghost c0: Ctx, ghost t0: Tree) returns (ghost t': Tree, ghost turns: nat)
      requires Holds(Plug(c0, t0)) && InsertHole(c0, t0) && t0.n == elm0
      modifies this, m.Keys
      ensures Holds(t') && m.Keys == old(m.Keys)
      ensures RedBlack(t') && InOrder(t') == Whole(c0, t0) && turns <= Depth(c0)
    {
      var elm := elm0;
      ghost var c, t := c0, t0;
      turns := 0;
      Here(c, t);
      while elm.parent != null && elm.parent.red
        invariant Holds(Plug(c, t)) && m.Keys == old(m.Keys)
        invariant InsertHole(c, t) && t.n == elm && Whole(c, t) == Whole(c0, t0)
        invariant elm.parent == CNode(c) && (!c.Top? ==> c.n in m && c.n.red == c.red)
        invariant turns + Depth(c) <= Depth(c0)
        decreases Depth(c)
      {
        var parent := elm.parent;
        InsertHoleUp(c, t);
        AboveFacts(c, t);
        Here(c.up, Above(c, t));
        var gparent := parent.parent;
        if parent == gparent.left {
          elm, c, t := InsertFixLeft(elm, parent, gparent, c, t);
        } else {
          elm, c, t := InsertFixRight(elm, parent, gparent, c, t);
        }
        Here(c, t);
        turns := turns + 1;
      }
      WholeIsPlug(c, t);
      t' := Plug(c, t);
      Here(Top, t');
      Paint(root, false, Top, t');
      PaintRoot(c, t);
      t' := t'.(red := false);
    }

    lemma {:induction false} RootOfTree()
      requires Valid()
      ensures root == Root(tree)
    {
    }

    /** RB_FIND: the node with the given key. */
    method Find(key: int) returns (res: Node?, ghost turns: nat)
      requires Valid()
      ensures res != null ==> res in Elements() && res.key == key
      ensures res == null ==> forall x :: x in Elements() ==> x.key != key
      ensures Quick(turns, |Elements()|)
    {
      hide Mirror, At, Nodes, CNodes, RedBlack, Sorted, Quick;
      RootOfTree();
      var tmp := root;
      turns := 0;
      ghost var c, t := Top, tree;
      while tmp != null
        invariant Plug(c, t) == tree && tmp == Root(t) && Fits(c, key)
        invariant turns + Height(t) <= Height(tree)
        decreases t
      {
        Here(c, t);
        WholeIsPlug(c, t);
        if key < tmp.key {
          FitsLeft(c, t, key);
          tmp := tmp.left;
          c, t := InL(c, t.n, t.red, t.r), t.l;
        } else if tmp.key < key {
          FitsRight(c, t, key);
          tmp := tmp.right;
          c, t := InR(c, t.l, t.n, t.red), t.r;
        } else {
          WholeAround(c, t);
          QuickByHeight(tree, turns);
          return tmp, turns;
        }
        turns := turns + 1;
      }
      WholeIsPlug(c, t);
      FitsAbsent(c, key);
      QuickByHeight(tree, turns);
      return null, turns;
    }

    // The search loop of RB_INSERT: the node with the key, or the link where it belongs.
    method Seek(key: int) returns (tmp: Node?, parent: Node?, comp: int, ghost c: Ctx, ghost turns: nat)
      requires Valid()
      ensures tmp != null ==> tmp in Elements() && tmp.key == key
      ensures tmp == null ==>
        && Plug(c, Leaf) == tree && parent == CNode(c) && Fits(c, key)
        && (parent != null ==> parent in m && comp == if c.InL? then -1 else 1)
      ensures turns <= Height(tree)
    {
      hide Mirror, At, Nodes, CNodes, RedBlack, Sorted, Quick;
      RootOfTree();
      tmp, parent, comp, turns := root, null, 0, 0;
      c := Top;
      ghost var t := tree;
      while tmp != null
        invariant Plug(c, t) == tree && tmp == Root(t) && parent == CNode(c) && Fits(c, key)
        invariant parent != null ==> parent in m && comp == if c.InL? then -1 else 1
        invariant turns + Height(t) <= Height(tree)
        decreases t
      {
        Here(c, t);
        WholeIsPlug(c, t);
        parent := tmp;
        comp := if key < parent.key then -1 else if parent.key < key then 1 else 0;
        if comp < 0 {
          FitsLeft(c, t, key);
          tmp := tmp.left;
          c, t := InL(c, t.n, t.red, t.r), t.l;
        } else if comp > 0 {
          FitsRight(c, t, key);
          tmp := tmp.right;
          c, t := InR(c, t.l, t.n, t.red), t.r;
        } else {
          WholeAround(c, t);
          return;
        }
        turns := turns + 1;
      }
    }

    /** RB_INSERT: link `elm` unless its key is present already. */
    method Insert(elm: Node) returns (res: Node?, ghost down: nat, ghost up: nat)
      requires Valid()
      modifies this, m.Keys, elm
      ensures Valid()
      ensures m.Keys == if res == null then old(m.Keys) + {elm} else old(m.Keys)
      ensures res != null ==> res in old(Elements()) && res.key == elm.key && Elements() == old(Elements())
      ensures res == null ==> Inserted(old(Elements()), Elements(), elm)
      ensures Quick(down, |old(Elements())|) && Quick(up, |old(Elements())|)
    {
      var parent, comp;
      ghost var c;
      res, parent, comp, c, down := Seek(elm.key);
      QuickByHeight(tree, down);
      up := 0;
      QuickByHeight(tree, 0);
      if res != null {
        return;
      }
      up := InsertAt(elm, parent, comp, c);
    }

    method InsertAt(elm: Node, parent: Node?, comp: int, ghost c: Ctx) returns (ghost turns: nat)
      requires Valid() && Plug(c, Leaf) == tree && Fits(c, elm.key)
      requires parent == CNode(c) && (parent != null ==> parent in m && comp == if c.InL? then -1 else 1)
      modifies this, m.Keys, elm
      ensures Valid() && Inserted(old(Elements()), Elements(), elm) && m.Keys == old(m.Keys) + {elm}
      ensures Quick(turns, |old(Elements())|)
    {
      ghost var leaf := Br(Leaf, elm, true, Leaf);
      DepthPlug(c, Leaf);
      ghost var t0 := tree;
      InsertPlan(c, elm);
      Link(elm, parent, comp, c);
      ghost var t';
      t', turns := InsertColor(elm, c, leaf);
      QuickByHeight(t0, turns);
      tree := t';
    }

    // RB_SET
    method InitFields(elm: Node, parent: Node?)
      requires Mirror() && elm !in m
      modifies this`m, elm
      ensures Mirror() && m == old(m)[elm := Rec(null, null, parent, true)]
    {
      elm.parent := parent;
      elm.left, elm.right := null, null;
      elm.red := true;
      m := m[elm := Rec(null, null, parent, true)];
    }

    // RB_SET and the assignment to the link that the search ended on.
    method LinkFields(elm: Node, parent: Node?, comp: int)
      requires Mirror() && elm !in m && (parent != null ==> parent in m)
      modifies this`root, this`m, NodeSet(parent), elm
      ensures Mirror() && m.Keys == old(m.Keys) + {elm} && m[elm] == Rec(null, null, parent, true)
      ensures parent == null ==> root == elm
      ensures parent != null ==>
        && root == old(root)
        && m[parent] == if comp < 0 then old(m)[parent].(left := elm) else old(m)[parent].(right := elm)
      ensures forall k :: k in old(m) && k != parent ==> m[k] == old(m)[k]
    {
      InitFields(elm, parent);
      if parent != null {
        if comp < 0 {
          SetLeft(parent, elm);
        } else {
          SetRight(parent, elm);
        }
      } else {
        root := elm;
      }
    }

    method Link(elm: Node, parent: Node?, comp: int, ghost c: Ctx)
      requires Holds(Plug(c, Leaf)) && elm !in m && parent == CNode(c)
      requires !c.Top? ==> comp == if c.InL? then -1 else 1
      modifies this, NodeSet(parent), elm
      ensures Holds(Plug(c, Br(Leaf, elm, true, Leaf)))
      ensures m.Keys == old(m.Keys) + {elm} && tree == old(tree)
    {
      ghost var m0, root0 := m, root;
      Here(c, Leaf);
      LinkFields(elm, parent, comp);
      LinkNew(m0, m, root0, root, c, elm);
      AtPlug(m, root, c, Br(Leaf, elm, true, Leaf));
    }

    // RB_REMOVE_COLOR, sibling on the right and red.
    method RemoveRedStepLeft(parent: Node, ghost c: Ctx, ghost t: Tree) returns (ghost c': Ctx)
      requires Holds(Plug(c, t)) && RemoveHole(c, t) && c.InL? && c.n == parent && IsRed(c.r)
      modifies this, m.Keys
      ensures Holds(Plug(c', t)) && m.Keys == old(m.Keys)
      ensures RemoveHole(c', t) && Whole(c', t) == Whole(c, t)
      ensures c'.InL? && c'.n == parent && c'.red && !IsRed(Sibling(c'))
    {
      ghost var w := c.r;
      ghost var w' := w.(red := false);
      assert Plug(c, t) == Plug(InR(c.up, t, c.n, c.red), w);
      Here(c, t);
      RemoveRedSibling(c, t, true);
      RemoveHoleSibling(c, t);
      Paint(parent.right, false, InR(c.up, t, c.n, c.red), w);
      Paint(parent, true, c.up, Br(t, c.n, c.red, w'));
      var tmp := RotateLeft(parent, c.up, Br(t, c.n, true, w'));
      c' := Hole(true, Hole(true, c.up, w.n, false, Far(true, w)), c.n, true, Near(true, w));
    }

    // RB_REMOVE_COLOR, sibling on the right and black.
    method RemoveBlackStepLeft(parent: Node, tmp0: Node, ghost c: Ctx, ghost t: Tree)
      returns (done: bool, elm': Node?, parent': Node?, ghost c': Ctx, ghost t': Tree)
      requires Holds(Plug(c, t)) && RemoveHole(c, t) && !IsRed(t) && c.InL? && c.n == parent
      requires !IsRed(c.r) && tmp0 == parent.right && parent.right != null
      modifies this, m.Keys
      ensures Holds(Plug(c', t')) && m.Keys == old(m.Keys) && elm' == Root(t')
      ensures !done ==> RemoveHole(c', t') && Whole(c', t') == Whole(c, t)
      ensures !done ==> parent' == CNode(c') && c' == c.up && IsRed(t') == c.red
      ensures done ==> c'.Top? && RedBlack(t') && InOrder(t') == Whole(c, t)
    {
      ghost var w, sc := c.r, InR(c.up, t, c.n, c.red);
      var tmp := tmp0;
      assert Plug(c, t) == Plug(sc, w);
      Here(c, t);
      Here(sc, w);
      WholeIsPlug(sc, w);
      assert w.l.Br? ==> w.l.n.red == w.l.red by { Here(InL(sc, w.n, w.red, w.r), w.l); }
      assert w.r.Br? ==> w.r.n.red == w.r.red by { Here(InR(sc, w.l, w.n, w.red), w.r); }
      if (tmp.left == null || !tmp.left.red) && (tmp.right == null || !tmp.right.red) {
        RemoveBlackNephews(c, t);
        Paint(tmp, true, sc, w);
        done, elm' := false, parent;
        c', t' := c.up, Join(true, t, c.n, c.red, w.(red := true));
        Here(c', t');
        parent' := elm'.parent;
        return;
      }
      RemoveFinished(c, t);
      tmp := TurnFarLeft(parent, tmp, c, t);
      FinishRotateLeft(parent, tmp, c, t, FarRed(true, w));
      done, parent' := true, null;
      c', t' := Top, RemoveRotated(c, t, FarRed(true, w));
      Here(Top, t');
      elm' := root;
    }

    // A black far nephew: the red near nephew rotates to the far side.
    method TurnFarLeft(parent: Node, tmp: Node, ghost c: Ctx, ghost t: Tree) returns (tmp': Node)
      requires Holds(Plug(c, t)) && c.InL? && c.n == parent
      requires c.r.Br? && !c.r.red && tmp == c.r.n && (IsRed(c.r.l) || IsRed(c.r.r))
      modifies this, m.Keys
      ensures m.Keys == old(m.Keys)
      ensures var w1 := FarRed(true, c.r);
        w1.Br? && tmp' == w1.n && Holds(Plug(c.(r := w1), t))
    {
      ghost var w, sc := c.r, InR(c.up, t, c.n, c.red);
      ghost var nc, fc := InL(sc, w.n, w.red, w.r), InR(sc, w.l, w.n, w.red);
      assert Plug(c, t) == Plug(sc, w) == Plug(nc, w.l) == Plug(fc, w.r);
      Here(sc, w);
      Here(nc, w.l);
      Here(fc, w.r);
      tmp' := tmp;
      if tmp.right == null || !tmp.right.red {
        var inner := tmp.left;
        if inner != null {
          Paint(inner, false, nc, w.l);
        }
        ghost var o' := w.l.(red := false);
        Paint(tmp, true, sc, Br(o', w.n, false, w.r));
        inner := RotateRight(tmp, sc, Br(o', w.n, true, w.r));
        Here(c.(r := FarRed(true, w)), t);
        tmp' := parent.right;
      }
    }

    // The last rotation: the sibling takes the colour of the parent.
    method FinishRotateLeft(parent: Node, tmp: Node, ghost c: Ctx, ghost t: Tree, ghost w: Tree)
      requires c.InL? && w.Br? && !w.red && IsRed(Far(true, w)) && Holds(Plug(c.(r := w), t))
      requires c.n == parent && w.n == tmp
      modifies this, m.Keys
      ensures m.Keys == old(m.Keys) && Holds(RemoveRotated(c, t, w))
    {
      ghost var sc := InR(c.up, t, c.n, c.red);
      assert Plug(c.(r := w), t) == Plug(sc, w);
      Here(c.(r := w), t);
      Paint(tmp, parent.red, sc, w);
      ghost var w1 := w.(red := c.red);
      Paint(parent, false, c.up, Br(t, c.n, c.red, w1));
      ghost var fc := InR(InR(c.up, t, c.n, false), w1.l, w1.n, w1.red);
      assert Plug(c.up, Br(t, c.n, false, w1)) == Plug(fc, w1.r);
      Here(fc.up, w1);
      if tmp.right != null {
        Paint(tmp.right, false, fc, w1.r);
      }
      assert Plug(fc, w1.r.(red := false)) == Plug(c.up, Br(t, c.n, false, w1.(r := w1.r.(red := false))));
      var top := RotateLeft(parent, c.up, Br(t, c.n, false, w1.(r := w1.r.(red := false))));
    }

    // RB_REMOVE_COLOR, sibling on the left and red.
    method RemoveRedStepRight(parent: Node, ghost c: Ctx, ghost t: Tree) returns (ghost c': Ctx)
      requires Holds(Plug(c, t)) && RemoveHole(c, t) && c.InR? && c.n == parent && IsRed(c.l)
      modifies this, m.Keys
      ensures Holds(Plug(c', t)) && m.Keys == old(m.Keys)
      ensures RemoveHole(c', t) && Whole(c', t) == Whole(c, t)
      ensures c'.InR? && c'.n == parent && c'.red && !IsRed(Sibling(c'))
    {
      ghost var w := c.l;
      ghost var w' := w.(red := false);
      assert Plug(c, t) == Plug(InL(c.up, c.n, c.red, t), w);
      Here(c, t);
      RemoveRedSibling(c, t, false);
      RemoveHoleSibling(c, t);
      Paint(parent.left, false, InL(c.up, c.n, c.red, t), w);
      Paint(parent, true, c.up, Br(w', c.n, c.red, t));
      var tmp := RotateRight(parent, c.up, Br(w', c.n, true, t));
      c' := Hole(false, Hole(false, c.up, w.n, false, Far(false, w)), c.n, true, Near(false, w));
    }

    // RB_REMOVE_COLOR, sibling on the left and black.
    method RemoveBlackStepRight(parent: Node, tmp0: Node, ghost c: Ctx, ghost t: Tree)
      returns (done: bool, elm': Node?, parent': Node?, ghost c': Ctx, ghost t': Tree)
      requires Holds(Plug(c, t)) && RemoveHole(c, t) && !IsRed(t) && c.InR? && c.n == parent
      requires !IsRed(c.l) && tmp0 == parent.left && parent.left != null
      modifies this, m.Keys
      ensures Holds(Plug(c', t')) && m.Keys == old(m.Keys) && elm' == Root(t')
      ensures !done ==> RemoveHole(c', t') && Whole(c', t') == Whole(c, t)
      ensures !done ==> parent' == CNode(c') && c' == c.up && IsRed(t') == c.red
      ensures done ==> c'.Top? && RedBlack(t') && InOrder(t') == Whole(c, t)
    {
      ghost var w, sc := c.l, InL(c.up, c.n, c.red, t);
      var tmp := tmp0;
      assert Plug(c, t) == Plug(sc, w);
      Here(c, t);
      Here(sc, w);
      WholeIsPlug(sc, w);
      assert w.l.Br? ==> w.l.n.red == w.l.red by { Here(InL(sc, w.n, w.red, w.r), w.l); }
      assert w.r.Br? ==> w.r.n.red == w.r.red by { Here(InR(sc, w.l, w.n, w.red), w.r); }
      if (tmp.left == null || !tmp.left.red) && (tmp.right == null || !tmp.right.red) {
        RemoveBlackNephews(c, t);
        Paint(tmp, true, sc, w);
        done, elm' := false, parent;
        c', t' := c.up, Join(false, t, c.n, c.red, w.(red := true));
        Here(c', t');
        parent' := elm'.parent;
        return;
      }
      RemoveFinished(c, t);
      tmp := TurnFarRight(parent, tmp, c, t);
      FinishRotateRight(parent, tmp, c, t, FarRed(false, w));
      done, parent' := true, null;
      c', t' := Top, RemoveRotated(c, t, FarRed(false, w));
      Here(Top, t');
      elm' := root;
    }

    // A black far nephew: the red near nephew rotates to the far side.
    method TurnFarRight(parent: Node, tmp: Node, ghost c: Ctx, ghost t: Tree) returns (tmp': Node)
      requires Holds(Plug(c, t)) && c.InR? && c.n == parent
      requires c.l.Br? && !c.l.red && tmp == c.l.n && (IsRed(c.l.l) || IsRed(c.l.r))
      modifies this, m.Keys
      ensures m.Keys == old(m.Keys)
      ensures var w1 := FarRed(false, c.l);
        w1.Br? && tmp' == w1.n && Holds(Plug(c.(l := w1), t))
    {
      ghost var w, sc := c.l, InL(c.up, c.n, c.red, t);
      ghost var nc, fc := InR(sc, w.l, w.n, w.red), InL(sc, w.n, w.red, w.r);
      assert Plug(c, t) == Plug(sc, w) == Plug(nc, w.r) == Plug(fc, w.l);
      Here(sc, w);
      Here(nc, w.r);
      Here(fc, w.l);
      tmp' := tmp;
      if tmp.left == null || !tmp.left.red {
        var inner := tmp.right;
        if inner != null {
          Paint(inner, false, nc, w.r);
        }
        ghost var o' := w.r.(red := false);
        Paint(tmp, true, sc, Br(w.l, w.n, false, o'));
        inner := RotateLeft(tmp, sc, Br(w.l, w.n, true, o'));
        Here(c.(l := FarRed(false, w)), t);
        tmp' := parent.left;
      }
    }

    // The last rotation: the sibling takes the colour of the parent.
    method FinishRotateRight(parent: Node, tmp: Node, ghost c: Ctx, ghost t: Tree, ghost w: Tree)
      requires c.InR? && w.Br? && !w.red && IsRed(Far(false, w)) && Holds(Plug(c.(l := w), t))
      requires c.n == parent && w.n == tmp
      modifies this, m.Keys
      ensures m.Keys == old(m.Keys) && Holds(RemoveRotated(c, t, w))
    {
      ghost var sc := InL(c.up, c.n, c.red, t);
      assert Plug(c.(l := w), t) == Plug(sc, w);
      Here(c.(l := w), t);
      Paint(tmp, parent.red, sc, w);
      ghost var w1 := w.(red := c.red);
      Paint(parent, false, c.up, Br(w1, c.n, c.red, t));
      ghost var fc := InL(InL(c.up, c.n, false, t), w1.n, w1.red, w1.r);
      assert Plug(c.up, Br(w1, c.n, false, t)) == Plug(fc, w1.l);
      Here(fc.up, w1);
      if tmp.left != null {
        Paint(tmp.left, false, fc, w1.l);
      }
      assert Plug(fc, w1.l.(red := false)) == Plug(c.up, Br(w1.(l := w1.l.(red := false)), c.n, false, t));
      var top := RotateRight(parent, c.up, Br(w1.(l := w1.l.(red := false)), c.n, false, t));
    }

    // One turn of the RB_REMOVE_COLOR loop.
    method RemoveStep(parent: Node, elm: Node?, ghost c: Ctx, ghost t: Tree)
      returns (done: bool, elm': Node?, parent': Node?, ghost c': Ctx, ghost t': Tree)
      requires Holds(Plug(c, t)) && RemoveHole(c, t) && !IsRed(t) && !c.Top?
      requires elm == Root(t) && parent == c.n
      modifies this, m.Keys
      ensures Holds(Plug(c', t')) && m.Keys == old(m.Keys) && elm' == Root(t')
      ensures Repairing(done, c', t', Whole(c, t))
      ensures (!done ==> parent' == CNode(c')) && TurnsLeft(done, c', t') < Depth(c)
      ensures t'.Br? ==> t'.n in m && t'.n.red == t'.red
      ensures c'.Top? <==> root == Root(t')
    {
      hide TurnsLeft, Depth;
      ghost var c1 := c;
      Here(c, t);
      RemoveHoleSibling(c, t);
      SiblingHere(c, t);
      if parent.left == elm {
        var tmp := parent.right;
        if tmp.red {
          c1 := RemoveRedStepLeft(parent, c, t);
          RemoveHoleSibling(c1, t);
          Here(c1, t);
          tmp := parent.right;
        }
        done, elm', parent', c', t' := RemoveBlackStepLeft(parent, tmp, c1, t);
      } else {
        var tmp := parent.left;
        if tmp.red {
          c1 := RemoveRedStepRight(parent, c, t);
          RemoveHoleSibling(c1, t);
          Here(c1, t);
          tmp := parent.left;
        }
        done, elm', parent', c', t' := RemoveBlackStepRight(parent, tmp, c1, t);
      }
      Fewer(c, c1, done, c', t');
      Here(c', t');
    }

    // Which side the cursor is on, and the colour of its sibling, can be read off the fields.
    lemma {:induction false} SiblingHere(c: Ctx, t: Tree)
      requires Holds(Plug(c, t)) && !c.Top? && Sibling(c).Br?
      ensures c.n in m && (c.n.left == Root(t) <==> c.InL?)
      ensures (if c.InL? then c.n.right else c.n.left) == Sibling(c).n
      ensures Sibling(c).n in m && Sibling(c).n.red == Sibling(c).red
    {
      Here(c, t);
      if c.InL? {
        Here(InR(c.up, t, c.n, c.red), c.r);
      } else {
        Here(InL(c.up, c.n, c.red, t), c.l);
      }
    }

    /** RB_REMOVE_COLOR: restore the black heights above a cursor that lost one. */
    method RemoveColor(parent0: Node?, elm0: Node?, ghost c0: Ctx, ghost t0: Tree) 
      returns (ghost t': Tree, ghost turns: nat)
      requires Holds(Plug(c0, t0)) && RemoveHole(c0, t0) && elm0 == Root(t0) && parent0 == CNode(c0)
      modifies this, m.Keys
      ensures Holds(t') && m.Keys == old(m.Keys)
      ensures RedBlack(t') && InOrder(t') == Whole(c0, t0) && turns <= Depth(c0)
    {
      var parent, elm, done := parent0, elm0, false;
      ghost var c, t, w := c0, t0, Whole(c0, t0);
      turns := 0;
      Here(c, t);
      hide Mirror, At, Plug, Nodes, CNodes, RedBlack, Whole, Repairing, RemoveHole;
      while !done && (elm == null || !elm.red) && elm != root
        invariant Holds(Plug(c, t)) && m.Keys == old(m.Keys) && elm == Root(t)
        invariant t.Br? ==> t.n in m && t.n.red == t.red
        invariant c.Top? <==> root == Root(t)
        invariant Repairing(done, c, t, w) && (!done ==> parent == CNode(c))
        invariant turns + TurnsLeft(done, c, t) <= Depth(c0)
        decreases TurnsLeft(done, c, t)
      {
        done, elm, parent, c, t := RemoveStep(parent, elm, c, t);
        turns := turns + 1;
      }
      t' := BlackenAtEnd(elm, done, c, t, w);
    }

    method BlackenAtEnd(elm: Node?, ghost done: bool, ghost c: Ctx, ghost t: Tree, ghost w: seq<Node>)
      returns (ghost t': Tree)
      requires Holds(Plug(c, t)) && elm == Root(t) && Repairing(done, c, t, w)
      requires !done ==> c.Top? || IsRed(t)
      modifies this, m.Keys
      ensures Holds(t') && m.Keys == old(m.Keys) && RedBlack(t') && InOrder(t') == w
    {
      t' := Plug(c, t);
      if elm != null {
        Paint(elm, false, c, t);
        t' := Plug(c, t.(red := false));
      }
      RemoveEnd(c, if t.Br? then t.(red := false) else t, done);
    }

    ghost method Forget(x: Node)
      requires Mirror()
      modifies this`m
      ensures Mirror() && m == old(m) - {x}
    {
      m := m - {x};
    }

    // The first half of RB_REMOVE: `child` takes the place of `x` below `parent`.
    method BypassFields(x: Node, child: Node?, parent: Node?)
      requires Mirror() && x in m && (child != null ==> child in m) && (parent != null ==> parent in m)
      requires child != parent || child == null
      modifies this`root, this`m, m.Keys
      ensures Mirror() && m.Keys == old(m.Keys)
      ensures child != null ==> m[child] == old(m)[child].(parent := parent)
      ensures Redirected(old(m), m, old(root), root, parent, x, child)
      ensures forall k :: k in m && k != child && k != parent ==> m[k] == old(m)[k]
    {
      Adopt(child, parent);
      ReplaceChild(parent, x, child);
    }

    lemma {:induction false} UnlinkSpots(x: Node, child: Node?, parent: Node?, c: Ctx, t: Tree, ch: Tree)
      requires Holds(Plug(c, t)) && OneChild(t, ch) && t.n == x && child == Root(ch) && parent == CNode(c)
      ensures At(m, root, c, t) && Mirror() && m.Keys == CNodes(c) + Nodes(t)
      ensures x in m && x.parent == parent && (child == null || child != parent)
      ensures (child != null ==> child in m) && (parent != null ==> parent in m)
    {
      Here(c, t);
      assert child != null ==> child in Nodes(t);
      assert parent != null ==> parent in CNodes(c);
    }

    // Take `x`, whose only child is `child`, out of the tree.
    method Unlink(x: Node, child: Node?, parent: Node?, ghost c: Ctx, ghost t: Tree, ghost ch: Tree)
      requires Holds(Plug(c, t)) && OneChild(t, ch) && t.n == x && child == Root(ch) && parent == CNode(c)
      modifies this`root, this`m, m.Keys
      ensures Holds(Plug(c, ch)) && m.Keys == old(m.Keys) - {x} && x.parent == parent
    {
      ghost var m0, root0 := m, root;
      UnlinkSpots(x, child, parent, c, t, ch);
      hide Mirror, At, Plug, Nodes, CNodes, OneChild, Redirected;
      BypassFields(x, child, parent);
      Unlinked(m0, m, root0, root, c, t, ch);
      Forget(x);
    }

    // `(elm)->field = (old)->field` and the links to `old`, which lead to `elm` from now on.
    method SubstituteFields(x: Node, elm: Node)
      requires Mirror() && CanSubstitute(m, x) && elm !in m
      modifies this`root, this`m, m.Keys, elm
      ensures Mirror() && m == SubstMem(old(m), x, elm)
      ensures root == if old(m)[x].parent == null then elm else old(root)
    {
      var left, right, parent := x.left, x.right, x.parent;
      assert m[x] == Rec(left, right, parent, x.red);
      hide Mirror;
      CopyFields(x, elm);
      ReplaceChild(parent, x, elm);
      SetParent(left, elm);
      Adopt(right, elm);
      Forget(x);
    }

    method CopyFields(x: Node, elm: Node)
      requires Mirror() && x in m && elm !in m
      modifies this`m, elm
      ensures Mirror() && m == old(m)[elm := old(m)[x]]
    {
      elm.left, elm.right, elm.parent, elm.red := x.left, x.right, x.parent, x.red;
      m := m[elm := m[x]];
    }

    method Substitute(old': Node, elm: Node, ghost c: Ctx, ghost t: Tree)
      requires Holds(Plug(c, t)) && t.Br? && t.n == old' && t.l.Br? && elm !in m
      modifies this`root, this`m, m.Keys, elm
      ensures Holds(Plug(c, t.(n := elm))) && m.Keys == old(m.Keys) - {old'} + {elm}
    {
      ghost var m0, root0 := m, root;
      Here(c, t);
      SubstituteSpots(m, c, t);
      hide Mirror, At, Plug, Nodes, CNodes, SubstMem;
      SubstituteFields(old', elm);
      SubstMemFacts(m0, m, root0, root, old', elm);
      SubstituteAt(m0, m, root0, root, c, t, elm);
    }

    // The tail of RB_REMOVE: repair the colours if a black node has been unlinked.
    method RepairAfter(red: bool, parent: Node?, child: Node?, ghost c: Ctx, ghost ch: Tree)
      returns (ghost turns: nat)
      requires Holds(Plug(c, ch)) && child == Root(ch) && parent == CNode(c)
      requires if red then RedBlack(Plug(c, ch)) else RemoveHole(c, ch)
      modifies this, m.Keys
      ensures Holds(tree) && RedBlack(tree) && InOrder(tree) == Whole(c, ch) && m.Keys == old(m.Keys)
      ensures turns <= Depth(c)
    {
      WholeIsPlug(c, ch);
      if red {
        tree := Plug(c, ch);
        turns := 0;
      } else {
        ghost var t';
        t', turns := RemoveColor(parent, child, c, ch);
        tree := t';
      }
    }

    // RB_REMOVE of a node with at most one child.
    method RemoveOuter(elm: Node, child: Node?, ghost c: Ctx, ghost t: Tree, ghost ch: Tree)
      returns (ghost turns: nat)
      requires Valid() && Plug(c, t) == tree && OneChild(t, ch) && t.n == elm && child == Root(ch)
      modifies this, m.Keys
      ensures Valid() && Removed(old(Elements()), Elements(), elm) && m.Keys == old(m.Keys) - {elm}
      ensures Quick(turns, |old(Elements())|)
    {
      ghost var t0 := tree;
      DepthPlug(c, t);
      Here(c, t);
      RemoveColors(c, t, ch);
      RemoveOrder(c, t, ch);
      var parent, red := elm.parent, elm.red;
      Unlink(elm, child, parent, c, t, ch);
      turns := RepairAfter(red, parent, child, c, ch);
      QuickByHeight(t0, turns);
    }

    // RB_REMOVE of a node with two children.
    method RemoveInner(elm: Node, ghost c: Ctx, ghost t: Tree) returns (ghost down: nat, ghost up: nat)
      requires Valid() && Plug(c, t) == tree && t.Br? && t.l.Br? && t.r.Br? && t.n == elm
      modifies this, m.Keys
      ensures Valid() && Removed(old(Elements()), Elements(), elm) && m.Keys == old(m.Keys) - {elm}
      ensures Quick(down, |old(Elements())|) && Quick(up, |old(Elements())|)
    {
      ghost var t0 := tree;
      Here(c, t);
      var succ;
      ghost var seg, st;
      succ, seg, st, down := Leftmost(elm.right, c, t);
      SuccessorDepth(c, t, seg, st, succ);
      SuccessorColors(c, t, seg, st);
      SuccessorOrder(c, t, seg, st);
      SuccessorHere(elm, succ, c, t, seg, st);
      var child, parent, red := succ.right, succ.parent, succ.red;
      MoveSuccessor(elm, succ, child, parent, c, t, seg, st);
      if parent == elm {
        parent := succ;
      }
      up := RepairAfter(red, parent, child, Comp(seg, InR(c, t.l, succ, t.red)), st.r);
      QuickByHeight(t0, down);
      QuickByHeight(t0, up);
    }

    // The place of the successor is no deeper than the tree.
    lemma {:induction false} SuccessorDepth(c: Ctx, t: Tree, seg: Ctx, st: Tree, succ: Node)
      requires t.Br? && t.r == Plug(seg, st)
      ensures Depth(Comp(seg, InR(c, t.l, succ, t.red))) <= Height(Plug(c, t))
      ensures Depth(seg) <= Height(Plug(c, t))
    {
      DepthComp(seg, InR(c, t.l, succ, t.red));
      DepthPlug(seg, st);
      DepthPlug(c, t);
    }

    // The successor leaves its place and takes that of `elm`.
    method MoveSuccessor(elm: Node, succ: Node, child: Node?, parent: Node?,
                         ghost c: Ctx, ghost t: Tree, ghost seg: Ctx, ghost st: Tree)
      requires Holds(Plug(c, t)) && t.Br? && t.l.Br? && t.n == elm && t.r == Plug(seg, st)
      requires st.Br? && st.n == succ && st.l.Leaf?
      requires child == Root(st.r) && parent == CNode(Comp(seg, InR(c, t.l, elm, t.red)))
      modifies this`root, this`m, m.Keys
      ensures Holds(Plug(Comp(seg, InR(c, t.l, succ, t.red)), st.r)) && m.Keys == old(m.Keys) - {elm}
    {
      ghost var base, base', r' := InR(c, t.l, elm, t.red), InR(c, t.l, succ, t.red), Plug(seg, st.r);
      MovePlugs(c, t, seg, st, succ);
      SuccessorApart(elm, succ, c, t, seg, st);
      Unlink(succ, child, parent, Comp(seg, base), st, st.r);
      Substitute(elm, succ, c, Br(t.l, elm, t.red, r'));
    }

    lemma {:induction false} SuccessorApart(elm: Node, succ: Node, c: Ctx, t: Tree, seg: Ctx, st: Tree)
      requires Holds(Plug(c, t)) && t.Br? && t.n == elm && t.r == Plug(seg, st) && st.Br? && st.n == succ
      ensures elm in m && succ in m && succ != elm
    {
      AtPlug(m, root, c, t);
      AtPlug(m, root, seg, st);
      assert succ in Nodes(t.r);
    }

    // The loop that finds the successor: down to the right child, then left.
    method Leftmost(start: Node, ghost c: Ctx, ghost t: Tree) 
      returns (elm: Node, ghost seg: Ctx, ghost st: Tree, ghost turns: nat)
      requires Holds(Plug(c, t)) && t.Br? && t.r.Br? && start == t.r.n
      ensures LeftOnly(seg) && t.r == Plug(seg, st) && st.Br? && st.l.Leaf? && st.n == elm && turns <= Depth(seg)
    {
      elm, seg, st, turns := start, Top, t.r, 0;
      ghost var base := InR(c, t.l, t.n, t.red);
      PlugComp(seg, base, st);
      Here(Comp(seg, base), st);
      var left := elm.left;
      while left != null
        invariant LeftOnly(seg) && t.r == Plug(seg, st) && st.Br? && st.n == elm && left == Root(st.l) && turns <= Depth(seg)
        decreases st
      {
        elm := left;
        seg, st := InL(seg, st.n, st.red, st.r), st.l;
        PlugComp(seg, base, st);
        Here(Comp(seg, base), st);
        left := elm.left;
        turns := turns + 1;
      }
    }

    lemma {:induction false} SuccessorHere(elm: Node, succ: Node, c: Ctx, t: Tree, seg: Ctx, st: Tree)
      requires Holds(Plug(c, t)) && t.Br? && t.n == elm && t.r == Plug(seg, st) && st.Br? && st.n == succ && st.l.Leaf?
      ensures var base, base' := InR(c, t.l, elm, t.red), InR(c, t.l, succ, t.red);
        && Plug(Comp(seg, base), st) == Plug(c, t)
        && succ in m && succ.left == null && succ.right == Root(st.r) && succ.red == st.red
        && succ.parent == CNode(Comp(seg, base))
        && CNode(Comp(seg, base')) == if succ.parent == elm then succ else succ.parent
    {
      var base := InR(c, t.l, elm, t.red);
      PlugComp(seg, base, st);
      Here(Comp(seg, base), st);
      Here(c, t);
      if !seg.Top? {
        AtPlug(m, root, seg, st);
        assert seg.n in Nodes(t.r);
      }
    }

    /** RB_REMOVE: unlink `elm`, which is in the tree. */
    method Remove(elm: Node) returns (ghost down: nat, ghost up: nat)
      requires Valid() && elm in Elements()
      modifies this, m.Keys
      ensures Valid() && Removed(old(Elements()), Elements(), elm) && m.Keys == old(m.Keys) - {elm}
      ensures Quick(down, |old(Elements())|) && Quick(up, |old(Elements())|)
    {
      InOrderNode(tree, elm);
      ghost var c, t := Locate(Top, tree, elm);
      Here(c, t);
      down := 0;
      QuickByHeight(tree, 0);
      if elm.left == null {
        up := RemoveOuter(elm, elm.right, c, t, t.r);
      } else if elm.right == null {
        up := RemoveOuter(elm, elm.left, c, t, t.l);
      } else {
        down, up := RemoveInner(elm, c, t);
      }
    }

    /** RB_NFIND: the first node whose key is not below `key`. */
    method NFind(key: int) returns (res: Node?, ghost turns: nat)
      requires Valid()
      ensures res == null ==> forall x :: x in Elements() ==> x.key < key
      ensures res != null ==>
        && res in Elements() && key <= res.key
        && forall x :: x in Elements() && key <= x.key ==> res.key <= x.key
      ensures Quick(turns, |Elements()|)
    {
      hide Mirror, At, Nodes, CNodes, RedBlack, Sorted, Quick;
      RootOfTree();
      var tmp := root;
      turns := 0;
      res := null;
      ghost var c, t := Top, tree;
      while tmp != null
        invariant Plug(c, t) == tree && tmp == Root(t) && Fits(c, key) && res == First(After(c))
        invariant turns + Height(t) <= Height(tree)
        decreases t
      {
        Here(c, t);
        WholeIsPlug(c, t);
        if key < tmp.key {
          FitsLeft(c, t, key);
          res := tmp;
          tmp := tmp.left;
          c, t := InL(c, t.n, t.red, t.r), t.l;
        } else if tmp.key < key {
          FitsRight(c, t, key);
          tmp := tmp.right;
          c, t := InR(c, t.l, t.n, t.red), t.r;
        } else {
          WholeAround(c, t);
          SortedKeysInjective(Whole(c, t));
          QuickByHeight(tree, turns);
          return tmp, turns;
        }
        turns := turns + 1;
      }
      WholeIsPlug(c, t);
      FirstAfter(c, key);
      QuickByHeight(tree, turns);
    }

    /** RB_MINMAX: the first node for a negative `val`, the last one otherwise. */
    method MinMax(val: int) returns (parent: Node?)
      requires Valid()
      ensures parent == if val < 0 then First(Elements()) else Last(Elements())
    {
      var tmp := root;
      parent := null;
      ghost var c, t := Top, tree;
      while tmp != null
        invariant Plug(c, t) == tree && tmp == Root(t)
        invariant val < 0 ==> Before(c) == [] && parent == First(After(c))
        invariant val >= 0 ==> After(c) == [] && parent == Last(Before(c))
        decreases t
      {
        Here(c, t);
        parent := tmp;
        if val < 0 {
          tmp := tmp.left;
          c, t := InL(c, t.n, t.red, t.r), t.l;
        } else {
          tmp := tmp.right;
          c, t := InR(c, t.l, t.n, t.red), t.r;
        }
      }
      WholeIsPlug(c, t);
      assert Whole(c, t) == Before(c) + After(c);
    }

    // Down to the leftmost node of the subtree `t0`.
    method FirstBelow(start: Node, ghost c0: Ctx, ghost t0: Tree) returns (elm: Node)
      requires Holds(Plug(c0, t0)) && t0.Br? && t0.n == start
      ensures elm == First(InOrder(t0) + After(c0))
    {
      ghost var c, t := c0, t0;
      elm := start;
      Here(c, t);
      hide Mirror, At, Nodes, CNodes;
      while elm.left != null
        invariant Plug(c, t) == Plug(c0, t0) && t.Br? && t.n == elm && elm in m && elm.left == Root(t.l)
        invariant First(InOrder(t) + After(c)) == First(InOrder(t0) + After(c0))
        decreases t
      {
        elm := elm.left;
        SpineOrder(c, t);
        c, t := InL(c, t.n, t.red, t.r), t.l;
        Here(c, t);
      }
    }

    // Down to the rightmost node of the subtree `t0`.
    method LastBelow(start: Node, ghost c0: Ctx, ghost t0: Tree) returns (elm: Node)
      requires Holds(Plug(c0, t0)) && t0.Br? && t0.n == start
      ensures elm == Last(Before(c0) + InOrder(t0))
    {
      ghost var c, t := c0, t0;
      elm := start;
      Here(c, t);
      while elm.right != null
        invariant Plug(c, t) == Plug(c0, t0) && t.Br? && t.n == elm && elm in m && elm.right == Root(t.r)
        invariant Last(Before(c) + InOrder(t)) == Last(Before(c0) + InOrder(t0))
        decreases t
      {
        elm := elm.right;
        SpineOrder(c, t);
        c, t := InR(c, t.l, t.n, t.red), t.r;
        Here(c, t);
      }
    }

    // Up to the first ancestor of which the cursor is in the left (right) subtree.
    method Climb(start: Node, right: bool, ghost c0: Ctx, ghost t0: Tree) returns (elm: Node?)
      requires Holds(Plug(c0, t0)) && t0.Br? && t0.n == start
      ensures elm == if right then First(After(c0)) else Last(Before(c0))
    {
      ghost var c, t := c0, t0;
      elm := start;
      Here(c, t);
      while elm.parent != null && elm == if right then elm.parent.right else elm.parent.left
        invariant Plug(c, t) == Plug(c0, t0) && t.Br? && t.n == elm && elm in m && elm.parent == CNode(c)
        invariant if right then After(c) == After(c0) else Before(c) == Before(c0)
        invariant !c.Top? ==> c.n in m && if c.InL? then c.n.left == elm && c.n.right != elm
                                          else c.n.right == elm && c.n.left != elm
        decreases Depth(c)
      {
        elm := elm.parent;
        AboveFacts(c, t);
        c, t := c.up, Above(c, t);
        Here(c, t);
      }
      elm := elm.parent;
    }

    /** RB_NEXT: the node that follows `elm0` in key order. */
    method Next(elm0: Node, ghost i: nat) returns (elm: Node?)
      requires Valid() && i < |Elements()| && Elements()[i] == elm0
      ensures elm == First(Elements()[i + 1..])
    {
      InOrderNode(tree, elm0);
      ghost var c, t := Locate(Top, tree, elm0);
      Here(c, t);
      WholeIsPlug(c, t);
      NextAt(c, t, i);
      elm := elm0;
      if elm.right != null {
        elm := FirstBelow(elm.right, InR(c, t.l, t.n, t.red), t.r);
      } else if elm.parent != null && elm == elm.parent.left {
        elm := elm.parent;
      } else {
        elm := Climb(elm, true, c, t);
      }
    }

    /** RB_PREV: the node that precedes `elm0` in key order. */
    method Prev(elm0: Node, ghost i: nat) returns (elm: Node?)
      requires Valid() && i < |Elements()| && Elements()[i] == elm0
      ensures elm == Last(Elements()[..i])
    {
      InOrderNode(tree, elm0);
      ghost var c, t := Locate(Top, tree, elm0);
      Here(c, t);
      WholeIsPlug(c, t);
      NextAt(c, t, i);
      elm := elm0;
      if elm.left != null {
        elm := LastBelow(elm.left, InL(c, t.n, t.red, t.r), t.l);
      } else if elm.parent != null && elm == elm.parent.right {
        elm := elm.parent;
      } else {
        elm := Climb(elm, false, c, t);
      }
    }

    /** RB_FOREACH visits every node once, in key order. */
    method Visit() returns (visited: seq<Node>)
      requires Valid()
      ensures visited == Elements()
    {
      visited := [];
      var x := MinMax(-1);
      while x != null
        invariant |visited| <= |Elements()| && visited == Elements()[..|visited|]
        invariant x == First(Elements()[|visited|..])
        decreases |Elements()| - |visited|
      {
        visited := visited + [x];
        x := Next(x, |visited| - 1);
      }
    }

    /** Any sequence of insertions and removals leaves exactly the keys inserted and not removed since. */
    method Run(ops: seq<Op>)
      requires Valid()
      modifies this, m.Keys, Puts(ops)
      ensures Valid() && Keys(Elements()) == KeysAfter(ops, old(Keys(Elements())))
    {
      var i := 0;
      while i < |ops|
        invariant i <= |ops| && Valid() && m.Keys <= old(m.Keys) + Puts(ops)
        invariant Keys(Elements()) == KeysAfter(ops[..i], old(Keys(Elements())))
      {
        assert ops[..i + 1][..i] == ops[..i];
        assert ops[i] in ops;
        Step(ops[i]);
        i := i + 1;
      }
      assert ops[..i] == ops;
    }

    method Step(op: Op)
      requires Valid()
      modifies this, m.Keys, if op.Put? then {op.n} else {}
      ensures Valid() && m.Keys <= old(m.Keys) + (if op.Put? then {op.n} else {})
      ensures Keys(Elements()) ==
        if op.Put? then old(Keys(Elements())) + {op.n.key} else old(Keys(Elements())) - {op.key}
    {
      ghost var s := Elements();
      match op
      case Put(n) =>
        var r, _, _ := Insert(n);
        if r == null {
          InsertedKeys(s, Elements(), n);
        } else {
          assert r.key in Keys(s);
        }
      case Cut(key) =>
        var x, _ := Find(key);
        if x != null {
          var _, _ := Remove(x);
          RemovedKeys(s, Elements(), x);
        }
    }
  }
}
