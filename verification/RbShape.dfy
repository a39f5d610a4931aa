/** The shape of an intrusive red-black tree, as values: trees of nodes, and
    one-hole contexts (the path from the root down to a cursor).

    The C code moves a cursor `elm` through a linked tree and rewrites links
    around it.  The proof follows the cursor: the tree is always split into the
    subtree under the cursor and the context above it.  Nothing here reads the
    links; RbTree says when the links of the heap form a given tree. */
module RbShape {
  import opened PowerOfTwo

  /** The RB_ENTRY fields.  `key` stands for whatever `cmp` compares; it does
      not change while the node exists. */
  class Node {
    var left: Node?
    var right: Node?
    var parent: Node?
    var red: bool
    const key: int

    constructor (key: int)
      ensures this.key == key
    {
      this.key := key;
      left, right, parent, red := null, null, null, false;
    }
  }

  datatype Tree = Leaf | Br(l: Tree, n: Node, red: bool, r: Tree)

  /** A tree with a hole: `InL(up, n, red, r)` is the hole to the left of `n`. */
  datatype Ctx =
    | Top
    | InL(up: Ctx, n: Node, red: bool, r: Tree)
    | InR(up: Ctx, l: Tree, n: Node, red: bool)

  ghost function Plug(c: Ctx, t: Tree): Tree
    decreases c
  {
    match c
    case Top => t
    case InL(up, n, red, r) => Plug(up, Br(t, n, red, r))
    case InR(up, l, n, red) => Plug(up, Br(l, n, red, t))
  }

  ghost function Depth(c: Ctx): nat {
    if c.Top? then 0 else 1 + Depth(c.up)
  }

  ghost function Root(t: Tree): Node? {
    if t.Leaf? then null else t.n
  }

  ghost function CNode(c: Ctx): Node? {
    if c.Top? then null else c.n
  }

  ghost function Nodes(t: Tree): set<Node> {
    if t.Leaf? then {} else Nodes(t.l) + {t.n} + Nodes(t.r)
  }

  ghost function CNodes(c: Ctx): set<Node> {
    match c
    case Top => {}
    case InL(up, n, _, r) => CNodes(up) + {n} + Nodes(r)
    case InR(up, l, n, _) => CNodes(up) + {n} + Nodes(l)
  }

  // ---------- in-order sequences ----------

  ghost function InOrder(t: Tree): seq<Node> {
    if t.Leaf? then [] else InOrder(t.l) + [t.n] + InOrder(t.r)
  }

  ghost function Before(c: Ctx): seq<Node> {
    match c
    case Top => []
    case InL(up, _, _, _) => Before(up)
    case InR(up, l, n, _) => Before(up) + InOrder(l) + [n]
  }

  ghost function After(c: Ctx): seq<Node> {
    match c
    case Top => []
    case InL(up, n, _, r) => [n] + InOrder(r) + After(up)
    case InR(up, _, _, _) => After(up)
  }

  /** The nodes of the whole tree, read from left to right around the hole. */
  ghost function Whole(c: Ctx, t: Tree): seq<Node> {
    Before(c) + InOrder(t) + After(c)
  }

  lemma {:induction false} WholeIsPlug(c: Ctx, t: Tree)
    ensures InOrder(Plug(c, t)) == Whole(c, t)
    decreases c
  {
    match c
    case Top =>
    case InL(up, n, red, r) =>
      WholeIsPlug(up, Br(t, n, red, r));
      assert Whole(up, Br(t, n, red, r)) == Whole(c, t);
    case InR(up, l, n, red) =>
      WholeIsPlug(up, Br(l, n, red, t));
      assert Whole(up, Br(l, n, red, t)) == Whole(c, t);
  }

  lemma {:induction false} InOrderNode(t: Tree, x: Node)
    ensures x in InOrder(t) <==> x in Nodes(t)
  {
    if t.Br? {
      InOrderNode(t.l, x);
      InOrderNode(t.r, x);
    }
  }

  /** Strictly increasing keys: search order, and no key twice. */
  ghost predicate Sorted(s: seq<Node>) {
    forall i, j :: 0 <= i < j < |s| ==> s[i].key < s[j].key
  }

  lemma {:induction false} SortedParts(a: seq<Node>, n: Node, b: seq<Node>)
    requires Sorted(a + [n] + b)
    ensures Sorted(a) && Sorted(b)
    ensures forall x :: x in a ==> x.key < n.key
    ensures forall x :: x in b ==> n.key < x.key
  {
    var s := a + [n] + b;
    assert s[|a|] == n;
    assert forall i :: 0 <= i < |a| ==> s[i] == a[i];
    assert forall i :: 0 <= i < |b| ==> s[|a| + 1 + i] == b[i];
  }

  lemma {:induction false} SortedJoin(a: seq<Node>, n: Node, b: seq<Node>)
    requires Sorted(a + b)
    requires forall x :: x in a ==> x.key < n.key
    requires forall x :: x in b ==> n.key < x.key
    ensures Sorted(a + [n] + b)
  {
    var s, t := a + [n] + b, a + b;
    forall i, j | 0 <= i < j < |s|
      ensures s[i].key < s[j].key
    {
      var i' := if i < |a| then i else i - 1;
      var j' := if j < |a| then j else j - 1;
      assert i == |a| || s[i] == t[i'];
      assert j == |a| || s[j] == t[j'];
    }
  }

  lemma {:induction false} SortedDrop(a: seq<Node>, n: Node, b: seq<Node>)
    requires Sorted(a + [n] + b)
    ensures Sorted(a + b)
  {
    var s, t := a + [n] + b, a + b;
    forall i, j | 0 <= i < j < |t|
      ensures t[i].key < t[j].key
    {
      var i' := if i < |a| then i else i + 1;
      var j' := if j < |a| then j else j + 1;
      assert s[i'] == t[i] && s[j'] == t[j];
    }
  }

  // ---------- distinctness ----------

  ghost predicate Disj(t: Tree) {
    t.Br? ==>
      && t.n !in Nodes(t.l) && t.n !in Nodes(t.r) && Nodes(t.l) !! Nodes(t.r)
      && Disj(t.l) && Disj(t.r)
  }

  ghost predicate CDisj(c: Ctx) {
    match c
    case Top => true
    case InL(up, n, _, r) =>
      n !in Nodes(r) && n !in CNodes(up) && Nodes(r) !! CNodes(up) && Disj(r) && CDisj(up)
    case InR(up, l, n, _) =>
      n !in Nodes(l) && n !in CNodes(up) && Nodes(l) !! CNodes(up) && Disj(l) && CDisj(up)
  }

  // ---------- colours and black heights ----------

  ghost predicate IsRed(t: Tree) {
    t.Br? && t.red
  }

  /** Number of black nodes on the leftmost path. */
  ghost function BH(t: Tree): nat {
    if t.Leaf? then 0 else BH(t.l) + (if t.red then 0 else 1)
  }

  /** Every path from the root to a leaf has the same number of black nodes. */
  ghost predicate Bal(t: Tree) {
    t.Br? ==> Bal(t.l) && Bal(t.r) && BH(t.l) == BH(t.r)
  }

  ghost predicate NoRedRed(t: Tree) {
    t.Br? ==> NoRedRed(t.l) && NoRedRed(t.r) && (t.red ==> !IsRed(t.l) && !IsRed(t.r))
  }

  ghost predicate RedBlack(t: Tree) {
    Bal(t) && NoRedRed(t) && !IsRed(t)
  }

  /** Plugging a balanced tree of black height `h` into the hole balances the whole. */
  ghost predicate CBal(c: Ctx, h: nat) {
    match c
    case Top => true
    case InL(up, _, red, r) => Bal(r) && BH(r) == h && CBal(up, h + if red then 0 else 1)
    case InR(up, l, _, red) => Bal(l) && BH(l) == h && CBal(up, h + if red then 0 else 1)
  }

  /** No red node of the context has a red child, the hole counting as `red` or not. */
  ghost predicate CNoRedRed(c: Ctx, holeRed: bool) {
    match c
    case Top => true
    case InL(up, _, red, r) =>
      NoRedRed(r) && (red ==> !holeRed && !IsRed(r)) && CNoRedRed(up, red)
    case InR(up, l, _, red) =>
      NoRedRed(l) && (red ==> !holeRed && !IsRed(l)) && CNoRedRed(up, red)
  }

  /** The root of the context, when it has one, is black. */
  ghost predicate RootBlack(c: Ctx) {
    !c.Top? ==> if c.up.Top? then !c.red else RootBlack(c.up)
  }

  lemma {:induction false} PlugRedBlack(c: Ctx, t: Tree)
    requires Bal(t) && NoRedRed(t)
    requires CBal(c, BH(t)) && CNoRedRed(c, IsRed(t)) && RootBlack(c)
    requires c.Top? ==> !IsRed(t)
    ensures RedBlack(Plug(c, t))
    decreases c
  {
    match c
    case Top =>
    case InL(up, n, red, r) => PlugRedBlack(up, Br(t, n, red, r));
    case InR(up, l, n, red) => PlugRedBlack(up, Br(l, n, red, t));
  }

  // Converse of PlugRedBlack: every cursor position in a red-black tree splits
  // it into a red-black context and a red-black subtree.
  lemma {:induction false} SplitRedBlack(c: Ctx, t: Tree)
    requires RedBlack(Plug(c, t))
    ensures Bal(t) && NoRedRed(t)
    ensures CBal(c, BH(t)) && CNoRedRed(c, IsRed(t)) && RootBlack(c)
    ensures c.Top? ==> !IsRed(t)
    decreases c
  {
    match c
    case Top =>
    case InL(up, n, red, r) => SplitRedBlack(up, Br(t, n, red, r));
    case InR(up, l, n, red) => SplitRedBlack(up, Br(l, n, red, t));
  }

  // ---------- height ----------

  ghost function Height(t: Tree): nat {
    if t.Leaf? then 0
    else 1 + if Height(t.l) < Height(t.r) then Height(t.r) else Height(t.l)
  }

  lemma {:induction false} HeightByBlackHeight(t: Tree)
    requires Bal(t) && NoRedRed(t)
    ensures Height(t) <= 2 * BH(t) + if IsRed(t) then 1 else 0
    ensures Pow2(BH(t)) <= |InOrder(t)| + 1
  {
    if t.Br? {
      HeightByBlackHeight(t.l);
      HeightByBlackHeight(t.r);
    }
  }

  lemma {:induction false} Pow2Monotone(a: nat, b: nat)
    requires a <= b
    ensures Pow2(a) <= Pow2(b)
  {
    if a < b {
      Pow2Monotone(a, b - 1);
    }
  }

  lemma {:induction false} Pow2Double(k: nat)
    ensures Pow2(2 * k) == Pow2(k) * Pow2(k)
  {
    if k > 0 {
      Pow2Double(k - 1);
      assert Pow2(2 * k) == 2 * Pow2(2 * k - 1) == 4 * Pow2(2 * (k - 1));
    }
  }

  lemma {:induction false} SquareMonotone(a: nat, b: nat)
    requires a <= b
    ensures a * a <= b * b
  {
    assert a * a <= a * b;
    assert a * b <= b * b;
  }

  /** Height is at most 2 * lg(n + 1), for n nodes. */
  lemma {:induction false} HeightBound(t: Tree)
    requires RedBlack(t)
    ensures Pow2(Height(t)) <= (|InOrder(t)| + 1) * (|InOrder(t)| + 1)
  {
    HeightByBlackHeight(t);
    Pow2Monotone(Height(t), 2 * BH(t));
    Pow2Double(BH(t));
    SquareMonotone(Pow2(BH(t)), |InOrder(t)| + 1);
  }

  /** At most 2 * lg(n + 1) turns. */
  ghost predicate Quick(turns: nat, n: nat) {
    Pow2(turns) <= (n + 1) * (n + 1)
  }

  /** A loop that goes down the tree, or up, is quick. */
  lemma {:induction false} QuickByHeight(t: Tree, turns: nat)
    requires RedBlack(t) && turns <= Height(t)
    ensures Quick(turns, |InOrder(t)|)
  {
    HeightBound(t);
    Pow2Monotone(turns, Height(t));
  }

  // A hole is no deeper than the tree.
  lemma {:induction false} DepthPlug(c: Ctx, t: Tree)
    ensures Depth(c) + Height(t) <= Height(Plug(c, t))
  {
    match c
    case Top =>
    case InL(up, n, red, r) => DepthPlug(up, Br(t, n, red, r));
    case InR(up, l, n, red) => DepthPlug(up, Br(l, n, red, t));
  }

  // ---------- searching ----------

  /** `key` belongs in the hole of `c`: all nodes before it are smaller, all after it larger. */
  ghost predicate Fits(c: Ctx, key: int) {
    && (forall x :: x in Before(c) ==> x.key < key)
    && (forall x :: x in After(c) ==> key < x.key)
  }

  lemma {:induction false} FitsLeft(c: Ctx, t: Tree, key: int)
    requires t.Br? && Sorted(Whole(c, t)) && Fits(c, key) && key < t.n.key
    ensures Fits(InL(c, t.n, t.red, t.r), key)
  {
    var a, b := Before(c) + InOrder(t.l), InOrder(t.r) + After(c);
    assert Whole(c, t) == a + [t.n] + b;
    SortedParts(a, t.n, b);
    assert After(InL(c, t.n, t.red, t.r)) == [t.n] + b;
  }

  lemma {:induction false} FitsRight(c: Ctx, t: Tree, key: int)
    requires t.Br? && Sorted(Whole(c, t)) && Fits(c, key) && t.n.key < key
    ensures Fits(InR(c, t.l, t.n, t.red), key)
  {
    var a, b := Before(c) + InOrder(t.l), InOrder(t.r) + After(c);
    assert Whole(c, t) == a + [t.n] + b;
    SortedParts(a, t.n, b);
    assert Before(InR(c, t.l, t.n, t.red)) == a + [t.n];
  }

  // At an empty hole that `key` fits, no node has that key.
  lemma {:induction false} FitsAbsent(c: Ctx, key: int)
    requires Fits(c, key)
    ensures forall x :: x in Whole(c, Leaf) ==> x.key != key
  {
    assert Whole(c, Leaf) == Before(c) + After(c);
  }

  // The nodes of the tree before and after the root of the subtree at the cursor.
  lemma {:induction false} WholeAround(c: Ctx, t: Tree)
    requires t.Br?
    ensures Whole(c, t) == (Before(c) + InOrder(t.l)) + [t.n] + (InOrder(t.r) + After(c))
    ensures t.n in Whole(c, t)
  {
    assert Whole(c, t)[|Before(c) + InOrder(t.l)|] == t.n;
  }

  /** A cursor position for every node of the tree. */
  lemma {:induction false} Locate(c: Ctx, t: Tree, x: Node) returns (c': Ctx, t': Tree)
    requires x in Nodes(t)
    ensures Plug(c', t') == Plug(c, t) && t'.Br? && t'.n == x
    decreases t
  {
    if t.n == x {
      c', t' := c, t;
    } else if x in Nodes(t.l) {
      c', t' := Locate(InL(c, t.n, t.red, t.r), t.l, x);
    } else {
      c', t' := Locate(InR(c, t.l, t.n, t.red), t.r, x);
    }
  }

  // ---------- contexts inside contexts ----------

  /** The context `c` continued upwards by `base`. */
  ghost function Comp(c: Ctx, base: Ctx): Ctx {
    match c
    case Top => base
    case InL(up, n, red, r) => InL(Comp(up, base), n, red, r)
    case InR(up, l, n, red) => InR(Comp(up, base), l, n, red)
  }

  lemma {:induction false} DepthComp(c: Ctx, base: Ctx)
    ensures Depth(Comp(c, base)) == Depth(c) + Depth(base)
  {
    if !c.Top? {
      DepthComp(c.up, base);
    }
  }

  lemma {:induction false} PlugComp(c: Ctx, base: Ctx, t: Tree)
    ensures Plug(Comp(c, base), t) == Plug(base, Plug(c, t))
    decreases c
  {
    match c
    case Top =>
    case InL(up, n, red, r) => PlugComp(up, base, Br(t, n, red, r));
    case InR(up, l, n, red) => PlugComp(up, base, Br(l, n, red, t));
  }

  // Putting another node at the foot of the path changes no colour and no black height.
  lemma {:induction false} CompColors(c: Ctx, up: Ctx, l: Tree, x: Node, y: Node, red: bool, h: nat, b: bool)
    ensures var c1, c2 := Comp(c, InR(up, l, x, red)), Comp(c, InR(up, l, y, red));
      && (CBal(c1, h) ==> CBal(c2, h))
      && (CNoRedRed(c1, b) ==> CNoRedRed(c2, b))
      && (RootBlack(c1) ==> RootBlack(c2))
  {
    match c
    case Top =>
    case InL(up', n, red', r) =>
      CompColors(up', up, l, x, y, red, h + if red' then 0 else 1, red');
    case InR(up', l', n, red') =>
      CompColors(up', up, l, x, y, red, h + if red' then 0 else 1, red');
  }
}
