/** SPLAY, SPLAY_INSERT, SPLAY_REMOVE and SPLAY_FIND on linked nodes. */
module SplayTree {
  import opened SplayShape
  import opened SplayNumbers
  import opened SplayCost
  import opened PowerOfTwo

  ghost predicate Below(q: seq<Node>, k: int) {
    forall y :: y in q ==> y.key < k
  }

  ghost predicate Beyond(q: seq<Node>, k: int) {
    forall y :: y in q ==> y.key > k
  }

  ghost function Members(q: seq<Node>): set<Node> {
    set x | x in q
  }

  ghost predicate Outside(m: Mem, m': Mem, whole: seq<Node>) {
    forall y :: y in m && y !in whole ==> y in m' && m'[y] == m[y]
  }

  /** The state of the loop of SPLAY: smaller nodes on the left, greater ones on the right,
      nothing else touched. */
  ghost predicate Searching(m0: Mem, m: Mem, d: Node, lo: Spine, hi: Spine, root: Node?, s: Tree, whole: seq<Node>, k: int) {
    && Split(m, d, lo, hi, root, s, whole) && Below(InL(lo), k) && Beyond(InR(hi), k)
    && d !in m0 && m.Keys == m0.Keys + {d} && Outside(m0, m, whole)
  }

  // What the loop reads at the top of the middle tree.
  lemma {:induction false} TopFields(m0: Mem, m: Mem, d: Node, lo: Spine, hi: Spine, root: Node?, s: Tree, whole: seq<Node>, k: int)
    requires Searching(m0, m, d, lo, hi, root, s, whole, k)
    ensures root != null && s.Bin? && s.x == root && root in m && Last(lo, d) in m && Last(hi, d) in m
    ensures m[root].left == null <==> s.l.Nil?
    ensures m[root].right == null <==> s.r.Nil?
    ensures s.l.Bin? ==> m[root].left == s.l.x && s.l.x in m
    ensures s.r.Bin? ==> m[root].right == s.r.x && s.r.x in m
  {
    AtParts(m, root, s);
    Ends(m, d, lo, hi, root, s, whole);
  }

  // Writes to nodes of `whole`, or to `__node`, are not outside.
  lemma {:induction false} OutsideStep(m0: Mem, m: Mem, m': Mem, d: Node, whole: seq<Node>, x: Node, y: Node)
    requires Outside(m0, m, whole) && d !in m0 && (x in whole || x == d) && (y in whole || y == d)
    requires m'.Keys == m.Keys && forall z :: z in m && z != x && z != y ==> m'[z] == m[z]
    ensures Outside(m0, m', whole)
  {
  }

  // The root of the middle tree, its children, and the open ends.
  lemma {:induction false} Inside(m: Mem, d: Node, lo: Spine, hi: Spine, root: Node?, s: Tree, whole: seq<Node>)
    requires Split(m, d, lo, hi, root, s, whole)
    ensures s.Bin? && s.x == root && s.x in whole && s.x in m && Last(lo, d) in m && Last(hi, d) in m
    ensures Last(lo, d) in whole || Last(lo, d) == d
    ensures Last(hi, d) in whole || Last(hi, d) == d
    ensures s.l.Bin? ==> s.l.x in whole && s.l.x in m && m[s.x].left == s.l.x
    ensures s.r.Bin? ==> s.r.x in whole && s.r.x in m && m[s.x].right == s.r.x
    ensures Last(hi, d) != s.x && Last(lo, d) != s.x
    ensures Below(In(s.l), s.x.key) && Beyond(In(s.r), s.x.key)
  {
    Ends(m, d, lo, hi, root, s, whole);
    AtParts(m, root, s);
    RightOf(s);
    assert s.l.Bin? ==> s.l.x in [s.l.x];
    assert s.r.Bin? ==> s.r.x in [s.r.x];
  }

  lemma {:induction false} RotateRightPlan(m0: Mem, m: Mem, d: Node, lo: Spine, hi: Spine, root: Node?, s: Tree, whole: seq<Node>, k: int)
    requires Searching(m0, m, d, lo, hi, root, s, whole, k) && s.l.Bin?
    ensures root != null && root in m && s.l.x in m
    ensures var s' := Bin(s.l.l, s.l.x, Bin(s.l.r, s.x, s.r));
      && Searching(m0, RotatedRight(m, root, s.l.x), d, lo, hi, s.l.x, s', whole, k) && Size(s') == Size(s)
  {
    hide Split, In, Sorted, Outside, Below, Beyond;
    RotateRight(m, d, lo, hi, root, s, whole);
    Inside(m, d, lo, hi, root, s, whole);
    OutsideStep(m0, m, RotatedRight(m, s.x, s.l.x), d, whole, s.x, s.l.x);
  }

  lemma {:induction false} RotateLeftPlan(m0: Mem, m: Mem, d: Node, lo: Spine, hi: Spine, root: Node?, s: Tree, whole: seq<Node>, k: int)
    requires Searching(m0, m, d, lo, hi, root, s, whole, k) && s.r.Bin?
    ensures root != null && root in m && s.r.x in m
    ensures var s' := Bin(Bin(s.l, s.x, s.r.l), s.r.x, s.r.r);
      && Searching(m0, RotatedLeft(m, root, s.r.x), d, lo, hi, s.r.x, s', whole, k) && Size(s') == Size(s)
  {
    hide Split, In, Sorted, Outside, Below, Beyond;
    RotateLeft(m, d, lo, hi, root, s, whole);
    Inside(m, d, lo, hi, root, s, whole);
    OutsideStep(m0, m, RotatedLeft(m, s.x, s.r.x), d, whole, s.x, s.r.x);
  }

  lemma {:induction false} MoreBeyond(hi: Spine, x: Node, t: Tree, k: int)
    requires Beyond(InR(hi), k) && k < x.key && Beyond(In(t), x.key)
    ensures Beyond(InR(More(hi, x, t)), k)
  {
  }

  lemma {:induction false} MoreBelow(lo: Spine, x: Node, t: Tree, k: int)
    requires Below(InL(lo), k) && x.key < k && Below(In(t), x.key)
    ensures Below(InL(More(lo, x, t)), k)
  {
  }

  lemma {:induction false} LinkLeftPlan(m0: Mem, m: Mem, d: Node, lo: Spine, hi: Spine, root: Node?, s: Tree, whole: seq<Node>, k: int)
    requires Searching(m0, m, d, lo, hi, root, s, whole, k) && s.l.Bin? && k < s.x.key
    ensures root != null && root in m && Last(hi, d) in m
    ensures var m' := m[Last(hi, d) := m[Last(hi, d)].(left := root)];
      && Searching(m0, m', d, lo, More(hi, s.x, s.r), s.l.x, s.l, whole, k)
      && m'[root].left == s.l.x && Size(s.l) < Size(s)
  {
    LinkLeft(m, d, lo, hi, root, s, whole);
    Inside(m, d, lo, hi, root, s, whole);
    MoreBeyond(hi, s.x, s.r, k);
    hide Split, Sorted, Below, Beyond, In, InR, Outside;
    var q := Last(hi, d);
    OutsideStep(m0, m, m[q := m[q].(left := s.x)], d, whole, q, q);
  }

  lemma {:induction false} LinkRightPlan(m0: Mem, m: Mem, d: Node, lo: Spine, hi: Spine, root: Node?, s: Tree, whole: seq<Node>, k: int)
    requires Searching(m0, m, d, lo, hi, root, s, whole, k) && s.r.Bin? && k > s.x.key
    ensures root != null && root in m && Last(lo, d) in m
    ensures var m' := m[Last(lo, d) := m[Last(lo, d)].(right := root)];
      && Searching(m0, m', d, More(lo, s.x, s.l), hi, s.r.x, s.r, whole, k)
      && m'[root].right == s.r.x && Size(s.r) < Size(s)
  {
    LinkRight(m, d, lo, hi, root, s, whole);
    Inside(m, d, lo, hi, root, s, whole);
    MoreBelow(lo, s.x, s.l, k);
    hide Split, Sorted, Below, Beyond, In, InL, Outside;
    var q := Last(lo, d);
    OutsideStep(m0, m, m[q := m[q].(right := s.x)], d, whole, q, q);
  }

  lemma {:induction false} RightOf(t: Tree)
    requires t.Bin? && Sorted(In(t))
    ensures Below(In(t.l), t.x.key) && Beyond(In(t.r), t.x.key) && t.x in In(t)
  {
    SortedCat(In(t.l) + [t.x], In(t.r));
    SortedCat(In(t.l), [t.x]);
    assert t.x in [t.x] && t.x in In(t.l) + [t.x];
  }

  /** The search can stop: the root has the key, or lacks the child where the key would be. */
  ghost predicate Found(s: Tree, k: int) {
    s.Bin? && (k < s.x.key ==> s.l.Nil?) && (k > s.x.key ==> s.r.Nil?)
  }

  lemma {:induction false} AssemblePlan(m0: Mem, m: Mem, d: Node, lo: Spine, hi: Spine, root: Node?, s: Tree, whole: seq<Node>, k: int)
    requires Searching(m0, m, d, lo, hi, root, s, whole, k) && Found(s, k)
    ensures var l, r := Last(lo, d), Last(hi, d);
      && root != null && d in m && l in m && r in m && root in m
      && var m', t' := Assembled(m, d, l, r, root), Bin(PlugL(lo, s.l), s.x, PlugR(hi, s.r));
      && At(m', root, t') && In(t') == whole && Sorted(whole) && m'.Keys == m0.Keys
      && Below(In(t'.l), k) && Beyond(In(t'.r), k) && Outside(m0, m', whole)
  {
    Assemble(m, d, lo, hi, root, s, whole);
    FoundParts(m, d, lo, hi, root, s, whole, k);
    hide Split, Assembled, In, Below, Beyond;
  }

  lemma {:induction false} FoundParts(m: Mem, d: Node, lo: Spine, hi: Spine, root: Node?, s: Tree, whole: seq<Node>, k: int)
    requires Split(m, d, lo, hi, root, s, whole) && Below(InL(lo), k) && Beyond(InR(hi), k) && Found(s, k)
    ensures Sorted(whole) && Below(InL(lo) + In(s.l), k) && Beyond(In(s.r) + InR(hi), k)
  {
    Ends(m, d, lo, hi, root, s, whole);
    RightOf(s);
  }

  // ---------- the loop and the function Splayed ----------

  /** What a splay of the middle tree means for the whole, after `turns` turns. */
  ghost function Resumed(lo: Spine, hi: Spine, p: Outcome, turns: nat): Outcome {
    Outcome(PlugL(lo, p.l), p.x, PlugR(hi, p.r), turns + p.turns)
  }

  /** One turn for a key less than that of the root leads from `s` to `s'`. */
  ghost predicate TurnedLeft(s: Tree, k: int, stop: bool, hi: Spine, hi': Spine, s': Tree)
    requires s.Bin? && s'.Bin?
  {
    if stop then hi' == hi && Splayed(s, k) == Outcome(s'.l, s'.x, s'.r, 1)
    else
      var p := Splayed(s', k);
      hi'.More? && hi'.up == hi && Splayed(s, k) == Outcome(p.l, p.x, Bin(p.r, hi'.x, hi'.t), 1 + p.turns)
  }

  ghost predicate TurnedRight(s: Tree, k: int, stop: bool, lo: Spine, lo': Spine, s': Tree)
    requires s.Bin? && s'.Bin?
  {
    if stop then lo' == lo && Splayed(s, k) == Outcome(s'.l, s'.x, s'.r, 1)
    else
      var p := Splayed(s', k);
      lo'.More? && lo'.up == lo && Splayed(s, k) == Outcome(Bin(lo'.t, lo'.x, p.l), p.x, p.r, 1 + p.turns)
  }

  lemma {:induction false} LeftTurns(s: Tree, k: int, hi: Spine)
    requires s.Bin? && k < s.x.key
    ensures s.l.Nil? ==> TurnedLeft(s, k, true, hi, hi, s)
    ensures s.l.Bin? && k >= s.l.x.key ==> TurnedLeft(s, k, false, hi, More(hi, s.x, s.r), s.l)
    ensures s.l.Bin? && k < s.l.x.key ==>
      var s' := Bin(s.l.l, s.l.x, Bin(s.l.r, s.x, s.r));
      if s'.l.Nil? then TurnedLeft(s, k, true, hi, hi, s') else TurnedLeft(s, k, false, hi, More(hi, s'.x, s'.r), s'.l)
  {
  }

  lemma {:induction false} RightTurns(s: Tree, k: int, lo: Spine)
    requires s.Bin? && k > s.x.key
    ensures s.r.Nil? ==> TurnedRight(s, k, true, lo, lo, s)
    ensures s.r.Bin? && k <= s.r.x.key ==> TurnedRight(s, k, false, lo, More(lo, s.x, s.l), s.r)
    ensures s.r.Bin? && k > s.r.x.key ==>
      var s' := Bin(Bin(s.l, s.x, s.r.l), s.r.x, s.r.r);
      if s'.r.Nil? then TurnedRight(s, k, true, lo, lo, s') else TurnedRight(s, k, false, lo, More(lo, s'.x, s'.l), s'.r)
  {
  }

  lemma {:induction false} ResumeLeft(s: Tree, k: int, stop: bool, lo: Spine, hi: Spine, hi': Spine, s': Tree, turns: nat)
    requires s.Bin? && s'.Bin? && TurnedLeft(s, k, stop, hi, hi', s')
    ensures Resumed(lo, hi, Splayed(s, k), turns) ==
      if stop then Resumed(lo, hi', Outcome(s'.l, s'.x, s'.r, 0), turns + 1)
      else Resumed(lo, hi', Splayed(s', k), turns + 1)
  {
    hide Splayed;
  }

  lemma {:induction false} ResumeRight(s: Tree, k: int, stop: bool, lo: Spine, lo': Spine, hi: Spine, s': Tree, turns: nat)
    requires s.Bin? && s'.Bin? && TurnedRight(s, k, stop, lo, lo', s')
    ensures Resumed(lo, hi, Splayed(s, k), turns) ==
      if stop then Resumed(lo', hi, Outcome(s'.l, s'.x, s'.r, 0), turns + 1)
      else Resumed(lo', hi, Splayed(s', k), turns + 1)
  {
    hide Splayed;
  }

  lemma {:induction false} NoTurn(s: Tree)
    requires s.Bin?
    ensures Splayed(s, s.x.key) == Outcome(s.l, s.x, s.r, 0)
  {
  }

  lemma {:induction false} FirstTurn(p: Outcome)
    ensures Resumed(Top, Top, p, 0) == p
  {
  }

  // ---------- the cost of an operation ----------

  /** The turns of an operation that takes the tree `t` to `t'`, amortized; `t'` has at most one node more. */
  ghost predicate Cost(t: Tree, t': Tree, turns: nat) {
    Afforded(t, t', turns, Budget(Size(t) + 1)) && Size(t') <= Size(t) + 1
  }

  lemma {:induction false} NoCost(t: Tree)
    ensures Cost(t, t, 0)
  {
    StayAffords(t, Size(t) + 1);
  }

  lemma {:induction false} FirstCost(e: Node)
    ensures Cost(Nil, Bin(Nil, e, Nil), 0)
  {
  }

  lemma {:induction false} FindCost(t: Tree, k: int)
    requires t.Bin?
    ensures Cost(t, Whole(Splayed(t, k)), Splayed(t, k).turns)
  {
    SplayAffords(t, k, Size(t) + 1);
    SplayedSize(t, k);
  }

  lemma {:induction false} InsertCost(t: Tree, e: Node)
    requires t.Bin?
    ensures var p := Splayed(t, e.key);
      Cost(t, Bin(p.l, e, Bin(Nil, p.x, p.r)), p.turns) && Cost(t, Bin(Bin(p.l, p.x, Nil), e, p.r), p.turns)
  {
    hide Splayed, Afforded, Size;
    InsertAffords(t, e, Size(t) + 1);
    var p := Splayed(t, e.key);
    BinOf(Nil, p.x, p.r);
    BinOf(p.l, p.x, Nil);
    BinOf(p.l, e, Bin(Nil, p.x, p.r));
    BinOf(Bin(p.l, p.x, Nil), e, p.r);
  }

  lemma {:induction false} RemoveCost(t: Tree, k: int)
    requires t.Bin?
    ensures var p := Splayed(t, k);
      && (p.l.Nil? ==> Cost(t, p.r, p.turns))
      && (p.l.Bin? ==> var q := Splayed(p.l, k); q.r.Nil? ==> Cost(t, Bin(q.l, q.x, p.r), p.turns + q.turns))
  {
    hide Splayed, Afforded, Size;
    var p := Splayed(t, k);
    if p.l.Nil? {
      RemoveOuterAffords(t, k, Size(t) + 1);
    } else if Splayed(p.l, k).r.Nil? {
      RemoveInnerAffords(t, k, Size(t) + 1);
    }
  }

  datatype Op = Look(key: int) | Put(n: Node) | Cut(n: Node)

  ghost function Puts(ops: seq<Op>): set<Node> {
    set op | op in ops && op.Put? :: op.n
  }

  lemma {:induction false} NothingAfforded(t: Tree)
    ensures forall b :: Afforded(t, t, 0, Power(b, 0))
  {
  }

  lemma {:induction false} AverageRun(t0: Tree, t: Tree, turns: nat, m: nat)
    requires Afforded(t0, t, turns, Power(Budget(Size(t0) + m), m))
    ensures forall k: nat :: t0 == Nil && m <= Pow2(k) ==> turns <= m * (5 * k + 2)
  {
    forall k: nat | t0 == Nil && m <= Pow2(k) ensures turns <= m * (5 * k + 2) {
      AverageTurns(t, turns, m, m, k);
    }
  }

  // One operation more, on at most `n` nodes.
  lemma {:induction false} OneMore(t: Tree, t1: Tree, t2: Tree, turns: nat, more: nat, n: nat, i: nat)
    requires Afforded(t, t1, turns, Power(Budget(n), i)) && Cost(t1, t2, more) && Size(t1) < n
    ensures Afforded(t, t2, turns + more, Power(Budget(n), i + 1)) && Size(t2) <= Size(t1) + 1
  {
    hide Afforded, Budget;
    AffordMore(t1, t2, more, Size(t1) + 1, n);
    AffordedTwice(t, t1, t2, turns, more, Power(Budget(n), i), Budget(n));
  }

  /** SPLAY_HEAD.  The ghost fields repeat the links and give the tree they form. */
  class Head {
    var root: Node?
    ghost var m: Mem
    ghost var t: Tree

    ghost predicate Mirror()
      reads `m, m.Keys`left, m.Keys`right
    {
      forall x :: x in m ==> m[x] == Rec(x.left, x.right)
    }

    ghost predicate Linked()
      reads this, m.Keys
    {
      Mirror() && At(m, root, t) && Sorted(In(t))
    }

    ghost predicate Valid()
      reads this, m.Keys
    {
      Linked() && m.Keys == Members(In(t))
    }

    constructor ()
      ensures Valid() && In(t) == []
    {
      root, m, t := null, map[], Nil;
    }

    lemma {:induction false} Reads(x: Node)
      requires Mirror() && x in m
      ensures m[x] == Rec(x.left, x.right)
    {
    }

    // SPLAY_ROTATE_RIGHT
    method RotateRightLinks(tmp: Node)
      requires Mirror() && root != null && root in m && tmp in m
      modifies `root, `m, m.Keys`left, m.Keys`right
      ensures Mirror() && root == tmp && m == RotatedRight(old(m), old(root), tmp)
    {
      root.left := tmp.right;
      m := m[root := m[root].(left := m[tmp].right)];
      tmp.right := root;
      m := m[tmp := m[tmp].(right := root)];
      root := tmp;
    }

    // SPLAY_ROTATE_LEFT
    method RotateLeftLinks(tmp: Node)
      requires Mirror() && root != null && root in m && tmp in m
      modifies `root, `m, m.Keys`left, m.Keys`right
      ensures Mirror() && root == tmp && m == RotatedLeft(old(m), old(root), tmp)
    {
      root.right := tmp.left;
      m := m[root := m[root].(right := m[tmp].left)];
      tmp.left := root;
      m := m[tmp := m[tmp].(left := root)];
      root := tmp;
    }

    // SPLAY_LINKLEFT
    method LinkLeftLinks(right: Node) returns (right': Node)
      requires Mirror() && root != null && root in m && right in m
      modifies `root, `m, m.Keys`left
      ensures Mirror() && right' == old(root) && m == old(m)[right := old(m)[right].(left := old(root))]
      ensures root == m[right'].left
    {
      right.left := root;
      m := m[right := m[right].(left := root)];
      right' := root;
      root := root.left;
    }

    // SPLAY_LINKRIGHT
    method LinkRightLinks(left: Node) returns (left': Node)
      requires Mirror() && root != null && root in m && left in m
      modifies `root, `m, m.Keys`right
      ensures Mirror() && left' == old(root) && m == old(m)[left := old(m)[left].(right := old(root))]
      ensures root == m[left'].right
    {
      left.right := root;
      m := m[left := m[left].(right := root)];
      left' := root;
      root := root.right;
    }

    // The first two writes of SPLAY_ASSEMBLE.
    method Close(left: Node, right: Node)
      requires Mirror() && root != null && root in m && left in m && right in m
      modifies `m, m.Keys`left, m.Keys`right
      ensures Mirror() && m == Closed(old(m), left, right, root) && m.Keys == old(m.Keys)
    {
      SetRight(left, root.left);
      SetLeft(right, root.right);
    }

    // SPLAY_ASSEMBLE
    method AssembleLinks(node: Node, left: Node, right: Node)
      requires Mirror() && root != null && root in m && left in m && right in m && node in m
      modifies `m, m.Keys`left, m.Keys`right
      ensures Mirror() && m == Assembled(old(m), node, left, right, root)
    {
      hide Closed;
      Close(left, right);
      root.left := node.right;
      root.right := node.left;
      m := m[root := Rec(m[node].right, m[node].left)] - {node};
    }

    // `__node` enters the picture.
    method AddNode() returns (node: Node)
      requires Linked()
      modifies `m
      ensures fresh(node) && Mirror() && m == old(m)[node := Rec(null, null)] && node !in old(m) && node !in In(t)
    {
      node := new Node(0);
      InKeys();
      m := m[node := Rec(null, null)];
    }

    lemma {:induction false} InKeys()
      requires Linked()
      ensures forall x :: x in In(t) ==> x in m
    {
      AllIn(m, root, t);
    }

    lemma {:induction false} RootIsTop(m0: Mem, node: Node, lo: Spine, hi: Spine, s: Tree, whole: seq<Node>, k: int)
      requires Mirror() && Searching(m0, m, node, lo, hi, root, s, whole, k)
      ensures root != null && s.Bin? && s.x == root && root in m && m.Keys == m0.Keys + {node}
      ensures root.left == null <==> s.l.Nil?
      ensures root.right == null <==> s.r.Nil?
      ensures s.l.Bin? ==> root.left == s.l.x && s.l.x in m
      ensures s.r.Bin? ==> root.right == s.r.x && s.r.x in m
    {
      TopFields(m0, m, node, lo, hi, root, s, whole, k);
    }

    // One turn of the loop of SPLAY for a key less than that of the root.
    method TurnLeft(k: int, right: Node, ghost m0: Mem, ghost node: Node, ghost lo: Spine, ghost hi: Spine, ghost s: Tree,
                    ghost whole: seq<Node>)
      returns (stop: bool, right': Node, ghost hi': Spine, ghost s': Tree)
      requires Mirror() && Searching(m0, m, node, lo, hi, root, s, whole, k)
      requires root != null && k < root.key && right == Last(hi, node)
      modifies `root, `m, m.Keys`left, m.Keys`right
      ensures Mirror() && Searching(m0, m, node, lo, hi', root, s', whole, k) && m.Keys == old(m.Keys)
      ensures root != null && right' == Last(hi', node) && s.Bin? && s'.Bin? && TurnedLeft(s, k, stop, hi, hi', s')
      ensures if stop then Found(s', k) else Size(s') < Size(s)
    {
      hide Mirror, Searching, RotatedRight, TurnedLeft, Splayed;
      RootIsTop(m0, node, lo, hi, s, whole, k);
      LeftTurns(s, k, hi);
      right', hi', s' := right, hi, s;
      var tmp := root.left;
      if tmp == null {
        return true, right', hi', s';
      }
      if k < tmp.key {
        RotateRightPlan(m0, m, node, lo, hi, root, s, whole, k);
        RotateRightLinks(tmp);
        s' := Bin(s.l.l, s.l.x, Bin(s.l.r, s.x, s.r));
        RootIsTop(m0, node, lo, hi, s', whole, k);
        if root.left == null {
          return true, right', hi', s';
        }
      }
      LinkLeftPlan(m0, m, node, lo, hi, root, s', whole, k);
      right' := LinkLeftLinks(right);
      hi', s' := More(hi, s'.x, s'.r), s'.l;
      return false, right', hi', s';
    }

    // One turn of the loop of SPLAY for a key greater than that of the root.
    method TurnRight(k: int, left: Node, ghost m0: Mem, ghost node: Node, ghost lo: Spine, ghost hi: Spine, ghost s: Tree,
                     ghost whole: seq<Node>)
      returns (stop: bool, left': Node, ghost lo': Spine, ghost s': Tree)
      requires Mirror() && Searching(m0, m, node, lo, hi, root, s, whole, k)
      requires root != null && k > root.key && left == Last(lo, node)
      modifies `root, `m, m.Keys`left, m.Keys`right
      ensures Mirror() && Searching(m0, m, node, lo', hi, root, s', whole, k) && m.Keys == old(m.Keys)
      ensures root != null && left' == Last(lo', node) && s.Bin? && s'.Bin? && TurnedRight(s, k, stop, lo, lo', s')
      ensures if stop then Found(s', k) else Size(s') < Size(s)
    {
      hide Mirror, Searching, RotatedLeft, TurnedRight, Splayed;
      RootIsTop(m0, node, lo, hi, s, whole, k);
      RightTurns(s, k, lo);
      left', lo', s' := left, lo, s;
      var tmp := root.right;
      if tmp == null {
        return true, left', lo', s';
      }
      if k > tmp.key {
        RotateLeftPlan(m0, m, node, lo, hi, root, s, whole, k);
        RotateLeftLinks(tmp);
        s' := Bin(Bin(s.l, s.x, s.r.l), s.r.x, s.r.r);
        RootIsTop(m0, node, lo, hi, s', whole, k);
        if root.right == null {
          return true, left', lo', s';
        }
      }
      LinkRightPlan(m0, m, node, lo, hi, root, s', whole, k);
      left' := LinkRightLinks(left);
      lo', s' := More(lo, s'.x, s'.l), s'.r;
      return false, left', lo', s';
    }

    /** SPLAY: the in-order sequence stays; nodes before the new root have smaller keys than
        `k`, nodes after it have greater keys, so that the root has the key if a node has it. */
    method Splay(k: int) returns (ghost turns: nat)
      requires Linked() && root != null
      modifies `root, `m, `t, m.Keys`left, m.Keys`right
      ensures Linked() && root != null && m.Keys == old(m.Keys) && In(t) == old(In(t)) && t.Bin? && t.x == root
      ensures Below(In(t.l), k) && Beyond(In(t.r), k) && Outside(old(m), m, In(t))
      ensures old(t).Bin? && t == Whole(Splayed(old(t), k)) && turns == Splayed(old(t), k).turns
    {
      ghost var m0, whole := m, In(t);
      var node := AddNode();
      StartPlan(m0, node, root, t, k);
      hide Mirror, Searching, Sorted, At, In, Outside, Below, Beyond, Splayed;
      ghost var lo, hi, s;
      var left, right;
      left, right, turns, lo, hi, s := Search(k, node, m0, t, whole);
      Finish(k, node, left, right, m0, lo, hi, s, whole);
    }

    // The loop of SPLAY; `turns` counts its turns.
    method Search(k: int, node: Node, ghost m0: Mem, ghost s0: Tree, ghost whole: seq<Node>)
      returns (left: Node, right: Node, ghost turns: nat, ghost lo: Spine, ghost hi: Spine, ghost s: Tree)
      requires Mirror() && m.Keys == m0.Keys + {node} && Searching(m0, m, node, Top, Top, root, s0, whole, k)
      modifies `root, `m, m.Keys`left, m.Keys`right
      ensures Mirror() && m.Keys == m0.Keys + {node} && Searching(m0, m, node, lo, hi, root, s, whole, k)
      ensures root != null && left == Last(lo, node) && right == Last(hi, node) && Found(s, k)
      ensures s0.Bin? && Splayed(s0, k) == Resumed(lo, hi, Outcome(s.l, s.x, s.r, 0), turns)
    {
      hide Mirror, Searching, Splayed, Resumed, TurnedLeft, TurnedRight;
      left, right, turns := node, node, 0;
      lo, hi, s := Top, Top, s0;
      RootIsTop(m0, node, lo, hi, s, whole, k);
      FirstTurn(Splayed(s0, k));
      while k != root.key
        invariant Mirror() && m.Keys == m0.Keys + {node} && Searching(m0, m, node, lo, hi, root, s, whole, k)
        invariant root != null && left == Last(lo, node) && right == Last(hi, node)
        invariant s.Bin? && s.x == root && Resumed(lo, hi, Splayed(s, k), turns) == Splayed(s0, k)
        decreases Size(s)
      {
        RootIsTop(m0, node, lo, hi, s, whole, k);
        ghost var lo0, hi0, s1 := lo, hi, s;
        var stop: bool;
        if k < root.key {
          stop, right, hi, s := TurnLeft(k, right, m0, node, lo, hi, s, whole);
          ResumeLeft(s1, k, stop, lo, hi0, hi, s, turns);
        } else {
          stop, left, lo, s := TurnRight(k, left, m0, node, lo, hi, s, whole);
          ResumeRight(s1, k, stop, lo0, lo, hi, s, turns);
        }
        turns := turns + 1;
        RootIsTop(m0, node, lo, hi, s, whole, k);
        if stop {
          return;
        }
      }
      NoTurn(s);
    }

    // SPLAY after its loop.
    method Finish(k: int, node: Node, left: Node, right: Node, ghost m0: Mem, ghost lo: Spine, ghost hi: Spine, ghost s: Tree,
                  ghost whole: seq<Node>)
      requires Mirror() && Searching(m0, m, node, lo, hi, root, s, whole, k) && Found(s, k)
      requires root != null && left == Last(lo, node) && right == Last(hi, node) && m.Keys == m0.Keys + {node}
      modifies `m, `t, m.Keys`left, m.Keys`right
      ensures Mirror() && At(m, root, t) && Sorted(In(t)) && m.Keys == m0.Keys && In(t) == whole && t.Bin? && t.x == root
      ensures Below(In(t.l), k) && Beyond(In(t.r), k) && Outside(m0, m, whole)
      ensures s.Bin? && t == Bin(PlugL(lo, s.l), s.x, PlugR(hi, s.r))
    {
      hide Mirror, Searching, Assembled, Sorted, In, Outside, Below, Beyond;
      AssemblePlan(m0, m, node, lo, hi, root, s, whole, k);
      RootIsTop(m0, node, lo, hi, s, whole, k);
      AssembleLinks(node, left, right);
      SetTree(Bin(PlugL(lo, s.l), s.x, PlugR(hi, s.r)));
    }

    ghost method SetTree(t': Tree)
      requires Mirror()
      modifies `t
      ensures Mirror() && t == t'
    {
      t := t';
    }

    // What a splay of the whole tree leaves.
    method SplayAll(k: int) returns (ghost turns: nat)
      requires Valid() && root != null
      modifies `root, `m, `t, m.Keys`left, m.Keys`right
      ensures Valid() && root != null && m.Keys == old(m.Keys) && In(t) == old(In(t)) && t.Bin? && t.x == root && root in m
      ensures Below(In(t.l), k) && Beyond(In(t.r), k)
      ensures forall y :: y in m && y.key == k ==> y == root
      ensures old(t).Bin? && t == Whole(Splayed(old(t), k)) && turns == Splayed(old(t), k).turns
    {
      hide Linked, Splayed;
      turns := Splay(k);
      KeyAtRoot(t, k);
      InRoot();
    }

    lemma {:induction false} InRoot()
      requires Linked() && t.Bin?
      ensures t.x in m
    {
    }

    /** SPLAY_FIND */
    method Find(k: int) returns (r: Node?, ghost turns: nat)
      requires Valid()
      modifies `root, `m, `t, m.Keys`left, m.Keys`right
      ensures Valid() && In(t) == old(In(t)) && m.Keys == old(m.Keys)
      ensures r != null ==> r in m && r.key == k && r == root
      ensures r == null ==> forall y :: y in m ==> y.key != k
      ensures Cost(old(t), t, turns)
    {
      hide Linked, Splayed, Cost, Whole;
      EmptyTree();
      if root == null {
        NoCost(t);
        return null, 0;
      }
      ghost var t0 := t;
      turns := SplayAll(k);
      FindCost(t0, k);
      return if k == root.key then root else null, turns;
    }

    lemma {:induction false} EmptyTree()
      requires Valid()
      ensures root == null <==> m.Keys == {}
      ensures root == null ==> t == Nil
    {
      if root != null {
        assert root in m;
      }
    }

    method InsertBeforeLinks(elm: Node)
      requires Mirror() && elm !in m && root != null && root in m
      modifies `root, `m, m.Keys`left, elm`left, elm`right
      ensures Mirror() && root == elm
      ensures var m' := old(m)[elm := Rec(old(m)[old(root)].left, old(root))];
        m == m'[old(root) := m'[old(root)].(left := null)]
    {
      ghost var m' := m[elm := Rec(m[root].left, root)];
      elm.left := root.left;
      elm.right := root;
      root.left := null;
      m := m'[root := m'[root].(left := null)];
      root := elm;
    }

    method InsertAfterLinks(elm: Node)
      requires Mirror() && elm !in m && root != null && root in m
      modifies `root, `m, m.Keys`right, elm`left, elm`right
      ensures Mirror() && root == elm
      ensures var m' := old(m)[elm := Rec(old(root), old(m)[old(root)].right)];
        m == m'[old(root) := m'[old(root)].(right := null)]
    {
      ghost var m' := m[elm := Rec(root, m[root].right)];
      elm.right := root.right;
      elm.left := root;
      root.right := null;
      m := m'[root := m'[root].(right := null)];
      root := elm;
    }

    method InsertBefore(elm: Node)
      requires Valid() && elm !in m && root != null && t.Bin? && t.x == root && elm.key < root.key && Below(In(t.l), elm.key)
      modifies this, m.Keys`left, m.Keys`right, elm`left, elm`right
      ensures Valid() && root == elm && m.Keys == old(m.Keys) + {elm}
      ensures t == Bin(old(t).l, elm, Bin(Nil, old(t).x, old(t).r))
    {
      hide At, In, Sorted, Mirror, Members, Below;
      InsertBeforePlan(m, root, t, elm);
      InsertBeforeLinks(elm);
      SetTree(Bin(t.l, elm, Bin(Nil, t.x, t.r)));
    }

    method InsertAfter(elm: Node)
      requires Valid() && elm !in m && root != null && t.Bin? && t.x == root && elm.key > root.key && Beyond(In(t.r), elm.key)
      modifies this, m.Keys`left, m.Keys`right, elm`left, elm`right
      ensures Valid() && root == elm && m.Keys == old(m.Keys) + {elm}
      ensures t == Bin(Bin(old(t).l, old(t).x, Nil), elm, old(t).r)
    {
      hide At, In, Sorted, Mirror, Members, Beyond;
      InsertAfterPlan(m, root, t, elm);
      InsertAfterLinks(elm);
      SetTree(Bin(Bin(t.l, t.x, Nil), elm, t.r));
    }

    method InsertFirst(elm: Node)
      requires Valid() && root == null
      modifies this, elm`left, elm`right
      ensures Valid() && root == elm && m.Keys == {elm} && t == Bin(Nil, elm, Nil) && old(t) == Nil
    {
      EmptyTree();
      elm.left, elm.right := null, null;
      m := map[elm := Rec(null, null)];
      root := elm;
      t := Bin(Nil, elm, Nil);
    }

    /** SPLAY_INSERT: the tree gains exactly `elm`, or already has a node with its key and
        returns that one, which is `elm` itself if it was inserted before. */
    method Insert(elm: Node) returns (r: Node?, ghost turns: nat)
      requires Valid()
      modifies this, m.Keys`left, m.Keys`right, elm`left, elm`right
      ensures Valid() && root != null && root.key == elm.key
      ensures elm in old(m) ==> r == elm
      ensures r == null ==> m.Keys == old(m.Keys) + {elm} && root == elm && forall y :: y in old(m) ==> y.key != elm.key
      ensures r != null ==> m.Keys == old(m.Keys) && In(t) == old(In(t)) && r in m && r.key == elm.key
      ensures Cost(old(t), t, turns)
    {
      hide Linked, Splayed, Cost;
      EmptyTree();
      if root == null {
        InsertFirst(elm);
        FirstCost(elm);
        return null, 0;
      }
      ghost var t0 := t;
      turns := SplayAll(elm.key);
      FindCost(t0, elm.key);
      InsertCost(t0, elm);
      if elm.key < root.key {
        InsertBefore(elm);
      } else if elm.key > root.key {
        InsertAfter(elm);
      } else {
        return root, turns;
      }
      return null, turns;
    }

    // The root moves to one of its subtrees.
    method SetRoot(r: Node?, ghost t': Tree)
      requires Mirror()
      modifies `root, `t
      ensures Mirror() && root == r && t == t'
    {
      root := r;
      t := t';
    }

    ghost method Forget(x: Node)
      requires Mirror()
      modifies `m
      ensures Mirror() && m == old(m) - {x}
    {
      m := m - {x};
    }

    method SetRight(x: Node, r: Node?)
      requires Mirror() && x in m
      modifies `m, x`right
      ensures Mirror() && m == old(m)[x := old(m)[x].(right := r)]
    {
      x.right := r;
      m := m[x := m[x].(right := r)];
    }

    method SetLeft(x: Node, l: Node?)
      requires Mirror() && x in m
      modifies `m, x`left
      ensures Mirror() && m == old(m)[x := old(m)[x].(left := l)]
    {
      x.left := l;
      m := m[x := m[x].(left := l)];
    }

    // SPLAY_REMOVE for a root without left child.
    method RemoveOuter()
      requires Valid() && root != null && t.Bin? && t.x == root && t.l.Nil?
      modifies `root, `m, `t
      ensures Valid() && m.Keys == old(m.Keys) - {old(root)} && t == old(t).r
    {
      ghost var x := root;
      RemoveOuterPlan(m, t);
      Reads(root);
      hide Mirror, At, Sorted, In;
      SetRoot(root.right, t.r);
      Forget(x);
    }

    // SPLAY_REMOVE for a root that has a left child.
    method RemoveInner(k: int) returns (ghost turns: nat)
      requires Valid() && root != null && t.Bin? && t.x == root && t.l.Bin? && root.key == k && Below(In(t.l), k)
      modifies `root, `m, `t, m.Keys`left, m.Keys`right
      ensures Valid() && m.Keys == old(m.Keys) - {old(root)}
      ensures var p := Splayed(old(t).l, k); p.r.Nil? && t == Bin(p.l, p.x, old(t).r) && turns == p.turns
    {
      ghost var x, t0, m0 := root, t, m;
      RemoveInnerPlan(m, t);
      Reads(root);
      hide Mirror, At, Sorted, In, Members, Below, Beyond, Outside, Splayed;
      var tmp := root.right;
      SetRoot(root.left, t.l);
      turns := Splay(k);
      JoinPlan(m0, m, t0, t, k);
      Hang(tmp, Bin(t.l, t.x, t0.r), x);
    }

    // Hang the right subtree below the new root; the old root is forgotten.
    method Hang(r: Node?, ghost t': Tree, ghost x: Node)
      requires Mirror() && root != null && root in m
      modifies `m, `t, m.Keys`right
      ensures Mirror() && m == old(m)[root := old(m)[root].(right := r)] - {x} && t == t'
    {
      hide Mirror;
      SetRight(root, r);
      SetTree(t');
      Forget(x);
    }

    /** SPLAY_REMOVE: the tree loses exactly the node with the key of `elm`, if there is one. */
    method Remove(elm: Node) returns (r: Node?, ghost turns: nat)
      requires Valid()
      modifies `root, `m, `t, m.Keys`left, m.Keys`right
      ensures Valid()
      ensures r != null ==> r == elm && exists x :: x in old(m) && x.key == elm.key && m.Keys == old(m.Keys) - {x}
      ensures r == null ==> m.Keys == old(m.Keys) && In(t) == old(In(t)) && forall y :: y in m ==> y.key != elm.key
      ensures Cost(old(t), t, turns)
    {
      hide Linked, Splayed, Cost;
      EmptyTree();
      if root == null {
        NoCost(t);
        return null, 0;
      }
      ghost var t0 := t;
      turns := SplayAll(elm.key);
      FindCost(t0, elm.key);
      if elm.key == root.key {
        LeftLink();
        RemoveCost(t0, elm.key);
        if root.left == null {
          RemoveOuter();
        } else {
          ghost var more := RemoveInner(elm.key);
          turns := turns + more;
        }
        return elm, turns;
      }
      return null, turns;
    }

    /** Any sequence of operations; `turns` are those of all splays together.  On a new tree they
        are at most `5 * k + 2` for each operation if there are at most `2^k` operations. */
    method Run(ops: seq<Op>) returns (ghost turns: nat)
      requires Valid()
      modifies this, m.Keys, Puts(ops)
      ensures Valid() && Afforded(old(t), t, turns, Power(Budget(Size(old(t)) + |ops|), |ops|))
      ensures forall k: nat :: old(t) == Nil && |ops| <= Pow2(k) ==> turns <= |ops| * (5 * k + 2)
    {
      hide Afforded, Budget, Cost, Power, Size, Linked;
      var i := 0;
      turns := 0;
      ghost var n := Size(t) + |ops|;
      NothingAfforded(t);
      while i < |ops|
        invariant i <= |ops| && Valid() && m.Keys <= old(m.Keys) + Puts(ops)
        invariant Size(t) <= Size(old(t)) + i && Afforded(old(t), t, turns, Power(Budget(n), i))
      {
        assert ops[i] in ops;
        ghost var t0 := t;
        ghost var more := Step(ops[i]);
        OneMore(old(t), t0, t, turns, more, n, i);
        turns := turns + more;
        i := i + 1;
      }
      AverageRun(old(t), t, turns, |ops|);
    }

    method Step(op: Op) returns (ghost turns: nat)
      requires Valid()
      modifies this, m.Keys, if op.Put? then {op.n} else {}
      ensures Valid() && m.Keys <= old(m.Keys) + (if op.Put? then {op.n} else {})
      ensures Cost(old(t), t, turns)
    {
      hide Cost;
      var r;
      match op
      case Look(key) => r, turns := Find(key);
      case Put(n) => r, turns := Insert(n);
      case Cut(n) => r, turns := Remove(n);
    }

    lemma {:induction false} LeftLink()
      requires Linked() && root != null
      ensures t.Bin? && (root.left == null <==> t.l.Nil?)
    {
      AtParts(m, root, t);
    }
  }

  lemma {:induction false} AllIn(m: Mem, p: Node?, t: Tree)
    requires At(m, p, t)
    ensures forall x :: x in In(t) ==> x in m
  {
    if t.Bin? {
      AllIn(m, m[t.x].left, t.l);
      AllIn(m, m[t.x].right, t.r);
    }
  }

  lemma {:induction false} StartPlan(m0: Mem, d: Node, root: Node?, t: Tree, k: int)
    requires At(m0, root, t) && root != null && Sorted(In(t)) && d !in m0 && d !in In(t)
    ensures Searching(m0, m0[d := Rec(null, null)], d, Top, Top, root, t, In(t), k)
  {
    AtFrame(m0, m0[d := Rec(null, null)], root, t);
    assert [] + In(t) + [] == In(t);
  }

  // After a splay only the root can have the key.
  lemma {:induction false} KeyAtRoot(t: Tree, k: int)
    requires t.Bin? && Below(In(t.l), k) && Beyond(In(t.r), k)
    ensures forall y :: y in In(t) && y.key == k ==> y == t.x
  {
  }

  lemma {:induction false} InsertBeforeAt(m: Mem, root: Node?, t: Tree, e: Node)
    requires At(m, root, t) && Sorted(In(t)) && t.Bin? && e !in In(t)
    ensures root != null && root == t.x && root in m && root != e
    ensures var m' := m[e := Rec(m[root].left, root)];
      At(m'[root := m'[root].(left := null)], e, Bin(t.l, e, Bin(Nil, t.x, t.r)))
  {
    AtParts(m, root, t);
    TreeParts(t);
    var x := t.x;
    var v := Rec(m[x].left, x);
    var m' := m[e := v];
    AtUpdate(m, m[x].left, t.l, e, v);
    AtUpdate(m, m[x].right, t.r, e, v);
    AtUpdate(m', m[x].left, t.l, x, m'[x].(left := null));
    AtUpdate(m', m[x].right, t.r, x, m'[x].(left := null));
    assert At(m'[x := m'[x].(left := null)], x, Bin(Nil, x, t.r));
  }

  lemma {:induction false} InsertAfterAt(m: Mem, root: Node?, t: Tree, e: Node)
    requires At(m, root, t) && Sorted(In(t)) && t.Bin? && e !in In(t)
    ensures root != null && root == t.x && root in m && root != e
    ensures var m' := m[e := Rec(root, m[root].right)];
      At(m'[root := m'[root].(right := null)], e, Bin(Bin(t.l, t.x, Nil), e, t.r))
  {
    AtParts(m, root, t);
    TreeParts(t);
    var x := t.x;
    var v := Rec(x, m[x].right);
    var m' := m[e := v];
    AtUpdate(m, m[x].left, t.l, e, v);
    AtUpdate(m, m[x].right, t.r, e, v);
    AtUpdate(m', m[x].left, t.l, x, m'[x].(right := null));
    AtUpdate(m', m[x].right, t.r, x, m'[x].(right := null));
    assert At(m'[x := m'[x].(right := null)], x, Bin(t.l, x, Nil));
  }

  lemma {:induction false} InsertBeforeIn(t: Tree, e: Node)
    requires t.Bin? && Sorted(In(t)) && e.key < t.x.key && Below(In(t.l), e.key)
    ensures var t' := Bin(t.l, e, Bin(Nil, t.x, t.r)); Sorted(In(t')) && Members(In(t')) == Members(In(t)) + {e}
  {
    var b := [t.x] + In(t.r);
    BeyondCons(t, e.key);
    InBin(t.l, t.x, t.r);
    InBin(Nil, t.x, t.r);
    InBin(t.l, e, Bin(Nil, t.x, t.r));
    assert [] + [t.x] + In(t.r) == b;
    assert In(t.l) + [t.x] + In(t.r) == In(t.l) + b;
    hide In, Sorted, Members, Below, Beyond;
    InsertedSorted(In(t.l), e, b);
  }

  lemma {:induction false} BeyondCons(t: Tree, k: int)
    requires t.Bin? && Sorted(In(t)) && k < t.x.key
    ensures Beyond([t.x] + In(t.r), k) && In(Nil) == []
  {
    RightOf(t);
  }

  lemma {:induction false} InBin(l: Tree, x: Node, r: Tree)
    ensures In(Bin(l, x, r)) == In(l) + [x] + In(r)
  {
  }

  lemma {:induction false} InsertAfterIn(t: Tree, e: Node)
    requires t.Bin? && Sorted(In(t)) && e.key > t.x.key && Beyond(In(t.r), e.key)
    ensures var t' := Bin(Bin(t.l, t.x, Nil), e, t.r); Sorted(In(t')) && Members(In(t')) == Members(In(t)) + {e}
  {
    RightOf(t);
    var a := In(t.l) + [t.x];
    assert In(Bin(t.l, t.x, Nil)) == a;
    hide In;
    assert Below(a, e.key);
    InsertedSorted(a, e, In(t.r));
    InBin(Bin(t.l, t.x, Nil), e, t.r);
  }

  lemma {:induction false} InsertBeforePlan(m: Mem, root: Node?, t: Tree, e: Node)
    requires At(m, root, t) && Sorted(In(t)) && m.Keys == Members(In(t)) && t.Bin? && e !in m
    requires e.key < t.x.key && Below(In(t.l), e.key)
    ensures root != null && root == t.x && root in m && root != e
    ensures var m' := m[e := Rec(m[root].left, root)]; var t' := Bin(t.l, e, Bin(Nil, t.x, t.r));
      && At(m'[root := m'[root].(left := null)], e, t') && Sorted(In(t')) && m.Keys + {e} == Members(In(t'))
  {
    assert e !in Members(In(t));
    InsertBeforeAt(m, root, t, e);
    InsertBeforeIn(t, e);
  }

  lemma {:induction false} InsertAfterPlan(m: Mem, root: Node?, t: Tree, e: Node)
    requires At(m, root, t) && Sorted(In(t)) && m.Keys == Members(In(t)) && t.Bin? && e !in m
    requires e.key > t.x.key && Beyond(In(t.r), e.key)
    ensures root != null && root == t.x && root in m && root != e
    ensures var m' := m[e := Rec(root, m[root].right)]; var t' := Bin(Bin(t.l, t.x, Nil), e, t.r);
      && At(m'[root := m'[root].(right := null)], e, t') && Sorted(In(t')) && m.Keys + {e} == Members(In(t'))
  {
    assert e !in Members(In(t));
    InsertAfterAt(m, root, t, e);
    InsertAfterIn(t, e);
  }

  lemma {:induction false} InsertedSorted(a: seq<Node>, e: Node, b: seq<Node>)
    requires Sorted(a + b) && Below(a, e.key) && Beyond(b, e.key)
    ensures Sorted(a + [e] + b) && Members(a + [e] + b) == Members(a + b) + {e}
  {
    SortedCat(a, b);
    SortedCat(a, [e]);
    SortedCat(a + [e], b);
    assert forall y :: y in a + [e] + b <==> y in a + b || y == e;
  }

  lemma {:induction false} RemoveOuterPlan(m: Mem, t: Tree)
    requires t.Bin? && At(m, t.x, t) && Sorted(In(t)) && m.Keys == Members(In(t)) && t.l.Nil?
    ensures t.x in m && At(m - {t.x}, m[t.x].right, t.r) && Sorted(In(t.r)) && m.Keys - {t.x} == Members(In(t.r))
  {
    TreeParts(t);
    AtFrame(m, m - {t.x}, m[t.x].right, t.r);
    assert In(t) == [t.x] + In(t.r);
    assert forall y :: y in In(t) <==> y == t.x || y in In(t.r);
  }

  lemma {:induction false} RemoveInnerPlan(m: Mem, t: Tree)
    requires t.Bin? && At(m, t.x, t) && Sorted(In(t)) && t.l.Bin?
    ensures t.x in m && At(m, m[t.x].left, t.l) && m[t.x].left != null && Sorted(In(t.l))
  {
    TreeParts(t);
  }

  // No node of the left subtree is greater than the removed key.
  lemma {:induction false} NoRightChild(t0: Tree, t: Tree)
    requires t0.Bin? && Sorted(In(t0)) && t.Bin? && Sorted(In(t)) && In(t) == In(t0.l) && Beyond(In(t.r), t0.x.key)
    ensures t.r == Nil
  {
    RightOf(t0);
    if t.r.Bin? {
      RootIn(t.r);
      TreeParts(t);
    }
  }

  lemma {:induction false} RootIn(t: Tree)
    requires t.Bin?
    ensures t.x in In(t)
  {
    assert t.x in [t.x];
  }

  lemma {:induction false} JoinAt(m0: Mem, m: Mem, t0: Tree, t: Tree)
    requires t0.Bin? && At(m0, t0.x, t0) && Sorted(In(t0)) && t.Bin? && At(m, t.x, t) && Sorted(In(t)) && t.r == Nil
    requires In(t) == In(t0.l) && Outside(m0, m, In(t))
    ensures t0.x in m0 && t.x in m
    ensures At(m[t.x := m[t.x].(right := m0[t0.x].right)] - {t0.x}, t.x, Bin(t.l, t.x, t0.r))
  {
    var r := m0[t0.x].right;
    TreeParts(t0);
    TreeParts(t);
    var m1 := m[t.x := m[t.x].(right := r)];
    AtFrame(m0, m, r, t0.r);
    AtReplaced(m, r, t0.r, t.x, m1[t.x], t0.x);
    AtReplaced(m, m[t.x].left, t.l, t.x, m1[t.x], t0.x);
  }

  lemma {:induction false} JoinIn(t0: Tree, t: Tree)
    requires t0.Bin? && Sorted(In(t0)) && t.Bin? && t.r == Nil && In(t) == In(t0.l)
    ensures In(Bin(t.l, t.x, t0.r)) == In(t0.l) + In(t0.r)
    ensures Sorted(In(t0.l) + In(t0.r)) && Members(In(t0.l) + In(t0.r)) == Members(In(t0)) - {t0.x}
  {
    var a, x, c := In(t0.l), t0.x, In(t0.r);
    TreeParts(t0);
    assert In(t.l) + [t.x] + [] == In(t.l) + [t.x];
    SortedCat(a + [x], c);
    SortedCat(a, [x]);
    SortedCat(a, c);
    assert forall y :: y in a + c <==> y in In(t0) && y != x;
  }

  /** After the left subtree is splayed again for the removed key, its root has no right
      child, so that the right subtree can be hung there. */
  lemma {:induction false} JoinPlan(m0: Mem, m: Mem, t0: Tree, t: Tree, k: int)
    requires t0.Bin? && At(m0, t0.x, t0) && Sorted(In(t0)) && m0.Keys == Members(In(t0)) && t0.x.key == k
    requires t.Bin? && At(m, t.x, t) && Sorted(In(t)) && In(t) == In(t0.l) && m.Keys == m0.Keys
    requires Beyond(In(t.r), k) && Outside(m0, m, In(t))
    ensures t0.x in m0 && t.r == Nil && t.x in m && m[t.x].right == null
    ensures var t' := Bin(t.l, t.x, t0.r); var m' := m[t.x := m[t.x].(right := m0[t0.x].right)] - {t0.x};
      At(m', t.x, t') && Sorted(In(t')) && m'.Keys == m0.Keys - {t0.x} == Members(In(t'))
  {
    NoRightChild(t0, t);
    JoinAt(m0, m, t0, t);
    JoinIn(t0, t);
    hide In, Sorted, Members, Outside;
  }
}
