/** Top-down splaying as a function, and the amortized bound on its turns.  Logarithms are
    avoided: the potential is the product of the sizes of all subtrees. */
module SplayCost {
  import opened SplayShape
  import opened SplayNumbers
  import opened PowerOfTwo

  ghost function Size(t: Tree): nat {
    if t.Nil? then 0 else Size(t.l) + 1 + Size(t.r)
  }

  /** What SPLAY leaves: the root, its subtrees, and how many turns the loop made. */
  datatype Outcome = Outcome(l: Tree, x: Node, r: Tree, turns: nat)

  /** A turn rotates if the search goes on in the same direction, and links one node to the
      tree of smaller or of greater nodes unless there is no child to go on with. */
  ghost function Splayed(t: Tree, k: int): Outcome
    requires t.Bin?
  {
    if k == t.x.key then Outcome(t.l, t.x, t.r, 0)
    else if k < t.x.key then
      if t.l.Nil? then Outcome(t.l, t.x, t.r, 1)
      else if k < t.l.x.key then
        var r := Bin(t.l.r, t.x, t.r);
        if t.l.l.Nil? then Outcome(Nil, t.l.x, r, 1)
        else
          var p := Splayed(t.l.l, k);
          Outcome(p.l, p.x, Bin(p.r, t.l.x, r), 1 + p.turns)
      else
        var p := Splayed(t.l, k);
        Outcome(p.l, p.x, Bin(p.r, t.x, t.r), 1 + p.turns)
    else
      if t.r.Nil? then Outcome(t.l, t.x, t.r, 1)
      else if k > t.r.x.key then
        var l := Bin(t.l, t.x, t.r.l);
        if t.r.r.Nil? then Outcome(l, t.r.x, Nil, 1)
        else
          var p := Splayed(t.r.r, k);
          Outcome(Bin(l, t.r.x, p.l), p.x, p.r, 1 + p.turns)
      else
        var p := Splayed(t.r, k);
        Outcome(Bin(t.l, t.x, p.l), p.x, p.r, 1 + p.turns)
  }

  ghost function Whole(p: Outcome): Tree {
    Bin(p.l, p.x, p.r)
  }

  lemma {:induction false} SplayedSize(t: Tree, k: int)
    requires t.Bin?
    ensures Size(Splayed(t, k).l) + 1 + Size(Splayed(t, k).r) == Size(t)
  {
    if k < t.x.key && t.l.Bin? {
      if k < t.l.x.key {
        if t.l.l.Bin? {
          SplayedSize(t.l.l, k);
        }
      } else {
        SplayedSize(t.l, k);
      }
    } else if k > t.x.key && t.r.Bin? {
      if k > t.r.x.key {
        if t.r.r.Bin? {
          SplayedSize(t.r.r, k);
        }
      } else {
        SplayedSize(t.r, k);
      }
    }
  }

  // ---------- the potential ----------

  /** The product of the sizes of all subtrees. */
  ghost function Area(t: Tree): (a: nat)
    ensures a > 0
  {
    if t.Nil? then 1
    else
      Positive(Size(t), Area(t.l), Area(t.r));
      Size(t) * (Area(t.l) * Area(t.r))
  }

  lemma {:induction false} Positive(a: nat, b: nat, c: nat)
    requires a > 0 && b > 0 && c > 0
    ensures a * (b * c) > 0
  {
    assert b * c > 0;
  }

  lemma {:induction false} BinOf(l: Tree, x: Node, r: Tree)
    ensures Size(Bin(l, x, r)) == Size(l) + 1 + Size(r) && Size(Nil) == 0
    ensures Area(Bin(l, x, r)) == Size(Bin(l, x, r)) * (Area(l) * Area(r)) && Area(Nil) == 1
  {
  }

  lemma {:induction false} Powers(n: nat)
    ensures Pow2(n + 1) == 2 * Pow2(n) && Pow2(n + 2) == 4 * Pow2(n) && Pow2(0) == 1
  {
    assert Pow2(n + 2) == 2 * Pow2(n + 1);
  }

  // ---------- the turns ----------

  /** Two to the number of turns, times the area left, is at most a multiple of the area before. */
  ghost predicate Cheap(t: Tree, k: int)
    requires t.Bin?
  {
    var p := Splayed(t, k);
    Bounded(Pow2(p.turns), Area(p.l) * Area(p.r), Area(t), Size(t))
  }

  lemma {:induction false} ZigLeft(t: Tree, k: int)
    requires t.Bin? && k < t.x.key && t.l.Bin? && k < t.l.x.key && t.l.l.Bin? && Cheap(t.l.l, k)
    ensures Cheap(t, k)
  {
    hide Bounded;
    var p, p1 := Splayed(t, k), Splayed(t.l.l, k);
    var r := Bin(t.l.r, t.x, t.r);
    SplayedSize(t.l.l, k);
    assert p == Outcome(p1.l, p1.x, Bin(p1.r, t.l.x, r), 1 + p1.turns);
    hide Splayed, Area, Size;
    Powers(p1.turns);
    BinOf(t.l.r, t.x, t.r);
    BinOf(p1.r, t.l.x, r);
    BinOf(t.l.l, t.l.x, t.l.r);
    BinOf(t.l, t.x, t.r);
    ZigCost(Size(p.r), Size(r), Size(t.l), Size(t), Size(t.l.l), Pow2(p1.turns),
            Area(p1.l), Area(p1.r), Area(t.l.l), Area(t.l.r), Area(t.r));
  }

  lemma {:induction false} ZigRight(t: Tree, k: int)
    requires t.Bin? && k > t.x.key && t.r.Bin? && k > t.r.x.key && t.r.r.Bin? && Cheap(t.r.r, k)
    ensures Cheap(t, k)
  {
    hide Bounded;
    var p, p1 := Splayed(t, k), Splayed(t.r.r, k);
    var l := Bin(t.l, t.x, t.r.l);
    SplayedSize(t.r.r, k);
    assert p == Outcome(Bin(l, t.r.x, p1.l), p1.x, p1.r, 1 + p1.turns);
    hide Splayed, Area, Size;
    Powers(p1.turns);
    BinOf(t.l, t.x, t.r.l);
    BinOf(l, t.r.x, p1.l);
    BinOf(t.r.l, t.r.x, t.r.r);
    BinOf(t.l, t.x, t.r);
    ZigCost(Size(p.l), Size(l), Size(t.r), Size(t), Size(t.r.r), Pow2(p1.turns),
            Area(p1.l), Area(p1.r), Area(t.r.r), Area(t.r.l), Area(t.l));
  }

  // Two turns in opposite directions, neither with a rotation.
  lemma {:induction false} ZagLeft(t: Tree, k: int)
    requires t.Bin? && k < t.x.key && t.l.Bin? && k > t.l.x.key && t.l.r.Bin? && k <= t.l.r.x.key && Cheap(t.l.r, k)
    ensures Cheap(t, k)
  {
    hide Bounded;
    var p, p1, p2 := Splayed(t, k), Splayed(t.l, k), Splayed(t.l.r, k);
    SplayedSize(t.l.r, k);
    assert p1 == Outcome(Bin(t.l.l, t.l.x, p2.l), p2.x, p2.r, 1 + p2.turns);
    assert p == Outcome(p1.l, p1.x, Bin(p1.r, t.x, t.r), 1 + p1.turns);
    hide Splayed, Area, Size;
    Powers(p2.turns);
    BinOf(t.l.l, t.l.x, p2.l);
    BinOf(p2.r, t.x, t.r);
    BinOf(t.l.l, t.l.x, t.l.r);
    BinOf(t.l, t.x, t.r);
    ZagCost(Size(p.r), Size(p.l), Size(t.l), Size(t), Size(t.l.r), Pow2(p2.turns),
            Area(p2.l), Area(p2.r), Area(t.l.r), Area(t.l.l), Area(t.r));
  }

  lemma {:induction false} ZagRight(t: Tree, k: int)
    requires t.Bin? && k > t.x.key && t.r.Bin? && k < t.r.x.key && t.r.l.Bin? && k >= t.r.l.x.key && Cheap(t.r.l, k)
    ensures Cheap(t, k)
  {
    hide Bounded;
    var p, p1, p2 := Splayed(t, k), Splayed(t.r, k), Splayed(t.r.l, k);
    SplayedSize(t.r.l, k);
    assert p1 == Outcome(p2.l, p2.x, Bin(p2.r, t.r.x, t.r.r), 1 + p2.turns);
    assert p == Outcome(Bin(t.l, t.x, p1.l), p1.x, p1.r, 1 + p1.turns);
    hide Splayed, Area, Size;
    Powers(p2.turns);
    BinOf(t.l, t.x, p2.l);
    BinOf(p2.r, t.r.x, t.r.r);
    BinOf(t.r.l, t.r.x, t.r.r);
    BinOf(t.l, t.x, t.r);
    ZagCost(Size(p.l), Size(p.r), Size(t.r), Size(t), Size(t.r.l), Pow2(p2.turns),
            Area(p2.l), Area(p2.r), Area(t.r.l), Area(t.r.r), Area(t.l));
  }

  // A turn without and one, in the opposite direction, with a rotation.
  lemma {:induction false} ZagZigLeft(t: Tree, k: int)
    requires t.Bin? && k < t.x.key && t.l.Bin? && k > t.l.x.key && t.l.r.Bin? && k > t.l.r.x.key && t.l.r.r.Bin?
    requires Cheap(t.l.r.r, k)
    ensures Cheap(t, k)
  {
    hide Bounded;
    var s := t.l.r;
    var l := Bin(t.l.l, t.l.x, s.l);
    var p, p1, p2 := Splayed(t, k), Splayed(t.l, k), Splayed(s.r, k);
    SplayedSize(s.r, k);
    assert p1 == Outcome(Bin(l, s.x, p2.l), p2.x, p2.r, 1 + p2.turns);
    assert p == Outcome(p1.l, p1.x, Bin(p1.r, t.x, t.r), 1 + p1.turns);
    hide Splayed, Area, Size;
    Powers(p2.turns);
    BinOf(t.l.l, t.l.x, s.l);
    BinOf(l, s.x, p2.l);
    BinOf(p2.r, t.x, t.r);
    BinOf(s.l, s.x, s.r);
    BinOf(t.l.l, t.l.x, s);
    BinOf(t.l, t.x, t.r);
    ZagZigCost(Size(p.r), Size(p.l), Size(l), Size(s), Size(t), Size(t.l), Size(s.r), Pow2(p2.turns),
               Area(p2.l), Area(p2.r), Area(s.r), Area(t.l.l), Area(t.r), Area(s.l));
  }

  lemma {:induction false} ZagZigRight(t: Tree, k: int)
    requires t.Bin? && k > t.x.key && t.r.Bin? && k < t.r.x.key && t.r.l.Bin? && k < t.r.l.x.key && t.r.l.l.Bin?
    requires Cheap(t.r.l.l, k)
    ensures Cheap(t, k)
  {
    hide Bounded;
    var s := t.r.l;
    var r := Bin(s.r, t.r.x, t.r.r);
    var p, p1, p2 := Splayed(t, k), Splayed(t.r, k), Splayed(s.l, k);
    SplayedSize(s.l, k);
    assert p1 == Outcome(p2.l, p2.x, Bin(p2.r, s.x, r), 1 + p2.turns);
    assert p == Outcome(Bin(t.l, t.x, p1.l), p1.x, p1.r, 1 + p1.turns);
    hide Splayed, Area, Size;
    Powers(p2.turns);
    BinOf(s.r, t.r.x, t.r.r);
    BinOf(p2.r, s.x, r);
    BinOf(t.l, t.x, p2.l);
    BinOf(s.l, s.x, s.r);
    BinOf(s, t.r.x, t.r.r);
    BinOf(t.l, t.x, t.r);
    ZagZigCost(Size(p.l), Size(p.r), Size(r), Size(s), Size(t), Size(t.r), Size(s.l), Pow2(p2.turns),
               Area(p2.l), Area(p2.r), Area(s.l), Area(t.r.r), Area(t.l), Area(s.r));
  }

  // The last turns.
  // At most one turn, without a change.
  lemma {:induction false} StayCheap(t: Tree, k: int)
    requires t.Bin? && Splayed(t, k).turns <= 1 && Splayed(t, k).l == t.l && Splayed(t, k).r == t.r
    ensures Cheap(t, k)
  {
    var n, turns := Size(t), Splayed(t, k).turns;
    BinOf(t.l, t.x, t.r);
    Powers(0);
    hide Splayed, Area, Size;
    MulBoth(1, n, 1, n);
    EndCost(Pow2(turns), 1, Area(t.l) * Area(t.r), n, n);
  }

  lemma {:induction false} EndLeft(t: Tree, k: int)
    requires t.Bin? && k < t.x.key && t.l.Bin?
    requires (k < t.l.x.key && t.l.l.Nil?) || k == t.l.x.key
    ensures Cheap(t, k)
  {
    hide Bounded;
    var p, p1 := Splayed(t, k), Splayed(t.l, k);
    assert k == t.l.x.key ==> p1 == Outcome(t.l.l, t.l.x, t.l.r, 0);
    assert p == Outcome(t.l.l, t.l.x, Bin(t.l.r, t.x, t.r), 1);
    hide Splayed, Area, Size;
    Powers(0);
    BinOf(t.l.r, t.x, t.r);
    BinOf(t.l.l, t.l.x, t.l.r);
    BinOf(t.l, t.x, t.r);
    EndNumbers(2, Size(p.r), Size(t.l), Size(t), Area(t.l.l), Area(t.l.r), Area(t.r));
  }

  lemma {:induction false} EndRight(t: Tree, k: int)
    requires t.Bin? && k > t.x.key && t.r.Bin?
    requires (k > t.r.x.key && t.r.r.Nil?) || k == t.r.x.key
    ensures Cheap(t, k)
  {
    hide Bounded;
    var p, p1 := Splayed(t, k), Splayed(t.r, k);
    assert k == t.r.x.key ==> p1 == Outcome(t.r.l, t.r.x, t.r.r, 0);
    assert p == Outcome(Bin(t.l, t.x, t.r.l), t.r.x, t.r.r, 1);
    hide Splayed, Area, Size;
    Powers(0);
    BinOf(t.l, t.x, t.r.l);
    BinOf(t.r.l, t.r.x, t.r.r);
    BinOf(t.l, t.x, t.r);
    EndNumbers(2, Size(p.l), Size(t.r), Size(t), Area(t.r.r), Area(t.r.l), Area(t.l));
  }

  lemma {:induction false} TurnBackLeft(t: Tree, k: int)
    requires t.Bin? && k < t.x.key && t.l.Bin? && k > t.l.x.key && t.l.r.Nil?
    ensures Cheap(t, k)
  {
    hide Bounded;
    var p, p1 := Splayed(t, k), Splayed(t.l, k);
    assert p1 == Outcome(t.l.l, t.l.x, Nil, 1);
    assert p == Outcome(t.l.l, t.l.x, Bin(Nil, t.x, t.r), 2);
    hide Splayed, Area, Size;
    Powers(0);
    BinOf(Nil, t.x, t.r);
    BinOf(t.l.l, t.l.x, Nil);
    BinOf(t.l, t.x, t.r);
    EndNumbers(4, Size(p.r), Size(t.l), Size(t), Area(t.l.l), 1, Area(t.r));
  }

  lemma {:induction false} TurnBackRight(t: Tree, k: int)
    requires t.Bin? && k > t.x.key && t.r.Bin? && k < t.r.x.key && t.r.l.Nil?
    ensures Cheap(t, k)
  {
    hide Bounded;
    var p, p1 := Splayed(t, k), Splayed(t.r, k);
    assert p1 == Outcome(Nil, t.r.x, t.r.r, 1);
    assert p == Outcome(Bin(t.l, t.x, Nil), t.r.x, t.r.r, 2);
    hide Splayed, Area, Size;
    Powers(0);
    BinOf(t.l, t.x, Nil);
    BinOf(Nil, t.r.x, t.r.r);
    BinOf(t.l, t.x, t.r);
    EndNumbers(4, Size(p.l), Size(t.r), Size(t), Area(t.r.r), 1, Area(t.l));
  }

  lemma {:induction false} RotatesBackLeft(t: Tree, k: int)
    requires t.Bin? && k < t.x.key && t.l.Bin? && k > t.l.x.key && t.l.r.Bin? && k > t.l.r.x.key && t.l.r.r.Nil?
    ensures Splayed(t, k) == Outcome(Bin(t.l.l, t.l.x, t.l.r.l), t.l.r.x, Bin(Nil, t.x, t.r), 2)
  {
    assert Splayed(t.l, k) == Outcome(Bin(t.l.l, t.l.x, t.l.r.l), t.l.r.x, Nil, 1);
  }

  lemma {:induction false} RotateBackLeft(t: Tree, k: int)
    requires t.Bin? && k < t.x.key && t.l.Bin? && k > t.l.x.key && t.l.r.Bin? && k > t.l.r.x.key && t.l.r.r.Nil?
    ensures Cheap(t, k)
  {
    hide Bounded, Splayed, Area, Size, Pow2;
    var s, p := t.l.r, Splayed(t, k);
    var u, v, z := Area(t.l.l), Area(t.r), Area(s.l);
    RotatesBackLeft(t, k);
    NilOf();
    Powers(0);
    BinOf(t.l.l, t.l.x, s.l);
    BinOf(Nil, t.x, t.r);
    BinOf(s.l, s.x, s.r);
    BinOf(t.l.l, t.l.x, s);
    BinOf(t.l, t.x, t.r);
    BackNumbers(Size(p.r), Size(p.l), Size(t.l), Size(t), Size(s), u, v, z);
  }

  lemma {:induction false} RotatesBackRight(t: Tree, k: int)
    requires t.Bin? && k > t.x.key && t.r.Bin? && k < t.r.x.key && t.r.l.Bin? && k < t.r.l.x.key && t.r.l.l.Nil?
    ensures Splayed(t, k) == Outcome(Bin(t.l, t.x, Nil), t.r.l.x, Bin(t.r.l.r, t.r.x, t.r.r), 2)
  {
    assert Splayed(t.r, k) == Outcome(Nil, t.r.l.x, Bin(t.r.l.r, t.r.x, t.r.r), 1);
  }

  lemma {:induction false} RotateBackRight(t: Tree, k: int)
    requires t.Bin? && k > t.x.key && t.r.Bin? && k < t.r.x.key && t.r.l.Bin? && k < t.r.l.x.key && t.r.l.l.Nil?
    ensures Cheap(t, k)
  {
    hide Bounded, Splayed, Area, Size, Pow2;
    var s, p := t.r.l, Splayed(t, k);
    var u, v, z := Area(t.r.r), Area(t.l), Area(s.r);
    RotatesBackRight(t, k);
    NilOf();
    Powers(0);
    BinOf(s.r, t.r.x, t.r.r);
    BinOf(t.l, t.x, Nil);
    BinOf(s.l, s.x, s.r);
    BinOf(s, t.r.x, t.r.r);
    BinOf(t.l, t.x, t.r);
    BackNumbers(Size(p.l), Size(p.r), Size(t.r), Size(t), Size(s), u, v, z);
  }

  lemma {:induction false} CheapLeft(t: Tree, k: int)
    requires t.Bin? && k < t.x.key && t.l.Bin?
    ensures Cheap(t, k)
    decreases t, 0
  {
    hide Cheap, Splayed;
    var s := t.l;
    if k == s.x.key || (k < s.x.key && s.l.Nil?) {
      EndLeft(t, k);
    } else if k < s.x.key {
      SplayIsCheap(s.l, k);
      ZigLeft(t, k);
    } else if s.r.Nil? {
      TurnBackLeft(t, k);
    } else if k <= s.r.x.key {
      SplayIsCheap(s.r, k);
      ZagLeft(t, k);
    } else if s.r.r.Nil? {
      RotateBackLeft(t, k);
    } else {
      SplayIsCheap(s.r.r, k);
      ZagZigLeft(t, k);
    }
  }

  lemma {:induction false} CheapRight(t: Tree, k: int)
    requires t.Bin? && k > t.x.key && t.r.Bin?
    ensures Cheap(t, k)
    decreases t, 0
  {
    hide Cheap, Splayed;
    var s := t.r;
    if k == s.x.key || (k > s.x.key && s.r.Nil?) {
      EndRight(t, k);
    } else if k > s.x.key {
      SplayIsCheap(s.r, k);
      ZigRight(t, k);
    } else if s.l.Nil? {
      TurnBackRight(t, k);
    } else if k >= s.l.x.key {
      SplayIsCheap(s.l, k);
      ZagRight(t, k);
    } else if s.l.l.Nil? {
      RotateBackRight(t, k);
    } else {
      SplayIsCheap(s.l.l, k);
      ZagZigRight(t, k);
    }
  }

  lemma {:induction false} SplayIsCheap(t: Tree, k: int)
    requires t.Bin?
    ensures Cheap(t, k)
    decreases t, 1
  {
    hide Cheap;
    if k < t.x.key && t.l.Bin? {
      CheapLeft(t, k);
    } else if k > t.x.key && t.r.Bin? {
      CheapRight(t, k);
    } else {
      StayCheap(t, k);
    }
  }

  // ---------- the operations ----------

  ghost function Power(b: nat, n: nat): nat {
    if n == 0 then 1 else Power(b, n - 1) * b
  }

  /** Operations that take the tree `t` to `t'` in `turns` turns, with `b` for the number of nodes
      and the number of operations. */
  ghost predicate Afforded(t: Tree, t': Tree, turns: nat, b: nat) {
    Pow2(turns) * Area(t') <= Area(t) * b
  }

  lemma {:induction false} PullTwo(a: int, b: int)
    ensures a * (2 * b) == 2 * (a * b)
  {
  }

  lemma {:induction false} PowerSum(a: nat, b: nat)
    ensures Pow2(a + b) == Pow2(a) * Pow2(b)
  {
    hide Pow2;
    if b > 0 {
      PowerSum(a, b - 1);
      Powers(a + b - 1);
      Powers(b - 1);
      PullTwo(Pow2(a), Pow2(b - 1));
    } else {
      Powers(0);
    }
  }

  lemma {:induction false} AffordedTwice(t: Tree, t1: Tree, t2: Tree, a: nat, b: nat, c: nat, d: nat)
    requires Afforded(t, t1, a, c) && Afforded(t1, t2, b, d)
    ensures Afforded(t, t2, a + b, c * d)
  {
    PowerSum(a, b);
    hide Area, Pow2;
    Chain(Pow2(a), Pow2(b), Area(t), Area(t1), Area(t2), c, d);
  }

  lemma {:induction false} SplayCosts(t: Tree, k: int, n: nat)
    requires t.Bin? && Size(t) <= n
    ensures var p := Splayed(t, k);
      && Size(p.l) + 1 + Size(p.r) == Size(t)
      && Pow2(p.turns) * (Area(p.l) * Area(p.r)) <= 2 * (Area(t) * (n * n))
  {
    SplayIsCheap(t, k);
    SplayedSize(t, k);
    hide Splayed, Area, Size, Bounded;
    var p := Splayed(t, k);
    BoundedMore(Pow2(p.turns), Area(p.l) * Area(p.r), Area(t), Size(t), n);
  }

  lemma {:induction false} NilOf()
    ensures Size(Nil) == 0 && Area(Nil) == 1
  {
  }

  lemma {:induction false} AffordMore(t: Tree, t': Tree, turns: nat, a: nat, b: nat)
    requires Afforded(t, t', turns, Budget(a)) && a <= b
    ensures Afforded(t, t', turns, Budget(b))
  {
    hide Budget;
    BudgetMono(a, b);
    MulMono(Budget(a), Budget(b), Area(t));
  }

  lemma {:induction false} StayAffords(t: Tree, n: nat)
    requires n >= 1
    ensures Afforded(t, t, 0, Budget(n))
  {
    MulBoth(1, n, 1, n);
    MulBoth(1, n * n, 1, n * n);
    BudgetMore(n);
    MulMono(1, Budget(n), Area(t));
  }

  lemma {:induction false} SplayAffords(t: Tree, k: int, n: nat)
    requires t.Bin? && Size(t) <= n
    ensures Afforded(t, Whole(Splayed(t, k)), Splayed(t, k).turns, Budget(n))
  {
    hide Splayed, Area, Size, Budget, Pow2;
    var p := Splayed(t, k);
    SplayCosts(t, k, n);
    BinOf(p.l, p.x, p.r);
    RootCost(Pow2(p.turns), Area(p.l), Area(p.r), Area(t), n, Size(t), 1);
  }

  /** A splay, after which a new node becomes the root. */
  lemma {:induction false} InsertAffords(t: Tree, e: Node, n: nat)
    requires t.Bin? && Size(t) < n
    ensures var p := Splayed(t, e.key);
      && Afforded(t, Bin(p.l, e, Bin(Nil, p.x, p.r)), p.turns, Budget(n))
      && Afforded(t, Bin(Bin(p.l, p.x, Nil), e, p.r), p.turns, Budget(n))
      && Size(p.l) + 1 + Size(p.r) == Size(t)
  {
    hide Splayed, Area, Size, Budget, Pow2;
    var p := Splayed(t, e.key);
    SplayCosts(t, e.key, n);
    BinOf(Nil, p.x, p.r);
    BinOf(p.l, p.x, Nil);
    BinOf(p.l, e, Bin(Nil, p.x, p.r));
    BinOf(Bin(p.l, p.x, Nil), e, p.r);
    var x, y := Area(p.l), Area(p.r);
    InsertX(Size(t) + 1, 1 + Size(p.r), x, y);
    InsertX(Size(t) + 1, Size(p.l) + 1, x, y);
    RootCost(Pow2(p.turns), x, y, Area(t), n, Size(t) + 1, 1 + Size(p.r));
    RootCost(Pow2(p.turns), x, y, Area(t), n, Size(t) + 1, Size(p.l) + 1);
  }

  /** A splay, after which the root without left child is dropped. */
  lemma {:induction false} RemoveOuterAffords(t: Tree, k: int, n: nat)
    requires t.Bin? && Size(t) <= n && Splayed(t, k).l.Nil?
    ensures Afforded(t, Splayed(t, k).r, Splayed(t, k).turns, Budget(n)) && Size(Splayed(t, k).r) <= n
  {
    hide Splayed, Area, Size, Budget, Pow2;
    var p := Splayed(t, k);
    SplayCosts(t, k, n);
    NilOf();
    RootCost(Pow2(p.turns), Area(p.l), Area(p.r), Area(t), n, 1, 1);
  }

  /** A splay, after which the root is dropped: its left subtree is splayed again and gets
      the right subtree as right child. */
  lemma {:induction false} RemoveInnerAffords(t: Tree, k: int, n: nat)
    requires t.Bin? && Size(t) <= n && Splayed(t, k).l.Bin? && Splayed(Splayed(t, k).l, k).r.Nil?
    ensures var p, p2 := Splayed(t, k), Splayed(Splayed(t, k).l, k); var t' := Bin(p2.l, p2.x, p.r);
      Afforded(t, t', p.turns + p2.turns, Budget(n)) && Size(t') <= n
  {
    hide Splayed, Area, Size, Budget, Pow2;
    var p, p2 := Splayed(t, k), Splayed(Splayed(t, k).l, k);
    SplayCosts(t, k, n);
    SplayCosts(p.l, k, n);
    NilOf();
    var t' := Bin(p2.l, p2.x, p.r);
    BinOf(p2.l, p2.x, p.r);
    TwoSplays(Pow2(p.turns), Pow2(p2.turns), Area(t), Area(p.l), Area(p.r), Area(p2.l), Size(t'), n);
    PowerSum(p.turns, p2.turns);
  }

  // ---------- the bound in logarithms ----------

  lemma {:induction false} Pow2Less(a: nat, b: nat)
    requires Pow2(a) <= Pow2(b)
    ensures a <= b
  {
    hide Pow2;
    if a > b {
      PowerSum(b, a - b);
      Powers(a - b - 1);
      MulMono(2, Pow2(a - b), Pow2(b));
    }
  }

  lemma {:induction false} BudgetPower(k: nat)
    ensures Budget(Pow2(k)) == Pow2(5 * k + 2)
  {
    hide Pow2;
    PowerSum(k, k);
    PowerSum(k, k + k);
    PowerSum(k + k, k + (k + k));
    Powers(5 * k);
  }

  lemma {:induction false} BudgetLog(n: nat, k: nat)
    requires n <= Pow2(k)
    ensures Budget(n) <= Pow2(5 * k + 2)
  {
    BudgetMono(n, Pow2(k));
    BudgetPower(k);
    hide Pow2, Budget;
  }

  lemma {:induction false} Products(m: nat, c: nat)
    requires m > 0
    ensures 0 <= (m - 1) * c && (m - 1) * c + c == m * c
  {
    Sign(m - 1, c);
  }

  lemma {:induction false} PowerLog(b: nat, c: nat, m: nat)
    requires b <= Pow2(c)
    ensures Power(b, m) <= Pow2(m * c)
  {
    hide Pow2;
    if m > 0 {
      PowerLog(b, c, m - 1);
      Products(m, c);
      PowerSum((m - 1) * c, c);
      MulBoth(Power(b, m - 1), Pow2((m - 1) * c), b, Pow2(c));
    } else {
      Powers(0);
    }
  }

  /** `m` operations on a new tree of at most `n <= 2^k` nodes make at most `5 * k + 2` turns
      each, on average. */
  lemma {:induction false} AverageTurns(t: Tree, turns: nat, n: nat, m: nat, k: nat)
    requires Afforded(Nil, t, turns, Power(Budget(n), m)) && n <= Pow2(k)
    ensures turns <= m * (5 * k + 2)
  {
    hide Pow2, Budget, Power, Area;
    NilOf();
    MulMono(1, Area(t), Pow2(turns));
    BudgetLog(n, k);
    PowerLog(Budget(n), 5 * k + 2, m);
    Sign(m, 5 * k + 2);
    Pow2Less(turns, m * (5 * k + 2));
  }
}
