/** The arithmetic of the amortized bound on splaying: products of sizes, in steps small enough to follow. */
module SplayNumbers {

  /** The bound for `n` nodes and area `q` before, area `x` after, with the root apart. */
  ghost predicate Bounded(e: int, x: int, q: int, n: int) {
    e * x <= 2 * (q * (n * n))
  }

  lemma {:induction false} MulMono(a: int, b: int, c: int)
    requires a <= b && 0 <= c
    ensures a * c <= b * c && c * a <= c * b
  {
  }

  lemma {:induction false} Sign(a: int, b: int)
    requires 0 <= a && 0 <= b
    ensures 0 <= a * b
  {
  }

  lemma {:induction false} MulBoth(a: int, b: int, c: int, d: int)
    requires 0 <= a <= b && 0 <= c <= d
    ensures 0 <= a * c <= b * d
  {
    Sign(a, c);
    MulMono(a, b, c);
    MulMono(c, d, b);
  }

  lemma {:induction false} FourTimes(a: int, b: int, n: int)
    requires 0 <= a && 0 <= b && a + b <= n
    ensures 0 <= 4 * (a * b) <= n * n
  {
    Sign(a, b);
    DifferenceSquared(a, b);
    MulBoth(a + b, n, a + b, n);
  }

  lemma {:induction false} DifferenceSquared(a: int, b: int)
    ensures 4 * (a * b) <= (a + b) * (a + b)
  {
    var d := a - b;
    assert (a + b) * (a + b) == 4 * (a * b) + d * d;
    assert d * d >= 0;
  }

  lemma {:induction false} PayX(c: int, a: int, e: int, x: int, w: int)
    ensures (c * e) * ((a * x) * w) == (c * a * w) * (e * x)
  {
  }

  lemma {:induction false} PayQ(c: int, b: int, q: int, w: int, s: int, s': int)
    ensures (c * w) * (2 * (q * s)) == (2 * q * w) * (c * s)
    ensures 2 * ((b * (q * w)) * s') == (2 * q * w) * (b * s')
  {
  }

  // What a turn, or two, add on both sides.
  lemma {:induction false} Pay(c: int, a: int, b: int, n: int, n1: int, e: int, x: int, q: int, w: int)
    requires Bounded(e, x, q, n1) && 0 <= c * a && 0 <= q && 0 <= w
    requires (c * a) * (n1 * n1) <= b * (n * n)
    ensures Bounded(c * e, (a * x) * w, b * (q * w), n)
  {
    var d := c * a;
    Sign(d, w);
    Sign(q, w);
    MulMono(e * x, 2 * (q * (n1 * n1)), d * w);
    MulMono(d * (n1 * n1), b * (n * n), 2 * q * w);
    PayX(c, a, e, x, w);
    PayQ(d, b, q, w, n1 * n1, n * n);
  }

  // Two turns in opposite directions.
  lemma {:induction false} PayTwo(a: int, b: int, n: int, n1: int, n2: int)
    requires 0 <= a && 0 <= b && a + b <= n && 0 <= n2 <= n1 <= n
    ensures 0 <= 4 * (a * b) && (4 * (a * b)) * (n2 * n2) <= (n * n1) * (n * n)
  {
    FourTimes(a, b, n);
    MulBoth(n2, n, n2, n1);
    MulBoth(4 * (a * b), n * n, n2 * n2, n * n1);
  }

  lemma {:induction false} ZigRegroup(a: int, b: int, n: int)
    ensures (2 * (a * b)) * (n * n) == (a * n) * (2 * (b * n))
  {
  }

  lemma {:induction false} ThreeRegroup(a: int, b: int, c: int, n: int)
    ensures (4 * (a * (b * c))) * (n * n) == (a * (b * n)) * (4 * (c * n))
  {
  }

  // A turn with a rotation.
  lemma {:induction false} PayZig(a: int, b: int, m: int, n: int, n1: int)
    requires 0 <= a <= n && 0 <= b && 0 <= n1 <= m && b + n1 <= n
    ensures 0 <= 2 * (a * b) && (2 * (a * b)) * (n1 * n1) <= (n * m) * (n * n)
  {
    Sign(a, b);
    ZigRegroup(a, b, n1);
    FourTimes(b, n1, n);
    MulBoth(a, n, n1, m);
    MulBoth(a * n1, n * m, 2 * (b * n1), n * n);
  }

  // A turn without and one with a rotation.
  lemma {:induction false} PayThree(a: int, b: int, c: int, m: int, n: int, n1: int, n2: int)
    requires 0 <= a <= n && 0 <= b <= n1 <= n && 0 <= c && c + n2 <= n && 0 <= n2 <= m
    ensures (4 * (a * (b * c))) * (n2 * n2) <= (n * (n1 * m)) * (n * n)
  {
    ThreeRegroup(a, b, c, n2);
    FourTimes(c, n2, n);
    MulBoth(b, n1, n2, m);
    MulBoth(a, n, b * n2, n1 * m);
    MulBoth(a * (b * n2), n * (n1 * m), 4 * (c * n2), n * n);
  }

  // Each group of turns in numbers: left, then its mirror image.

  lemma {:induction false} ZigX(a: int, b: int, x: int, y: int, u: int, v: int)
    ensures x * (a * (y * (b * (u * v)))) == ((a * b) * (x * y)) * (u * v)
    ensures (a * ((b * (v * u)) * x)) * y == ((a * b) * (x * y)) * (u * v)
  {
  }

  lemma {:induction false} ZigQ(n: int, m: int, q: int, u: int, v: int)
    ensures n * ((m * (q * u)) * v) == (n * m) * (q * (u * v))
    ensures n * (v * (m * (u * q))) == (n * m) * (q * (u * v))
  {
  }

  lemma {:induction false} ZigPaid(a: int, b: int, m: int, n: int, n1: int, e: int, x: int, q: int, w: int)
    requires 0 <= a <= n && 0 <= b && 0 <= n1 <= m && b + n1 <= n && 0 <= q && 0 <= w && Bounded(e, x, q, n1)
    ensures Bounded(2 * e, ((a * b) * x) * w, (n * m) * (q * w), n)
  {
    hide Bounded;
    PayZig(a, b, m, n, n1);
    Pay(2, a * b, n * m, n, n1, e, x, q, w);
  }

  lemma {:induction false} ZigCost(a: nat, b: nat, m: nat, n: nat, n1: nat, e: nat, x: nat, y: nat, q: nat, u: nat, v: nat)
    requires a <= n && b + n1 <= n && n1 <= m && Bounded(e, x * y, q, n1)
    ensures Bounded(2 * e, x * (a * (y * (b * (u * v)))), n * ((m * (q * u)) * v), n)
    ensures Bounded(2 * e, (a * ((b * (v * u)) * x)) * y, n * (v * (m * (u * q))), n)
  {
    hide Bounded;
    Sign(u, v);
    ZigPaid(a, b, m, n, n1, e, x * y, q, u * v);
    ZigX(a, b, x, y, u, v);
    ZigQ(n, m, q, u, v);
  }

  // Two turns in opposite directions, neither with a rotation.

  lemma {:induction false} ZagX(a: int, b: int, x: int, y: int, u: int, v: int)
    ensures (b * (u * x)) * (a * (y * v)) == ((a * b) * (x * y)) * (u * v)
    ensures (a * (v * x)) * (b * (y * u)) == ((a * b) * (x * y)) * (u * v)
  {
  }

  lemma {:induction false} ZagQ(n: int, m: int, q: int, u: int, v: int)
    ensures n * ((m * (u * q)) * v) == (n * m) * (q * (u * v))
    ensures n * (v * (m * (q * u))) == (n * m) * (q * (u * v))
  {
  }

  lemma {:induction false} ZagPaid(a: int, b: int, m: int, n: int, n2: int, e: int, x: int, q: int, w: int)
    requires 0 <= a && 0 <= b && a + b <= n && 0 <= n2 <= m <= n && 0 <= q && 0 <= w && Bounded(e, x, q, n2)
    ensures Bounded(4 * e, ((a * b) * x) * w, (n * m) * (q * w), n)
  {
    hide Bounded;
    PayTwo(a, b, n, m, n2);
    Pay(4, a * b, n * m, n, n2, e, x, q, w);
  }

  lemma {:induction false} ZagCost(a: nat, b: nat, m: nat, n: nat, n2: nat, e: nat, x: nat, y: nat, q: nat, u: nat, v: nat)
    requires a + b <= n && n2 <= m <= n && Bounded(e, x * y, q, n2)
    ensures Bounded(4 * e, (b * (u * x)) * (a * (y * v)), n * ((m * (u * q)) * v), n)
    ensures Bounded(4 * e, (a * (v * x)) * (b * (y * u)), n * (v * (m * (q * u))), n)
  {
    hide Bounded;
    Sign(u, v);
    ZagPaid(a, b, m, n, n2, e, x * y, q, u * v);
    ZagX(a, b, x, y, u, v);
    ZagQ(n, m, q, u, v);
  }

  // A turn without and one, in the opposite direction, with a rotation.

  lemma {:induction false} ZagZigX(a: int, b: int, c: int, x: int, y: int, u: int, v: int, z: int)
    ensures (b * ((c * (u * z)) * x)) * (a * (y * v)) == ((a * (b * c)) * (x * y)) * (u * (v * z))
    ensures (a * (v * x)) * (b * (y * (c * (z * u)))) == ((a * (b * c)) * (x * y)) * (u * (v * z))
  {
    var w := c * (u * z);
    assert z * u == u * z;
    ZagX(a, b, x, y, w, v);
    TakeOut(u, v, z, c);
    TakeIn(a, b, c, x * y, u * (v * z));
  }

  lemma {:induction false} TakeOut(u: int, v: int, z: int, c: int)
    ensures (c * (u * z)) * v == c * (u * (v * z))
  {
  }

  lemma {:induction false} TakeIn(a: int, b: int, c: int, x: int, w: int)
    ensures ((a * b) * x) * (c * w) == ((a * (b * c)) * x) * w
  {
  }

  lemma {:induction false} ZagZigQ(n: int, n1: int, m: int, q: int, u: int, v: int, z: int)
    ensures n * ((n1 * (u * (m * (z * q)))) * v) == (n * (n1 * m)) * (q * (u * (v * z)))
    ensures n * (v * (n1 * ((m * (q * z)) * u))) == (n * (n1 * m)) * (q * (u * (v * z)))
  {
  }

  lemma {:induction false} ZagZigPaid(a: int, b: int, c: int, m: int, n: int, n1: int, n2: int, e: int, x: int, q: int, w: int)
    requires 0 <= a <= n && 0 <= b <= n1 <= n && 0 <= c && c + n2 <= n && 0 <= n2 <= m
    requires 0 <= q && 0 <= w && Bounded(e, x, q, n2)
    ensures Bounded(4 * e, ((a * (b * c)) * x) * w, (n * (n1 * m)) * (q * w), n)
  {
    hide Bounded;
    PayThree(a, b, c, m, n, n1, n2);
    Sign(b, c);
    Sign(a, b * c);
    Pay(4, a * (b * c), n * (n1 * m), n, n2, e, x, q, w);
  }

  lemma {:induction false} ZagZigCost(a: nat, b: nat, c: nat, m: nat, n: nat, n1: nat, n2: nat, e: nat, x: nat, y: nat,
                                      q: nat, u: nat, v: nat, z: nat)
    requires a <= n && b <= n1 <= n && c + n2 <= n && n2 <= m && Bounded(e, x * y, q, n2)
    ensures Bounded(4 * e, (b * ((c * (u * z)) * x)) * (a * (y * v)), n * ((n1 * (u * (m * (z * q)))) * v), n)
    ensures Bounded(4 * e, (a * (v * x)) * (b * (y * (c * (z * u)))), n * (v * (n1 * ((m * (q * z)) * u))), n)
  {
    hide Bounded;
    Sign(v, z);
    Sign(u, v * z);
    ZagZigPaid(a, b, c, m, n, n1, n2, e, x * y, q, u * (v * z));
    ZagZigX(a, b, c, x, y, u, v, z);
    ZagZigQ(n, n1, m, q, u, v, z);
  }

  // The last turns.

  lemma {:induction false} EndCost(e: int, a: int, w: int, b: int, n: int)
    requires e * a <= 2 * (n * n) && b >= 1 && w >= 0
    ensures Bounded(e, a * w, b * w, n)
  {
    Squared(n);
    EndProduct(e * a, w, b, n * n);
    EndRegroup(e, a, w, b, n * n);
  }

  lemma {:induction false} EndRegroup(e: int, a: int, w: int, b: int, d: int)
    ensures e * (a * w) == (e * a) * w && (b * w) * d == b * (w * d) && (2 * d) * w == 2 * (w * d)
  {
  }

  lemma {:induction false} Squared(n: int)
    ensures n * n >= 0
  {
  }

  lemma {:induction false} EndProduct(c: int, w: int, b: int, d: int)
    requires c <= 2 * d && b >= 1 && w >= 0 && d >= 0
    ensures c * w <= 2 * (b * (w * d))
  {
    Sign(w, d);
    MulMono(c, 2 * d, w);
    MulMono(1, b, w * d);
    EndRegroup(1, 1, w, b, d);
  }

  lemma {:induction false} EndX(a: int, m: int, n: int, x: int, u: int, v: int)
    ensures x * (a * (u * v)) == a * (x * (u * v)) == (a * (v * u)) * x
    ensures n * ((m * (x * u)) * v) == (n * m) * (x * (u * v)) == n * (v * (m * (u * x)))
  {
  }

  lemma {:induction false} EndNumbers(e: nat, a: nat, m: nat, n: nat, x: nat, u: nat, v: nat)
    requires a <= n && 1 <= m && e <= 2 * n && 1 <= n
    ensures Bounded(e, x * (a * (u * v)), n * ((m * (x * u)) * v), n)
    ensures Bounded(e, (a * (v * u)) * x, n * (v * (m * (u * x))), n)
  {
    hide Bounded;
    MulBoth(e, 2 * n, a, n);
    MulBoth(1, n, 1, m);
    EndX(a, m, n, x, u, v);
    Sign(u, v);
    Sign(x, u * v);
    EndCost(e, a, x * (u * v), n * m, n);
  }

  lemma {:induction false} BackX(a: int, b: int, u: int, v: int, z: int)
    ensures (b * (u * z)) * (a * v) == (a * b) * (u * (v * z)) == (a * v) * (b * (z * u))
  {
  }

  lemma {:induction false} BackQ(n: int, m: int, r: int, u: int, v: int, z: int)
    ensures n * ((m * (u * (r * z))) * v) == (n * (m * r)) * (u * (v * z)) == n * (v * (m * ((r * z) * u)))
  {
  }

  lemma {:induction false} BackNumbers(a: nat, b: nat, m: nat, n: nat, r: nat, u: nat, v: nat, z: nat)
    requires a + b <= n && 1 <= m && 1 <= r && 1 <= n
    ensures Bounded(4, (b * (u * z)) * (a * v), n * ((m * (u * (r * z))) * v), n)
    ensures Bounded(4, (a * v) * (b * (z * u)), n * (v * (m * ((r * z) * u))), n)
  {
    hide Bounded;
    FourTimes(a, b, n);
    MulBoth(1, m, 1, r);
    MulBoth(1, n, 1, m * r);
    Sign(v, z);
    Sign(u, v * z);
    BackX(a, b, u, v, z);
    BackQ(n, m, r, u, v, z);
    EndCost(4, a * b, u * (v * z), n * (m * r), n);
  }

  // ---------- whole operations ----------

  /** What one operation on at most `n` nodes can cost: two to the power `2 + 5 * lg n`. */
  ghost function Budget(n: nat): nat {
    MulBoth(0, n, 0, n);
    MulBoth(0, n, 0, n * n);
    MulBoth(0, n * n, 0, n * (n * n));
    4 * ((n * n) * (n * (n * n)))
  }

  lemma {:induction false} BudgetMore(n: nat)
    ensures 2 * ((n * n) * (n * n)) <= Budget(n)
  {
    if n > 0 {
      MulBoth(1, n, 1, n);
      MulBoth(1, n, n * n, n * n);
      MulBoth(n * n, n * n, n * n, n * (n * n));
    }
  }

  lemma {:induction false} BudgetMono(a: nat, b: nat)
    requires a <= b
    ensures Budget(a) <= Budget(b)
  {
    MulBoth(a, b, a, b);
    MulBoth(a, b, a * a, b * b);
    MulBoth(a * a, b * b, a * (a * a), b * (b * b));
  }

  lemma {:induction false} Chain(e: nat, f: nat, x: nat, y: nat, z: nat, c: nat, d: nat)
    requires e * y <= x * c && f * z <= y * d
    ensures (e * f) * z <= x * (c * d)
  {
    MulMono(f * z, y * d, e);
    MulMono(e * y, x * c, d);
    ChainX(e, f, x, y, z, c, d);
  }

  lemma {:induction false} ChainX(e: int, f: int, x: int, y: int, z: int, c: int, d: int)
    ensures (e * f) * z == e * (f * z) && e * (y * d) == (e * y) * d && (x * c) * d == x * (c * d)
  {
  }

  lemma {:induction false} BoundedMore(e: nat, x: int, q: nat, n1: nat, n: nat)
    requires Bounded(e, x, q, n1) && n1 <= n
    ensures e * x <= 2 * (q * (n * n))
  {
    MulBoth(n1, n, n1, n);
    MulMono(n1 * n1, n * n, q);
  }

  lemma {:induction false} Square(q: int, w: int)
    ensures q * (2 * (w * w)) == 2 * (q * w) * w
  {
  }

  // A splay, and what is done at the root afterwards.
  lemma {:induction false} RootCost(e: nat, x: nat, y: nat, q: nat, n: nat, a: nat, b: nat)
    requires e * (x * y) <= 2 * (q * (n * n)) && a <= n && b <= n
    ensures e * ((a * b) * (x * y)) <= q * Budget(n)
  {
    hide Budget;
    var w := n * n;
    MulBoth(a, n, b, n);
    Sign(x, y);
    Sign(e, x * y);
    RootProduct(e, x * y, q, a * b, w);
    BudgetMore(n);
    MulMono(2 * (w * w), Budget(n), q);
    Square(q, w);
  }

  lemma {:induction false} RootProduct(e: int, x: int, q: int, c: int, w: int)
    requires 0 <= e * x <= 2 * (q * w) && 0 <= c <= w
    ensures e * (c * x) <= 2 * (q * w) * w
  {
    MulBoth(c, w, e * x, 2 * (q * w));
    RootX(e, c, x);
  }

  lemma {:induction false} RootX(e: int, c: int, x: int)
    ensures e * (c * x) == c * (e * x)
  {
  }

  lemma {:induction false} InsertX(a: int, b: int, x: int, y: int)
    ensures a * (x * (b * (1 * y))) == (a * b) * (x * y) == a * ((b * (x * 1)) * y)
  {
  }

  lemma {:induction false} LastSplay(q: nat, a: nat, n: nat, w: nat)
    requires a <= n
    ensures (2 * a * w) * (2 * (q * w)) <= q * (4 * (w * (n * w)))
  {
    Sign(q, w);
    Sign(q * w, w);
    MulMono(a, n, 4 * ((q * w) * w));
    TwoSplaysQ(q, a, n, w);
  }

  // Two splays, and the joining of two trees.
  lemma {:induction false} TwoSplays(e: nat, f: nat, q: nat, x: nat, y: nat, z: nat, a: nat, n: nat)
    requires e * (x * y) <= 2 * (q * (n * n)) && f * z <= 2 * (x * (n * n)) && a <= n
    ensures (e * f) * (a * (z * y)) <= q * Budget(n)
  {
    var w := n * n;
    Sign(n, n);
    Sign(e, y);
    Sign(e * y, a);
    MulMono(f * z, 2 * (x * w), e * y * a);
    TwoSplaysX(e, f, x, y, z, a, w);
    Sign(a, w);
    MulMono(e * (x * y), 2 * (q * w), 2 * a * w);
    LastSplay(q, a, n, w);
  }

  lemma {:induction false} TwoSplaysX(e: int, f: int, x: int, y: int, z: int, a: int, w: int)
    ensures (e * f) * (a * (z * y)) == (e * y * a) * (f * z)
    ensures (e * y * a) * (2 * (x * w)) == (2 * a * w) * (e * (x * y))
  {
  }

  lemma {:induction false} TwoSplaysQ(q: int, a: int, n: int, w: int)
    ensures (2 * a * w) * (2 * (q * w)) == (4 * ((q * w) * w)) * a
    ensures (4 * ((q * w) * w)) * n == q * (4 * (w * (n * w)))
  {
  }
}
