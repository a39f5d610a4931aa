/** next_power_of_two on 32-bit words, with words as numbers below 2^32. */
module PowerOfTwo {

  const TWO32: nat := 0x1_0000_0000

  /** Bitwise or. */
  function Or(a: nat, b: nat): nat
    decreases a + b
  {
    if a == 0 && b == 0 then 0 else 2 * Or(a / 2, b / 2) + if a % 2 == 1 || b % 2 == 1 then 1 else 0
  }

  /** What is left of a number in an unsigned int. */
  function Wrap(n: nat): nat {
    n % TWO32
  }

  lemma {:induction false} WrapFacts(n: nat)
    ensures n < TWO32 ==> Wrap(n) == n
    ensures TWO32 <= n < 2 * TWO32 ==> Wrap(n) == n - TWO32
  {
  }

  /** The statements of next_power_of_two; a shift to the right is a division. */
  function NextPowerOfTwo(val: nat): nat
    requires val < TWO32
  {
    var a := Wrap(val + TWO32 - 1);
    var b := Or(a, a / 2);
    var c := Or(b, b / 4);
    var d := Or(c, c / 16);
    var e := Or(d, d / 256);
    var f := Or(e, e / 65536);
    Wrap(f + 1)
  }

  /** A power of two, or zero. */
  predicate IsPower(n: nat) {
    n <= 1 || (n % 2 == 0 && IsPower(n / 2))
  }

  // ---------- single bits ----------

  predicate Bit(v: nat, i: nat) {
    if i == 0 then v % 2 == 1 else Bit(v / 2, i - 1)
  }

  lemma {:induction false} BitOr(a: nat, b: nat, i: nat)
    ensures Bit(Or(a, b), i) <==> Bit(a, i) || Bit(b, i)
  {
    if i == 0 {
      assert a == 0 && b == 0 ==> Or(a, b) == 0;
    } else {
      assert Or(a, b) / 2 == Or(a / 2, b / 2);
      BitOr(a / 2, b / 2, i - 1);
    }
  }

  lemma {:induction false} Shift1(v: nat, i: nat)
    ensures Bit(v / 2, i) <==> Bit(v, i + 1)
  {
  }

  lemma {:induction false} Shift2(v: nat, i: nat)
    ensures Bit(v / 4, i) <==> Bit(v, i + 2)
  {
    assert v / 4 == v / 2 / 2;
    assert Bit(v, i + 2) <==> Bit(v / 2, i + 1);
  }

  lemma {:induction false} Shift4(v: nat, i: nat)
    ensures Bit(v / 16, i) <==> Bit(v, i + 4)
  {
    assert v / 16 == v / 4 / 4;
    Shift2(v / 4, i);
    Shift2(v, i + 2);
  }

  lemma {:induction false} Shift8(v: nat, i: nat)
    ensures Bit(v / 256, i) <==> Bit(v, i + 8)
  {
    assert v / 256 == v / 16 / 16;
    Shift4(v / 16, i);
    Shift4(v, i + 4);
  }

  lemma {:induction false} Shift16(v: nat, i: nat)
    ensures Bit(v / 65536, i) <==> Bit(v, i + 16)
  {
    assert v / 65536 == v / 256 / 256;
    Shift8(v / 256, i);
    Shift8(v, i + 8);
  }

  // ---------- powers ----------

  function Pow2(k: nat): (r: nat)
    ensures r > 0 && IsPower(r)
  {
    if k == 0 then 1
    else
      var p := Pow2(k - 1);
      assert 2 * p / 2 == p;
      2 * p
  }

  lemma {:induction false} Pow2Plus4(k: nat)
    ensures Pow2(k + 4) == 16 * Pow2(k)
  {
    assert Pow2(k + 2) == 2 * Pow2(k + 1) && Pow2(k + 4) == 2 * Pow2(k + 3);
  }

  lemma {:induction false} Pow2Word()
    ensures Pow2(31) == 0x8000_0000 && Pow2(32) == TWO32
  {
    Pow2Plus4(0);
    Pow2Plus4(4);
    Pow2Plus4(8);
    Pow2Plus4(12);
    Pow2Plus4(16);
    Pow2Plus4(20);
    Pow2Plus4(24);
    Pow2Plus4(28);
    assert Pow2(32) == 2 * Pow2(31);
  }

  /** The number of bits of `v`. */
  function Len(v: nat): nat {
    if v == 0 then 0 else 1 + Len(v / 2)
  }

  lemma {:induction false} LenFacts(v: nat)
    ensures v < Pow2(Len(v)) && (v > 0 <==> Len(v) > 0)
    ensures v > 0 ==> Pow2(Len(v) - 1) <= v && Bit(v, Len(v) - 1)
  {
    if v > 0 {
      LenFacts(v / 2);
    }
  }

  lemma {:induction false} LenBelow(v: nat, n: nat)
    requires v < Pow2(n)
    ensures Len(v) <= n
  {
    if v > 0 {
      LenBelow(v / 2, n - 1);
    }
  }

  lemma {:induction false} OrBelow(a: nat, b: nat, n: nat)
    requires a < Pow2(n) && b < Pow2(n)
    ensures Or(a, b) < Pow2(n)
  {
    if n > 0 {
      OrBelow(a / 2, b / 2, n - 1);
    }
  }

  lemma {:induction false} AllOnes(v: nat, n: nat)
    requires v < Pow2(n) && forall i :: 0 <= i < n ==> Bit(v, i)
    ensures v == Pow2(n) - 1
  {
    if n > 0 {
      assert Bit(v, 0);
      forall i | 0 <= i < n - 1
        ensures Bit(v / 2, i)
      {
        assert Bit(v, i + 1);
      }
      AllOnes(v / 2, n - 1);
    }
  }

  // ---------- smearing the top bit ----------

  /** A word of `n` bits whose `k` highest bits are set. */
  ghost predicate Filled(v: nat, n: nat, k: nat) {
    v < Pow2(n) && forall i :: 0 <= i < n && n - k <= i ==> Bit(v, i)
  }

  /** One step doubles the number of set bits: `y` is `v` shifted by `k`. */
  lemma {:induction false} Smear(v: nat, y: nat, n: nat, k: nat)
    requires Filled(v, n, k) && y <= v && forall i: nat :: Bit(y, i) <==> Bit(v, i + k)
    ensures Filled(Or(v, y), n, 2 * k)
  {
    OrBelow(v, y, n);
    forall i | 0 <= i < n && n - 2 * k <= i
      ensures Bit(Or(v, y), i)
    {
      BitOr(v, y, i);
      assert i < n - k ==> Bit(v, i + k);
    }
  }

  lemma {:induction false} SmearOnce(v: nat, n: nat)
    requires Filled(v, n, 1)
    ensures Filled(Or(v, v / 2), n, 2)
  {
    hide Or, Bit, Pow2;
    forall i: nat ensures Bit(v / 2, i) <==> Bit(v, i + 1) { Shift1(v, i); }
    Smear(v, v / 2, n, 1);
  }

  lemma {:induction false} SmearTwice(v: nat, n: nat)
    requires Filled(v, n, 2)
    ensures Filled(Or(Or(v, v / 4), Or(v, v / 4) / 16), n, 8)
  {
    hide Or, Bit, Pow2;
    forall i: nat ensures Bit(v / 4, i) <==> Bit(v, i + 2) { Shift2(v, i); }
    Smear(v, v / 4, n, 2);
    var c := Or(v, v / 4);
    forall i: nat ensures Bit(c / 16, i) <==> Bit(c, i + 4) { Shift4(c, i); }
    Smear(c, c / 16, n, 4);
  }

  lemma {:induction false} SmearFull(v: nat, n: nat)
    requires Filled(v, n, 8) && n <= 32
    ensures Or(Or(v, v / 256), Or(v, v / 256) / 65536) == Pow2(n) - 1
  {
    hide Or, Bit, Pow2;
    forall i: nat ensures Bit(v / 256, i) <==> Bit(v, i + 8) { Shift8(v, i); }
    Smear(v, v / 256, n, 8);
    var e := Or(v, v / 256);
    forall i: nat ensures Bit(e / 65536, i) <==> Bit(e, i + 16) { Shift16(e, i); }
    Smear(e, e / 65536, n, 16);
    AllOnes(Or(e, e / 65536), n);
  }

  lemma {:induction false} NextPowerValue(val: nat, a: nat)
    requires val < TWO32 && a == Wrap(val + TWO32 - 1) < TWO32
    ensures Len(a) <= 32 && NextPowerOfTwo(val) == Wrap(Pow2(Len(a)))
  {
    hide Wrap, Or, Pow2, Len, Bit;
    var n := Len(a);
    LenFacts(a);
    Pow2Word();
    LenBelow(a, 32);
    SmearOnce(a, n);
    SmearTwice(Or(a, a / 2), n);
    var c := Or(Or(a, a / 2), Or(a, a / 2) / 4);
    SmearFull(Or(c, c / 16), n);
  }

  lemma {:induction false} PowersApart(a: nat, b: nat)
    requires IsPower(a) && IsPower(b) && 0 < a < b
    ensures 2 * a <= b
  {
    if a > 1 {
      PowersApart(a / 2, b / 2);
    }
  }

  /** next_power_of_two is the least power of two from its argument on, for the arguments that
      have one in 32 bits, and zero for the others. */
  lemma {:induction false} NextPowerIsLeast(val: nat)
    requires val < TWO32
    ensures var r := NextPowerOfTwo(val);
      if 1 <= val <= 0x8000_0000 then
        IsPower(r) && val <= r <= 0x8000_0000 && forall p: nat :: IsPower(p) && p >= val ==> p >= r
      else r == 0
  {
    hide Wrap, NextPowerOfTwo, Pow2, Len, IsPower, Bit;
    WrapFacts(val + TWO32 - 1);
    var a := Wrap(val + TWO32 - 1);
    var n := Len(a);
    NextPowerValue(val, a);
    LenFacts(a);
    Pow2Word();
    WrapFacts(Pow2(n));
    var r := NextPowerOfTwo(val);
    if 1 <= val <= 0x8000_0000 {
      LenBelow(a, 31);
      Pow2Monotone(n, 31);
      LenHalf(a);
      forall p: nat | IsPower(p) && p >= val
        ensures p >= r
      {
        if p < r {
          PowersApart(p, r);
        }
      }
    } else {
      if n < 32 {
        Pow2Monotone(n, 31);
      }
    }
  }

  // The power above `a` is not above twice `a`.
  lemma {:induction false} LenHalf(a: nat)
    ensures Pow2(Len(a)) <= if a == 0 then 1 else 2 * a
  {
    LenFacts(a);
  }

  lemma {:induction false} Pow2Monotone(m: nat, n: nat)
    requires m <= n
    ensures Pow2(m) <= Pow2(n)
  {
    if m < n {
      Pow2Monotone(m, n - 1);
    }
  }
}
