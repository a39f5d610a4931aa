/** The Punycode part of uv__idna_toascii_label as functions, the decoder of
    section 6.2 of RFC 3492, and the proof that the second undoes the first. */
module Punycode {

  const TWO32: nat := 0x1_0000_0000

  function Times(a: nat, b: nat): nat {
    a * b
  }

  function Quot(a: nat, b: nat): nat
    requires b > 0
  {
    a / b
  }

  function Rem(a: nat, b: nat): (r: nat)
    requires b > 0
    ensures r < b
  {
    a % b
  }

  lemma {:induction false} QuotRem(a: nat, b: nat)
    requires b > 0
    ensures a == Times(Quot(a, b), b) + Rem(a, b)
  {
  }

  lemma {:induction false} TimesMonotone(a: nat, b: nat, c: nat)
    requires a <= b
    ensures Times(a, c) <= Times(b, c) && Times(c, a) <= Times(c, b)
  {
    assert Times(b, c) == Times(a, c) + Times(b - a, c);
    assert Times(c, b) == Times(c, a) + Times(c, b - a);
  }

  lemma {:induction false} TimesSum(a: nat, b: nat, c: nat)
    ensures Times(a + b, c) == Times(a, c) + Times(b, c)
  {
  }

  lemma {:induction false} QuotBound(x: nat, a: nat, b: nat)
    requires b > 0
    ensures x <= Quot(a, b) <==> Times(x, b) <= a
  {
    QuotRem(a, b);
    if x <= Quot(a, b) {
      TimesMonotone(x, Quot(a, b), b);
    } else {
      TimesMonotone(Quot(a, b) + 1, x, b);
      assert Times(Quot(a, b) + 1, b) == Times(Quot(a, b), b) + b;
    }
  }

  lemma {:induction false} QuotSmaller(a: nat, b: nat)
    requires b > 0
    ensures Quot(a, b) <= a
  {
    QuotRem(a, b);
    TimesMonotone(1, b, Quot(a, b));
  }

  // ---------- generalized variable-length integers ----------

  /** The threshold of the digit at position k: 1 <= t <= 26. */
  function Threshold(k: nat, bias: nat): (t: nat)
    ensures 1 <= t <= 26
  {
    var t := if k > bias then k - bias else 1;
    if t > 26 then 26 else t
  }

  /** The threshold of section 6.2 of RFC 3492, with tmin = 1 and tmax = 26. */
  function RfcThreshold(k: nat, bias: nat): nat {
    if k <= bias + 1 then 1 else if k >= bias + 26 then 26 else k - bias
  }

  lemma {:induction false} ThresholdIsRfc(k: nat, bias: nat)
    ensures Threshold(k, bias) == RfcThreshold(k, bias)
  {
  }

  /** The digits of `q`, least significant first. */
  function Digits(q: nat, k: nat, bias: nat): (ds: seq<nat>)
    ensures ds != [] && forall i :: 0 <= i < |ds| ==> ds[i] < 36
    decreases q
  {
    var t := Threshold(k, bias);
    if q < t then [q]
    else
      QuotSmaller(q - t, 36 - t);
      [t + Rem(q - t, 36 - t)] + Digits(Quot(q - t, 36 - t), k + 36, bias)
  }

  datatype Value = Truncated | Value(v: nat, rest: seq<nat>)

  /** The inner loop of the decoder: add up digits times weights until a digit
      below its threshold. */
  function ReadDigits(ds: seq<nat>, k: nat, bias: nat, w: nat, acc: nat): Value
    decreases ds
  {
    if ds == [] then Truncated
    else
      var t := RfcThreshold(k, bias);
      var acc' := acc + Times(ds[0], w);
      if ds[0] < t then Value(acc', ds[1..])
      else ReadDigits(ds[1..], k + 36, bias, Times(w, 36 - t), acc')
  }

  lemma {:induction false} ReadsBack(q: nat, k: nat, bias: nat, w: nat, acc: nat, rest: seq<nat>)
    ensures ReadDigits(Digits(q, k, bias) + rest, k, bias, w, acc) == Value(acc + Times(q, w), rest)
    decreases q
  {
    ThresholdIsRfc(k, bias);
    var t := Threshold(k, bias);
    var ds := Digits(q, k, bias);
    if q < t {
      assert (ds + rest)[1..] == rest;
    } else {
      var y, d, q' := 36 - t, t + Rem(q - t, 36 - t), Quot(q - t, 36 - t);
      QuotSmaller(q - t, y);
      QuotRem(q - t, y);
      assert (ds + rest)[1..] == Digits(q', k + 36, bias) + rest;
      assert (ds + rest)[0] == d;
      ReadsBack(q', k + 36, bias, Times(w, y), acc + Times(d, w), rest);
      Weights(q, d, q', y, w);
    }
  }

  lemma {:induction false} Weights(q: nat, d: nat, q': nat, y: nat, w: nat)
    requires q == d + Times(q', y)
    ensures Times(d, w) + Times(q', Times(w, y)) == Times(q, w)
  {
    assert q' * (w * y) == (q' * y) * w;
    assert (d + q' * y) * w == d * w + (q' * y) * w;
  }

  // ---------- bias adaptation ----------

  /** The loop over `bias` that ends the adaptation. */
  function Settle(delta: nat, bias: nat): nat
    decreases delta
  {
    if delta > 35 * 26 / 2 then Settle(delta / 35, bias + 36)
    else bias + Quot(36 * delta, delta + 38)
  }

  /** How the encoder computes the next bias: halve, scale down the first delta,
      compensate for the length. */
  function Adapt(delta: nat, points: nat, first: bool): nat
    requires points > 0
  {
    var half := delta / 2;
    var d := if first then half / 350 else half;
    Settle(d + Quot(d, points), 0)
  }

  /** Section 6.1 of RFC 3492, with damp = 700 and skew = 38. */
  function RfcAdapt(delta: nat, points: nat, first: bool): nat
    requires points > 0
  {
    var d := if first then delta / 700 else delta / 2;
    RfcAdaptLoop(d + Quot(d, points), 0)
  }

  function RfcAdaptLoop(delta: nat, k: nat): nat
    decreases delta
  {
    if delta > ((36 - 1) * 26) / 2 then RfcAdaptLoop(delta / (36 - 1), k + 36)
    else k + Quot((36 - 1 + 1) * delta, delta + 38)
  }

  lemma {:induction false} SettleIsRfc(delta: nat, k: nat)
    ensures Settle(delta, k) == RfcAdaptLoop(delta, k)
    decreases delta
  {
    if delta > 455 {
      SettleIsRfc(delta / 35, k + 36);
    }
  }

  lemma {:induction false} AdaptIsRfc(delta: nat, points: nat, first: bool)
    requires points > 0
    ensures Adapt(delta, points, first) == RfcAdapt(delta, points, first)
  {
    var d := if first then delta / 700 else delta / 2;
    assert delta / 2 / 350 == delta / 700;
    SettleIsRfc(d + Quot(d, points), 0);
    hide Quot;
  }

  // ---------- the encoder ----------

  /** The variables of the encoder loop; `h` counts the code points handled. */
  datatype St = St(delta: nat, bias: nat, h: nat, first: bool)

  datatype Out = TooBig | Out(ds: seq<nat>, st: St)

  /** One code point in the pass for `n`. */
  function Visit(c: nat, n: nat, st: St): Out {
    if c < n then
      if st.delta + 1 == TWO32 then TooBig else Out([], st.(delta := st.delta + 1))
    else if c > n then Out([], st)
    else Out(Digits(st.delta, 36, st.bias), St(0, Adapt(st.delta, st.h + 1, st.first), st.h + 1, false))
  }

  function Prepend(ds: seq<nat>, o: Out): Out {
    match o
    case TooBig => TooBig
    case Out(ds', st) => Out(ds + ds', st)
  }

  /** The second inner loop: all code points in the pass for `n`. */
  function Pass(cps: seq<nat>, n: nat, st: St): Out {
    if cps == [] then Out([], st)
    else match Visit(cps[0], n, st)
      case TooBig => TooBig
      case Out(ds, st') => Prepend(ds, Pass(cps[1..], n, st'))
  }

  /** The code points below `n`, in order. */
  function Below(cps: seq<nat>, n: nat): (r: seq<nat>)
    ensures |r| <= |cps|
  {
    if cps == [] then []
    else (if cps[0] < n then [cps[0]] else []) + Below(cps[1..], n)
  }

  /** The first inner loop: the least code point not below `n`, or UINT_MAX. */
  function Least(cps: seq<nat>, n: nat, m: nat): nat {
    if cps == [] then m
    else Least(cps[1..], n, if n <= cps[0] < m then cps[0] else m)
  }

  predicate Points(cps: seq<nat>) {
    forall i :: 0 <= i < |cps| ==> cps[i] <= 0x10FFFF
  }

  datatype Coded = Fails | Coded(ds: seq<nat>)

  /** The outer loop of the encoder. */
  function Rest(cps: seq<nat>, n: nat, st: St): Coded
    requires Points(cps) && st.h == |Below(cps, n)| && st.delta < TWO32
    decreases 0x110000 - n
  {
    if st.h == |cps| then Coded([])
    else
      LeastFacts(cps, n);
      var m := Least(cps, n, TWO32 - 1);
      if m - n > Quot(TWO32 - 1 - st.delta, st.h + 1) then Fails
      else
        QuotBound(m - n, TWO32 - 1 - st.delta, st.h + 1);
        var st1 := st.(delta := st.delta + Times(m - n, st.h + 1));
        match Pass(cps, m, st1)
        case TooBig => Fails
        case Out(ds, st') =>
          PassCounts(cps, m, st1);
          PassFits(cps, m, st1);
          match Rest(cps, m + 1, st'.(delta := (st'.delta + 1) % TWO32))
          case Fails => Fails
          case Coded(ds') => Coded(ds + ds')
  }

  /** The digits for a label; the basic code points are its code points below 128. */
  function Encode(cps: seq<nat>): Coded
    requires Points(cps)
  {
    Rest(cps, 128, St(0, 72, |Below(cps, 128)|, true))
  }

  // ---------- facts about the passes ----------

  lemma {:induction false} BelowAppend(a: seq<nat>, b: seq<nat>, n: nat)
    ensures Below(a + b, n) == Below(a, n) + Below(b, n)
  {
    if a == [] {
      assert a + b == b;
    } else {
      assert (a + b)[1..] == a[1..] + b;
      BelowAppend(a[1..], b, n);
    }
  }

  lemma {:induction false} BelowAll(cps: seq<nat>, n: nat)
    ensures |Below(cps, n)| == |cps| <==> forall i :: 0 <= i < |cps| ==> cps[i] < n
    ensures |Below(cps, n)| == |cps| ==> Below(cps, n) == cps
  {
    if cps != [] {
      BelowAll(cps[1..], n);
      assert forall i :: 0 < i < |cps| ==> cps[i] == cps[1..][i - 1];
      assert forall i :: 0 <= i < |cps| - 1 ==> cps[1..][i] == cps[i + 1];
    }
  }

  // No code point lies strictly between two bounds: the code points below them are the same.
  lemma {:induction false} BelowGap(cps: seq<nat>, n: nat, m: nat)
    requires n <= m && forall i :: 0 <= i < |cps| ==> cps[i] < n || m <= cps[i]
    ensures Below(cps, n) == Below(cps, m)
  {
    if cps != [] {
      BelowGap(cps[1..], n, m);
    }
  }

  lemma {:induction false} LeastScan(cps: seq<nat>, n: nat, m: nat)
    requires n <= m
    ensures var r := Least(cps, n, m);
      && n <= r <= m && (forall i :: 0 <= i < |cps| ==> cps[i] < n || r <= cps[i])
      && (r == m || r in cps)
  {
    if cps != [] {
      LeastScan(cps[1..], n, if n <= cps[0] < m then cps[0] else m);
      assert forall i :: 0 < i < |cps| ==> cps[i] == cps[1..][i - 1];
    }
  }

  lemma {:induction false} LeastFacts(cps: seq<nat>, n: nat)
    requires Points(cps) && |Below(cps, n)| < |cps|
    ensures var m := Least(cps, n, TWO32 - 1);
      && n <= m <= 0x10FFFF && m in cps && n < 0x110000
      && Below(cps, m) == Below(cps, n)
  {
    BelowAll(cps, n);
    var i :| 0 <= i < |cps| && n <= cps[i];
    LeastScan(cps, n, TWO32 - 1);
    BelowGap(cps, n, Least(cps, n, TWO32 - 1));
  }

  // A pass handles exactly the code points equal to `n`.
  lemma {:induction false} PassCounts(cps: seq<nat>, n: nat, st: St)
    requires Pass(cps, n, st).Out?
    ensures Pass(cps, n, st).st.h + |Below(cps, n)| == st.h + |Below(cps, n + 1)|
  {
    if cps != [] {
      PassCounts(cps[1..], n, Visit(cps[0], n, st).st);
    }
  }

  lemma {:induction false} PassFits(cps: seq<nat>, n: nat, st: St)
    requires Pass(cps, n, st).Out? && st.delta < TWO32
    ensures Pass(cps, n, st).st.delta < TWO32
  {
    if cps != [] {
      PassFits(cps[1..], n, Visit(cps[0], n, st).st);
    }
  }

  // ---------- the decoder of section 6.2 of RFC 3492 ----------

  datatype Decoded = Malformed | Decoded(cps: seq<nat>)

  /** `out` holds the code points decoded so far; `n` and `i` are the code point
      and the position that the next digits count from. */
  function Decode(ds: seq<nat>, n: nat, i: nat, bias: nat, out: seq<nat>): Decoded
    decreases |ds|
  {
    if ds == [] then Decoded(out)
    else match ReadDigits(ds, 36, bias, 1, i)
      case Truncated => Malformed
      case Value(i', rest) =>
        ReadShortens(ds, 36, bias, 1, i);
        var len := |out| + 1;
        var bias' := RfcAdapt(if i' >= i then i' - i else 0, len, i == 0);
        var at := Rem(i', len);
        Decode(rest, n + Quot(i', len), at + 1, bias', out[..at] + [n + Quot(i', len)] + out[at..])
  }

  lemma {:induction false} ReadShortens(ds: seq<nat>, k: nat, bias: nat, w: nat, acc: nat)
    requires ReadDigits(ds, k, bias, w, acc).Value?
    ensures |ReadDigits(ds, k, bias, w, acc).rest| < |ds|
    decreases ds
  {
    var t := RfcThreshold(k, bias);
    if ds[0] >= t {
      ReadShortens(ds[1..], k + 36, bias, Times(w, 36 - t), acc + Times(ds[0], w));
    }
  }

  // ---------- the decoder follows the encoder ----------

  /** In the pass for `n`, with `pre` visited and `suf` to come, the decoder at
      code point `nd` and position `i` is where the encoder thinks it is. */
  ghost predicate Synced(pre: seq<nat>, suf: seq<nat>, n: nat, st: St, nd: nat, i: nat) {
    && nd <= n && st.h == |Below(pre, n + 1)| + |Below(suf, n)|
    && st.delta + i == Times(n - nd, st.h + 1) + |Below(pre, n + 1)|
    && (st.first <==> i == 0)
  }

  lemma {:induction false} Locate(x: nat, p: nat, b: nat)
    requires p < b
    ensures Quot(Times(x, b) + p, b) == x && Rem(Times(x, b) + p, b) == p
  {
    var a := Times(x, b) + p;
    QuotRem(a, b);
    QuotBound(x, a, b);
    QuotBound(x + 1, a, b);
    assert Times(x + 1, b) == Times(x, b) + b;
  }

  // The decoder consumes the digits of one delta and inserts `n` at its place.
  lemma {:induction false} InsertsOne(pre: seq<nat>, c: nat, suf: seq<nat>, st: St, nd: nat, i: nat, tail: seq<nat>)
    requires Synced(pre, [c] + suf, c, st, nd, i)
    ensures var out, out' := Below(pre, c + 1) + Below([c] + suf, c), Below(pre + [c], c + 1) + Below(suf, c);
      var p := |Below(pre, c + 1)|;
      Decode(Digits(st.delta, 36, st.bias) + tail, nd, i, st.bias, out)
      == Decode(tail, c, p + 1, Adapt(st.delta, st.h + 1, st.first), out')
  {
    hide Decode, Below, Digits, Adapt, RfcAdapt, ReadDigits;
    var a, b := Below(pre, c + 1), Below([c] + suf, c);
    var p, len := |a|, st.h + 1;
    ReadsBack(st.delta, 36, st.bias, 1, i, tail);
    assert Times(st.delta, 1) == st.delta;
    Locate(c - nd, p, len);
    AdaptIsRfc(st.delta, len, st.first);
    SplitOut(pre, c, suf);
    DecodeValue(Digits(st.delta, 36, st.bias) + tail, nd, i, st.bias, a + b, st.delta + i, tail);
  }

  // The output before and behind the place where `c` goes.
  lemma {:induction false} SplitOut(pre: seq<nat>, c: nat, suf: seq<nat>)
    ensures var a, b := Below(pre, c + 1), Below([c] + suf, c);
      && |a + b| == |Below(pre, c + 1)| + |Below([c] + suf, c)|
      && (a + b)[..|a|] == a && (a + b)[|a|..] == b
      && Below(pre + [c], c + 1) + Below(suf, c) == a + [c] + b
  {
    BelowAppend(pre, [c], c + 1);
    BelowAppend([c], suf, c);
    assert Below([c], c + 1) == [c] && Below([c], c) == [];
  }

  // One code point of the decoder, when the integer has been read.
  lemma {:induction false} DecodeValue(ds: seq<nat>, n: nat, i: nat, bias: nat, out: seq<nat>, i': nat, rest: seq<nat>)
    requires ReadDigits(ds, 36, bias, 1, i) == Value(i', rest) && i' >= i
    ensures var len := |out| + 1; var at := Rem(i', len);
      Decode(ds, n, i, bias, out)
      == Decode(rest, n + Quot(i', len), at + 1, RfcAdapt(i' - i, len, i == 0), out[..at] + [n + Quot(i', len)] + out[at..])
  {
  }

  lemma {:induction false} StepSynced(pre: seq<nat>, c: nat, suf: seq<nat>, n: nat, st: St, nd: nat, i: nat)
    requires Synced(pre, [c] + suf, n, st, nd, i) && c != n
    requires Visit(c, n, st).Out?
    ensures Synced(pre + [c], suf, n, Visit(c, n, st).st, nd, i)
    ensures Below(pre, n + 1) + Below([c] + suf, n) == Below(pre + [c], n + 1) + Below(suf, n)
  {
    BelowAppend(pre, [c], n + 1);
    BelowAppend([c], suf, n);
  }

  lemma {:induction false} EmitSynced(pre: seq<nat>, c: nat, suf: seq<nat>, st: St, nd: nat, i: nat)
    requires Synced(pre, [c] + suf, c, st, nd, i)
    ensures Synced(pre + [c], suf, c, Visit(c, c, st).st, c, |Below(pre, c + 1)| + 1) && nd <= c
  {
    BelowAppend(pre, [c], c + 1);
    BelowAppend([c], suf, c);
    assert Below([c], c + 1) == [c] && Below([c], c) == [];
    assert Times(0, st.h + 2) == 0;
  }

  /** Over the rest of a pass, the decoder inserts the remaining copies of `n`. */
  lemma {:induction false} PassDecodes(pre: seq<nat>, suf: seq<nat>, n: nat, st: St, nd: nat, i: nat, tail: seq<nat>)
    returns (nd': nat, i': nat)
    requires Synced(pre, suf, n, st, nd, i) && Pass(suf, n, st).Out?
    ensures var o := Pass(suf, n, st);
      && Synced(pre + suf, [], n, o.st, nd', i') && nd <= nd'
      && Decode(o.ds + tail, nd, i, st.bias, Below(pre, n + 1) + Below(suf, n))
         == Decode(tail, nd', i', o.st.bias, Below(pre + suf, n + 1))
    decreases suf
  {
    hide Decode, Synced, Visit;
    var o := Pass(suf, n, st);
    if suf == [] {
      nd', i' := nd, i;
      assert pre + suf == pre && suf == [] && o.ds + tail == tail;
      assert Below(pre, n + 1) + Below(suf, n) == Below(pre, n + 1);
    } else {
      var c, rest := suf[0], suf[1..];
      var v := Visit(c, n, st);
      var o1 := Pass(rest, n, v.st);
      assert suf == [c] + rest && pre + suf == (pre + [c]) + rest;
      var nd1, i1 := VisitDecodes(pre, c, rest, n, st, nd, i, o1.ds + tail);
      nd', i' := PassDecodes(pre + [c], rest, n, v.st, nd1, i1, tail);
      assert o.ds + tail == v.ds + (o1.ds + tail);
    }
  }

  lemma {:induction false} VisitSkips(pre: seq<nat>, c: nat, rest: seq<nat>, n: nat, st: St, nd: nat, i: nat, tail: seq<nat>)
    requires Synced(pre, [c] + rest, n, st, nd, i) && c != n && Visit(c, n, st).Out?
    ensures var v := Visit(c, n, st);
      && v.ds + tail == tail && v.st.bias == st.bias
      && Below(pre, n + 1) + Below([c] + rest, n) == Below(pre + [c], n + 1) + Below(rest, n)
      && Synced(pre + [c], rest, n, v.st, nd, i)
  {
    StepSynced(pre, c, rest, n, st, nd, i);
    assert [] + tail == tail;
  }

  lemma {:induction false} VisitDecodes(pre: seq<nat>, c: nat, rest: seq<nat>, n: nat, st: St, nd: nat, i: nat, tail: seq<nat>)
    returns (nd': nat, i': nat)
    requires Synced(pre, [c] + rest, n, st, nd, i) && Visit(c, n, st).Out?
    ensures var v := Visit(c, n, st);
      && Synced(pre + [c], rest, n, v.st, nd', i') && nd <= nd'
      && Decode(v.ds + tail, nd, i, st.bias, Below(pre, n + 1) + Below([c] + rest, n))
         == Decode(tail, nd', i', v.st.bias, Below(pre + [c], n + 1) + Below(rest, n))
  {
    hide Decode, Synced, Below, Digits, Adapt;
    if c == n {
      nd', i' := c, |Below(pre, c + 1)| + 1;
      EmitSynced(pre, c, rest, st, nd, i);
      InsertsOne(pre, c, rest, st, nd, i, tail);
    } else {
      nd', i' := nd, i;
      VisitSkips(pre, c, rest, n, st, nd, i, tail);
    }
  }

  // ---------- all passes ----------

  lemma {:induction false} JumpSynced(cps: seq<nat>, n: nat, m: nat, st: St, nd: nat, i: nat)
    requires Synced([], cps, n, st, nd, i) && n <= m && Below(cps, m) == Below(cps, n)
    ensures Synced([], cps, m, st.(delta := st.delta + Times(m - n, st.h + 1)), nd, i)
  {
    TimesSum(m - n, n - nd, st.h + 1);
    hide Times;
    BelowNone(cps, n);
    BelowNone(cps, m);
    hide Below;
  }

  lemma {:induction false} EndSynced(cps: seq<nat>, n: nat, st: St, nd: nat, i: nat)
    requires Synced(cps, [], n, st, nd, i)
    ensures Synced([], cps, n + 1, st.(delta := st.delta + 1), nd, i)
  {
    TimesSum(n - nd, 1, st.h + 1);
    assert Times(1, st.h + 1) == st.h + 1;
    hide Times;
  }

  /** A pass that meets its code point leaves a delta below the length of the label, so the
      unchecked increment behind the pass does not wrap. */
  lemma {:induction false} PassResets(cps: seq<nat>, n: nat, st: St)
    requires Pass(cps, n, st).Out?
    ensures Pass(cps, n, st).st.delta <= st.delta + |cps|
    ensures n in cps ==> Pass(cps, n, st).st.delta < |cps|
    decreases cps
  {
    if cps != [] {
      var v := Visit(cps[0], n, st);
      PassResets(cps[1..], n, v.st);
      assert n in cps && cps[0] != n ==> n in cps[1..];
    }
  }

  // One turn of the outer loop: jump to the next code point and make its pass.
  lemma {:induction false} TurnDecodes(cps: seq<nat>, n: nat, m: nat, st: St, st1: St, nd: nat, i: nat, tail: seq<nat>)
    returns (nd': nat, i': nat)
    requires n <= m && Below(cps, m) == Below(cps, n)
    requires Synced([], cps, n, st, nd, i) && st1 == st.(delta := st.delta + Times(m - n, st.h + 1))
    requires Pass(cps, m, st1).Out?
    ensures var o := Pass(cps, m, st1);
      && Synced([], cps, m + 1, o.st.(delta := o.st.delta + 1), nd', i') && nd <= nd'
      && Decode(o.ds + tail, nd, i, st.bias, Below(cps, n)) == Decode(tail, nd', i', o.st.bias, Below(cps, m + 1))
  {
    hide Decode, Pass, Below, Synced;
    JumpSynced(cps, n, m, st, nd, i);
    BelowNone(cps, m);
    nd', i' := PassDecodes([], cps, m, st1, nd, i, tail);
    EndSynced(cps, m, Pass(cps, m, st1).st, nd', i');
  }

  lemma {:induction false} BelowNone(cps: seq<nat>, m: nat)
    ensures [] + cps == cps && Below([], m + 1) + Below(cps, m) == Below(cps, m)
  {
    assert Below([], m + 1) == [];
  }

  // One unfolding of the outer loop.
  lemma {:induction false} RestTurn(cps: seq<nat>, n: nat, st: St) returns (m: nat, st1: St)
    requires Points(cps) && n <= 0x110000 && st.h == |Below(cps, n)| < |cps| && st.delta < TWO32
    ensures n <= m <= 0x10FFFF && m == Least(cps, n, TWO32 - 1) && m in cps && Below(cps, m) == Below(cps, n)
    ensures st1 == st.(delta := st.delta + Times(m - n, st.h + 1))
    ensures m - n <= Quot(TWO32 - 1 - st.delta, st.h + 1) && Pass(cps, m, st1).Out? ==>
      var o := Pass(cps, m, st1); var st2 := o.st.(delta := (o.st.delta + 1) % TWO32);
      && o.st.h == |Below(cps, m + 1)|
      && Rest(cps, n, st) ==
         match Rest(cps, m + 1, st2) case Fails => Fails case Coded(ds) => Coded(o.ds + ds)
  {
    hide Pass, Below, Quot, Times, Least;
    LeastFacts(cps, n);
    m := Least(cps, n, TWO32 - 1);
    st1 := st.(delta := st.delta + Times(m - n, st.h + 1));
    if m - n <= Quot(TWO32 - 1 - st.delta, st.h + 1) && Pass(cps, m, st1).Out? {
      PassCounts(cps, m, st1);
    }
  }

  // An encoding that succeeds passed the checks of its first turn.
  lemma {:induction false} RestCoded(cps: seq<nat>, n: nat, m: nat, st: St, st1: St)
    requires Points(cps) && n <= 0x110000 && st.h == |Below(cps, n)| < |cps| && st.delta < TWO32
    requires m == Least(cps, n, TWO32 - 1) && n <= m <= 0x10FFFF
    requires st1 == st.(delta := st.delta + Times(m - n, st.h + 1))
    requires Rest(cps, n, st).Coded?
    ensures m - n <= Quot(TWO32 - 1 - st.delta, st.h + 1) && Pass(cps, m, st1).Out?
  {
  }

  lemma {:induction false} SyncedCounts(cps: seq<nat>, n: nat, st: St, nd: nat, i: nat)
    requires Synced([], cps, n, st, nd, i)
    ensures st.h == |Below(cps, n)| && nd <= n
  {
    BelowNone(cps, n);
    assert Below([], n + 1) == [];
  }

  lemma {:induction false} RestDecodes(cps: seq<nat>, n: nat, st: St, nd: nat, i: nat)
    requires Points(cps) && |cps| < TWO32 && n <= 0x110000
    requires Synced([], cps, n, st, nd, i) && st.delta < TWO32
    ensures st.h == |Below(cps, n)|
    ensures var r := Rest(cps, n, st);
      r.Coded? ==> Decode(r.ds, nd, i, st.bias, Below(cps, n)) == Decoded(cps)
    decreases 0x110000 - n
  {
    SyncedCounts(cps, n, st, nd, i);
    BelowAll(cps, n);
    if st.h == |cps| {
      assert Rest(cps, n, st) == Coded([]);
    } else if Rest(cps, n, st).Coded? {
      RestDecodesTurn(cps, n, st, nd, i);
    }
  }

  lemma {:induction false} RestDecodesTurn(cps: seq<nat>, n: nat, st: St, nd: nat, i: nat)
    requires Points(cps) && |cps| < TWO32 && n <= 0x110000
    requires Synced([], cps, n, st, nd, i) && st.delta < TWO32
    requires st.h == |Below(cps, n)| < |cps| && Rest(cps, n, st).Coded?
    ensures Decode(Rest(cps, n, st).ds, nd, i, st.bias, Below(cps, n)) == Decoded(cps)
    decreases 0x110000 - n, 0
  {
    hide Decode, Pass, Below, Synced, Rest, Least;
    var m, st1 := RestTurn(cps, n, st);
    RestCoded(cps, n, m, st, st1);
    var o := Pass(cps, m, st1);
    PassResets(cps, m, st1);
    var st2 := o.st.(delta := o.st.delta + 1);
    assert (o.st.delta + 1) % TWO32 == o.st.delta + 1;
    var nd', i' := TurnDecodes(cps, n, m, st, st1, nd, i, Rest(cps, m + 1, st2).ds);
    RestDecodes(cps, m + 1, st2, nd', i');
  }

  /** Decoding undoes encoding, for every label that is not refused with UV_E2BIG; the length
      is below the range of the source's counters. */
  lemma {:induction false} RoundTrip(cps: seq<nat>)
    requires Points(cps) && |cps| < TWO32 && Encode(cps).Coded?
    ensures Decode(Encode(cps).ds, 128, 0, 72, Below(cps, 128)) == Decoded(cps)
  {
    var st := St(0, 72, |Below(cps, 128)|, true);
    assert Below([], 129) == [];
    assert Times(0, st.h + 1) == 0;
    RestDecodes(cps, 128, st, 128, 0);
  }

  // ---------- which labels are refused ----------

  /** Up to 3855 code points, delta stays so far below 2^32 that neither check of a turn fires. */
  lemma {:induction false} DeltaBound(cps: seq<nat>, n: nat, m: nat, st: St)
    requires st.delta <= |cps| <= 3855 && st.h < |cps| && 128 <= n <= m <= 0x10FFFF
    ensures st.delta + Times(m - n, st.h + 1) + |cps| < TWO32
  {
    TimesMonotone(m - n, 0x10FFFF - 128, st.h + 1);
    TimesMonotone(st.h + 1, 3855, 0x10FFFF - 128);
  }

  lemma {:induction false} PassCompletes(cps: seq<nat>, n: nat, st: St)
    requires st.delta + |cps| < TWO32
    ensures Pass(cps, n, st).Out?
  {
    if cps != [] {
      PassCompletes(cps[1..], n, Visit(cps[0], n, st).st);
    }
  }

  lemma {:induction false} RestSucceeds(cps: seq<nat>, n: nat, st: St)
    requires Points(cps) && |cps| <= 3855 && 128 <= n <= 0x110000
    requires st.h == |Below(cps, n)| && st.delta <= |cps|
    ensures Rest(cps, n, st).Coded?
    decreases 0x110000 - n
  {
    if st.h < |cps| {
      RestSucceedsTurn(cps, n, st);
    }
  }

  lemma {:induction false} RestSucceedsTurn(cps: seq<nat>, n: nat, st: St)
    requires Points(cps) && |cps| <= 3855 && 128 <= n <= 0x110000
    requires st.h == |Below(cps, n)| < |cps| && st.delta <= |cps|
    ensures Rest(cps, n, st).Coded?
    decreases 0x110000 - n, 0
  {
    hide Pass, Below, Rest, Least;
    var m, st1 := RestTurn(cps, n, st);
    DeltaBound(cps, n, m, st);
    QuotBound(m - n, TWO32 - 1 - st.delta, st.h + 1);
    PassCompletes(cps, m, st1);
    PassResets(cps, m, st1);
    var o := Pass(cps, m, st1);
    RestSucceeds(cps, m + 1, o.st.(delta := o.st.delta + 1));
  }

  /** No label of up to 3855 code points is refused. */
  lemma {:induction false} NeverTooBig(cps: seq<nat>)
    requires Points(cps) && |cps| <= 3855
    ensures Encode(cps).Coded?
  {
    RestSucceeds(cps, 128, St(0, 72, |Below(cps, 128)|, true));
  }

  // A first jump that is too far.
  lemma {:induction false} JumpFails(cps: seq<nat>)
    requires Points(cps) && |Below(cps, 128)| < |cps| && Least(cps, 128, TWO32 - 1) >= 128
    requires Least(cps, 128, TWO32 - 1) - 128 > Quot(TWO32 - 1, |Below(cps, 128)| + 1)
    ensures Encode(cps).Fails?
  {
    hide Least, Below, Pass, Quot, Times;
  }

  // The least code point after the basic ones is the last one.
  lemma {:induction false} OneLeft(basic: seq<nat>, c: nat)
    requires 128 <= c <= 0x10FFFF && forall i :: 0 <= i < |basic| ==> basic[i] < 128
    ensures Points(basic + [c]) && |Below(basic + [c], 128)| == |basic| && Least(basic + [c], 128, TWO32 - 1) == c
  {
    BelowAppend(basic, [c], 128);
    BelowAll(basic, 128);
    assert Below([c], 128) == [];
    LeastFacts(basic + [c], 128);
    hide Below, Least;
  }

  lemma {:induction false} JumpTooFar(len: nat)
    requires len > 3855
    ensures Quot(TWO32 - 1, len) < 0x10FFFF - 128
  {
    TimesMonotone(3856, len, 0x10FFFF - 128);
    QuotBound(0x10FFFF - 128, TWO32 - 1, len);
  }

  /** The bound is tight: of every greater length some label is refused, one with basic code
      points and U+10FFFF behind them. */
  lemma {:induction false} TooBigBeyond(len: nat) returns (cps: seq<nat>)
    requires len > 3855
    ensures |cps| == len && Points(cps) && Encode(cps).Fails?
  {
    hide Encode, Below, Least, Quot;
    var basic: seq<nat> := seq(len - 1, _ => 97);
    cps := basic + [0x10FFFF];
    OneLeft(basic, 0x10FFFF);
    JumpTooFar(len);
    JumpFails(cps);
  }
}
