/** uv__idna_toascii_label: from the bytes of a label to its ASCII form. */
module Idna {
  import opened Utf8
  import opened Punycode

  const UV_EINVAL := -22
  const UV_E2BIG := -7

  /** The character of a digit in "abcdefghijklmnopqrstuvwxyz0123456789". */
  function Letter(d: nat): nat {
    if d < 26 then 97 + d else 22 + d
  }

  function Letters(ds: seq<nat>): (r: seq<nat>)
    ensures |r| == |ds|
    ensures forall i :: 0 <= i < |ds| ==> r[i] == Letter(ds[i])
  {
    seq(|ds|, i requires 0 <= i < |ds| => Letter(ds[i]))
  }

  const PREFIX: seq<nat> := [120, 110, 45, 45]  // "xn--"
  const HYPHEN: nat := 45

  datatype Ascii = Error(code: int) | Ascii(out: seq<nat>)

  /** What a label is converted to when the buffer is large enough. */
  function LabelOf(cps: seq<nat>): Ascii
    requires Points(cps)
  {
    var basic := Below(cps, 128);
    if |basic| == |cps| then Ascii(basic)
    else match Encode(cps)
      case Fails => Error(UV_E2BIG)
      case Coded(ds) => Ascii(PREFIX + basic + (if basic == [] then [] else [HYPHEN]) + Letters(ds))
  }

  /** The value of a digit, section 5 of RFC 3492; letters of either case. */
  function DigitOf(b: nat): nat {
    if 97 <= b <= 122 then b - 97
    else if 65 <= b <= 90 then b - 65
    else if 48 <= b <= 57 then b - 22
    else 36
  }

  function LastHyphen(s: seq<nat>): int {
    if s == [] then -1 else if s[|s| - 1] == HYPHEN then |s| - 1 else LastHyphen(s[..|s| - 1])
  }

  /** Section 6.2 of RFC 3492 on the text after "xn--": the basic code points are
      those before the last delimiter, if there is one. */
  function DecodeLabel(s: seq<nat>): Decoded {
    var h := LastHyphen(s);
    var basic := if 0 <= h < |s| then s[..h] else [];
    var tail := if 0 <= h < |s| then s[h + 1..] else s;
    if forall i :: 0 <= i < |tail| ==> DigitOf(tail[i]) < 36
    then Decode(seq(|tail|, i requires 0 <= i < |tail| => DigitOf(tail[i])), 128, 0, 72, basic)
    else Malformed
  }

  lemma {:induction false} LastHyphenAt(a: seq<nat>, b: seq<nat>)
    requires forall i :: 0 <= i < |b| ==> b[i] != HYPHEN
    ensures LastHyphen(a + [HYPHEN] + b) == |a|
    ensures LastHyphen(b) == -1
    decreases |b|
  {
    if b != [] {
      var b' := b[..|b| - 1];
      LastHyphenAt(a, b');
      assert (a + [HYPHEN] + b)[..|a| + |b|] == a + [HYPHEN] + b';
    }
  }

  lemma {:induction false} PassDigits(cps: seq<nat>, n: nat, st: St)
    ensures Pass(cps, n, st).Out? ==> forall i :: 0 <= i < |Pass(cps, n, st).ds| ==> Pass(cps, n, st).ds[i] < 36
  {
    if cps != [] && Visit(cps[0], n, st).Out? {
      PassDigits(cps[1..], n, Visit(cps[0], n, st).st);
    }
  }

  predicate SmallDigits(c: Coded) {
    c.Coded? ==> forall i :: 0 <= i < |c.ds| ==> c.ds[i] < 36
  }

  /** Digit indices stay inside the alphabet. */
  lemma {:induction false} RestDigits(cps: seq<nat>, n: nat, st: St)
    requires Points(cps) && n <= 0x110000 && st.h == |Below(cps, n)| && st.delta < TWO32
    ensures SmallDigits(Rest(cps, n, st))
    decreases 0x110000 - n
  {
    if st.h == |cps| {
      assert Rest(cps, n, st) == Coded([]);
    } else {
      RestDigitsTurn(cps, n, st);
    }
  }

  lemma {:induction false} RestDigitsTurn(cps: seq<nat>, n: nat, st: St)
    requires Points(cps) && n <= 0x110000 && st.h == |Below(cps, n)| < |cps| && st.delta < TWO32
    ensures SmallDigits(Rest(cps, n, st))
    decreases 0x110000 - n, 0
  {
    hide Pass, Below, Rest, Least;
    var m, st1 := RestTurn(cps, n, st);
    PassDigits(cps, m, st1);
    if Rest(cps, n, st).Coded? {
      RestCoded(cps, n, m, st, st1);
      var o := Pass(cps, m, st1);
      RestDigits(cps, m + 1, o.st.(delta := (o.st.delta + 1) % TWO32));
    }
  }

  lemma {:induction false} EncodeDigits(cps: seq<nat>)
    requires Points(cps)
    ensures Encode(cps).Coded? ==> forall i :: 0 <= i < |Encode(cps).ds| ==> Encode(cps).ds[i] < 36
  {
    RestDigits(cps, 128, St(0, 72, |Below(cps, 128)|, true));
  }

  lemma {:induction false} LettersRead(ds: seq<nat>)
    requires forall i :: 0 <= i < |ds| ==> ds[i] < 36
    ensures var s := Letters(ds);
      && (forall i :: 0 <= i < |s| ==> DigitOf(s[i]) < 36 && s[i] != HYPHEN)
      && seq(|s|, i requires 0 <= i < |s| => DigitOf(s[i])) == ds
  {
  }

  /** Round trip of a whole label: with at least one non-ASCII code point, and unless it is
      refused with UV_E2BIG, the text after "xn--" decodes to the original code points. */
  lemma {:induction false} LabelRoundTrip(cps: seq<nat>)
    requires Points(cps) && |cps| < TWO32 && |Below(cps, 128)| < |cps|
    requires LabelOf(cps) != Error(UV_E2BIG)
    ensures LabelOf(cps).Ascii?
    ensures var out := LabelOf(cps).out;
      |out| >= 4 && out[..4] == PREFIX && DecodeLabel(out[4..]) == Decoded(cps)
  {
    hide Decode, Encode, Below, LastHyphen;
    Punycode.RoundTrip(cps);
    var basic, ds := Below(cps, 128), Encode(cps).ds;
    EncodeDigits(cps);
    LettersRead(ds);
    var tail := Letters(ds);
    LastHyphenAt(basic, tail);
    var out := LabelOf(cps).out;
    if basic == [] {
      assert out[4..] == tail;
    } else {
      assert out[4..] == basic + [HYPHEN] + tail;
      assert (basic + [HYPHEN] + tail)[..|basic|] == basic;
      assert (basic + [HYPHEN] + tail)[|basic| + 1..] == tail;
    }
  }

  // ---------- the conversion as it runs ----------

  /** The output cursor `*d` with its end `de`: characters that do not fit are dropped.
      `out` is everything that was offered. */
  class Sink {
    const buf: array<nat>
    var d: nat
    ghost var out: seq<nat>

    ghost predicate Valid()
      reads this, buf
    {
      && d == (if |out| < buf.Length then |out| else buf.Length)
      && buf[..d] == out[..d]
    }

    constructor (buf: array<nat>)
      ensures Valid() && this.buf == buf && out == []
    {
      this.buf := buf;
      d := 0;
      out := [];
    }

    // `if (*d < de) *(*d)++ = ch;`
    method Put(ch: nat)
      requires Valid()
      modifies this, buf
      ensures Valid() && out == old(out) + [ch]
    {
      if d < buf.Length {
        buf[d] := ch;
        d := d + 1;
      }
      out := out + [ch];
    }
  }

  // Decoding one more code point of a text that is known to be well formed.
  lemma {:induction false} DecodeStep(s: seq<Byte>, p: nat, cps: seq<nat>, j: nat)
    requires p < |s| && j <= |cps| && DecodeAll(s[p..]) == Text(cps[j..])
    ensures j < |cps| && Decode1(s[p..]).Got? && Decode1(s[p..]).c == cps[j]
    ensures DecodeAll(s[p + 1 + Decode1(s[p..]).used..]) == Text(cps[j + 1..])
  {
    var r := Decode1(s[p..]);
    assert s[p..][1 + r.used..] == s[p + 1 + r.used..];
    assert cps[j..] == [r.c] + cps[j..][1..];
    assert cps[j..][1..] == cps[j + 1..];
  }

  lemma {:induction false} BelowSnoc(cps: seq<nat>, j: nat, n: nat)
    requires j < |cps|
    ensures Below(cps[..j + 1], n) == Below(cps[..j], n) + (if cps[j] < n then [cps[j]] else [])
  {
    assert cps[..j + 1] == cps[..j] + [cps[j]];
    BelowAppend(cps[..j], [cps[j]], n);
  }

  lemma {:induction false} LettersNone(s: seq<nat>)
    ensures s + Letters([]) == s
  {
  }

  lemma {:induction false} LettersSnoc(ds: seq<nat>, d: nat)
    ensures Letters(ds + [d]) == Letters(ds) + [Letter(d)]
  {
  }

  lemma {:induction false} LettersAppend(a: seq<nat>, b: seq<nat>)
    ensures Letters(a + b) == Letters(a) + Letters(b)
  {
  }

  // One turn of the digit loop.
  lemma {:induction false} DigitTurn(all: seq<nat>, done: seq<nat>, q: nat, k: nat, bias: nat)
    requires all == done + Digits(q, k, bias)
    ensures var t := Threshold(k, bias);
      if q < t then all == done + [q]
      else
        && Quot(q - t, 36 - t) < q
        && all == (done + [t + Rem(q - t, 36 - t)]) + Digits(Quot(q - t, 36 - t), k + 36, bias)
  {
    var t := Threshold(k, bias);
    if q >= t {
      QuotSmaller(q - t, 36 - t);
    }
  }

  method FindThreshold(k: nat, bias: nat) returns (t: nat)
    ensures t == Threshold(k, bias)
  {
    t := 1;
    if k > bias {
      t := k - bias;
    }
    if t > 26 {
      t := 26;
    }
  }

  /** The digit loop: all digits of `delta`, as letters. */
  method WriteDigits(sink: Sink, delta: nat, bias: nat)
    requires sink.Valid()
    modifies sink, sink.buf
    ensures sink.Valid() && sink.out == old(sink.out) + Letters(Digits(delta, 36, bias))
  {
    hide Digits, Letters, Quot, Rem, Threshold, Letter;
    var k: nat, q: nat := 36, delta;
    ghost var done: seq<nat>, out0 := [], sink.out;
    LettersNone(out0);
    while true
      invariant sink.Valid() && sink.out == out0 + Letters(done)
      invariant Digits(delta, 36, bias) == done + Digits(q, k, bias)
      decreases q
    {
      var t := FindThreshold(k, bias);
      DigitTurn(Digits(delta, 36, bias), done, q, k, bias);
      if q < t {
        break;
      }
      var x: nat, y: nat := q - t, 36 - t;
      q := Quot(x, y);
      t := t + Rem(x, y);
      sink.Put(Letter(t));
      LettersSnoc(done, t);
      done := done + [t];
      k := k + 36;
    }
    sink.Put(Letter(q));
    LettersSnoc(done, q);
  }

  lemma {:induction false} SettleStep(delta: nat, bias: nat)
    ensures Settle(delta, bias) ==
      if delta > 35 * 26 / 2 then Settle(delta / 35, bias + 36) else bias + Quot(36 * delta, delta + 38)
  {
  }

  /** The adaptation statements; `h` already counts the code point just written. */
  method AdaptBias(delta0: nat, h: nat, first: bool) returns (bias: nat)
    requires h > 0
    ensures bias == Adapt(delta0, h, first)
  {
    hide Settle;
    var delta: nat := delta0 / 2;
    if first {
      delta := delta / 350;
    }
    delta := delta + Quot(delta, h);
    ghost var d := delta;
    bias := 0;
    SettleStep(delta, bias);
    while delta > 35 * 26 / 2
      invariant Settle(delta, bias) == Settle(d, 0)
      invariant Settle(delta, bias) ==
        if delta > 35 * 26 / 2 then Settle(delta / 35, bias + 36) else bias + Quot(36 * delta, delta + 38)
    {
      delta := delta / 35;
      bias := bias + 36;
      SettleStep(delta, bias);
    }
    bias := bias + Quot(36 * delta, delta + 38);
  }

  lemma {:induction false} DecodeFront(s: seq<Byte>, p: nat, pre: seq<nat>)
    requires p < |s| && DecodeAll(s) == AppendText(pre, DecodeAll(s[p..]))
    ensures var r := Decode1(s[p..]);
      if r.Bad? then DecodeAll(s) == Invalid
      else DecodeAll(s) == AppendText(pre + [r.c], DecodeAll(s[p + 1 + r.used..]))
  {
    var r := Decode1(s[p..]);
    hide Decode1;
    if r.Got? {
      assert s[p..][1 + r.used..] == s[p + 1 + r.used..];
      AppendCons(pre, r.c, DecodeAll(s[p + 1 + r.used..]));
    }
  }

  lemma {:induction false} AppendCons(pre: seq<nat>, c: nat, t: Text)
    ensures AppendText(pre, match t case Invalid => Invalid case Text(cps) => Text([c] + cps)) == AppendText(pre + [c], t)
  {
    if t.Text? {
      assert pre + ([c] + t.cps) == (pre + [c]) + t.cps;
    }
  }

  function AppendText(pre: seq<nat>, t: Text): Text {
    match t
    case Invalid => Invalid
    case Text(cps) => Text(pre + cps)
  }

  lemma {:induction false} FrontStart(s: seq<Byte>)
    ensures DecodeAll(s) == AppendText([], DecodeAll(s[0..])) && |Below([], 128)| == 0
  {
    assert s[0..] == s;
    if DecodeAll(s).Text? {
      assert [] + DecodeAll(s).cps == DecodeAll(s).cps;
    }
    hide Decode1;
  }

  lemma {:induction false} FrontEnd(s: seq<Byte>, p: nat, cps: seq<nat>)
    requires p == |s| && DecodeAll(s) == AppendText(cps, DecodeAll(s[p..]))
    ensures DecodeAll(s) == Text(cps)
  {
    assert s[p..] == [] && cps + [] == cps;
  }

  lemma {:induction false} ScalarPoint(s: seq<Byte>)
    requires s != [] && Decode1(s).Got?
    ensures Decode1(s).c <= 0x10FFFF
  {
    DecodesScalars(s);
    hide Decode1;
  }

  lemma {:induction false} BelowNext(cps: seq<nat>, c: nat, n: nat)
    ensures |Below(cps + [c], n)| == |Below(cps, n)| + if c < n then 1 else 0
  {
    BelowAppend(cps, [c], n);
    assert Below([c], n) == if c < n then [c] else [];
  }

  /** The first loop: reject malformed text, count basic and other code points. */
  method CountPoints(s: seq<Byte>) returns (ok: bool, h: nat, todo: nat, ghost cps: seq<nat>)
    ensures ok <==> DecodeAll(s).Text?
    ensures AllProper(s) ==> ok
    ensures ok ==> Scalars(cps) && (s == EncodeAll(cps) <==> AllProper(s))
    ensures ok ==> cps == DecodeAll(s).cps && Points(cps) && h == |Below(cps, 128)| && todo == |cps| - h
  {
    hide DecodeAll, Decode1, Below, AppendText, Scalar, AllProper, EncodeAll;
    WellFormedExactly(s);
    ok, h, todo, cps := true, 0, 0, [];
    var p := 0;
    FrontStart(s);
    while p < |s|
      invariant p <= |s| && DecodeAll(s) == AppendText(cps, DecodeAll(s[p..]))
      invariant Points(cps) && h == |Below(cps, 128)| && todo == |cps| - h
    {
      DecodeFront(s, p, cps);
      var r := Decode1(s[p..]);
      if r.Bad? {
        return false, 0, 0, [];
      }
      ScalarPoint(s[p..]);
      BelowNext(cps, r.c, 128);
      p := p + 1 + r.used;
      cps := cps + [r.c];
      if r.c < 128 {
        h := h + 1;
      } else {
        todo := todo + 1;
      }
    }
    FrontEnd(s, p, cps);
  }

  /** The second loop: write the basic code points, stop after the last one. */
  method WriteBasic(s: seq<Byte>, sink: Sink, h: nat, ghost cps: seq<nat>)
    requires sink.Valid() && DecodeAll(s) == Text(cps) && h == |Below(cps, 128)|
    modifies sink, sink.buf
    ensures sink.Valid() && sink.out == old(sink.out) + Below(cps, 128)
  {
    hide DecodeAll, Below, Decode1;
    var p, x := 0, 0;
    ghost var j, out0 := 0, sink.out;
    BelowNone(cps, 0);
    assert s[0..] == s && cps[0..] == cps && cps[..0] == [];
    while p < |s|
      invariant p <= |s| && j <= |cps| && DecodeAll(s[p..]) == Text(cps[j..])
      invariant sink.Valid() && sink.out == out0 + Below(cps[..j], 128) && x == |Below(cps[..j], 128)|
    {
      DecodeStep(s, p, cps, j);
      BelowSnoc(cps, j, 128);
      var r := Decode1(s[p..]);
      p := p + 1 + r.used;
      j := j + 1;
      if r.c > 127 {
        continue;
      }
      sink.Put(r.c);
      x := x + 1;
      if x == h {
        break;
      }
    }
    BelowPrefix(cps, j, 128);
    if p == |s| {
      DecodeEnd(s, p, cps, j);
      assert cps[..j] == cps;
    }
  }

  // A prefix that already has all code points below `n` has the same ones.
  lemma {:induction false} BelowPrefix(cps: seq<nat>, j: nat, n: nat)
    requires j <= |cps|
    ensures |Below(cps[..j], n)| <= |Below(cps, n)|
    ensures |Below(cps[..j], n)| == |Below(cps, n)| ==> Below(cps[..j], n) == Below(cps, n)
  {
    assert cps == cps[..j] + cps[j..];
    BelowAppend(cps[..j], cps[j..], n);
  }

  /** The first inner loop: the least code point not below `n`. */
  method FindLeast(s: seq<Byte>, n: nat, ghost cps: seq<nat>) returns (m: nat)
    requires DecodeAll(s) == Text(cps)
    ensures m == Least(cps, n, TWO32 - 1)
  {
    m := TWO32 - 1;
    var p := 0;
    ghost var j := 0;
    assert s[0..] == s && cps[0..] == cps;
    while p < |s|
      invariant p <= |s| && j <= |cps| && DecodeAll(s[p..]) == Text(cps[j..])
      invariant Least(cps[j..], n, m) == Least(cps, n, TWO32 - 1)
    {
      DecodeStep(s, p, cps, j);
      assert cps[j..] == [cps[j]] + cps[j + 1..];
      var r := Decode1(s[p..]);
      p := p + 1 + r.used;
      j := j + 1;
      if r.c >= n {
        if r.c < m {
          m := r.c;
        }
      }
    }
  }

  // One code point of a pass.
  lemma {:induction false} PassStep(cps: seq<nat>, j: nat, n: nat, st: St, total: Out, done: seq<nat>)
    requires j < |cps| && total == Prepend(done, Pass(cps[j..], n, st))
    ensures cps[j] < n && st.delta + 1 == TWO32 ==> total == TooBig
    ensures cps[j] < n && st.delta + 1 != TWO32 ==>
      total == Prepend(done, Pass(cps[j + 1..], n, st.(delta := st.delta + 1)))
    ensures cps[j] > n ==> total == Prepend(done, Pass(cps[j + 1..], n, st))
    ensures cps[j] == n ==>
      total == Prepend(done + Digits(st.delta, 36, st.bias),
                       Pass(cps[j + 1..], n, St(0, Adapt(st.delta, st.h + 1, st.first), st.h + 1, false)))
  {
    hide Digits, Adapt;
    assert cps[j..][1..] == cps[j + 1..];
    match Visit(cps[j], n, st)
    case TooBig =>
    case Out(ds, st') =>
      var o := Pass(cps[j + 1..], n, st');
      assert done + [] == done;
      if o.Out? {
        assert done + (ds + o.ds) == (done + ds) + o.ds;
        assert [] + o.ds == o.ds;
      }
  }

  /** The second inner loop: write a delta for each copy of `n`. */
  method RunPass(s: seq<Byte>, sink: Sink, n: nat, st0: St, ghost cps: seq<nat>) returns (ok: bool, st: St)
    requires sink.Valid() && DecodeAll(s) == Text(cps)
    modifies sink, sink.buf
    ensures sink.Valid() && (ok <==> Pass(cps, n, st0).Out?)
    ensures ok ==> st == Pass(cps, n, st0).st && sink.out == old(sink.out) + Letters(Pass(cps, n, st0).ds)
  {
    hide Pass, DecodeAll, Digits, Adapt, Letters, Prepend, Decode1;
    var delta, bias, h, first := st0.delta, st0.bias, st0.h, st0.first;
    var p := 0;
    ghost var j, done: seq<nat>, total := 0, [], Pass(cps, n, st0);
    PassStart(cps, n, st0);
    assert s[0..] == s && cps[0..] == cps;
    ghost var out0 := sink.out;
    assert out0 + Letters(done) == out0;
    while p < |s|
      invariant p <= |s| && j <= |cps| && DecodeAll(s[p..]) == Text(cps[j..])
      invariant sink.Valid() && sink.out == out0 + Letters(done)
      invariant total == Prepend(done, Pass(cps[j..], n, St(delta, bias, h, first)))
    {
      DecodeStep(s, p, cps, j);
      PassStep(cps, j, n, St(delta, bias, h, first), total, done);
      var r := Decode1(s[p..]);
      p := p + 1 + r.used;
      j := j + 1;
      if r.c < n {
        delta := delta + 1;
        if delta == TWO32 {
          return false, st0;
        }
      }
      if r.c != n {
        continue;
      }
      LettersAppend(done, Digits(delta, 36, bias));
      done := done + Digits(delta, 36, bias);
      WriteDigits(sink, delta, bias);
      h := h + 1;
      bias := AdaptBias(delta, h, first);
      first := false;
      delta := 0;
    }
    st := St(delta, bias, h, first);
    DecodeEnd(s, p, cps, j);
    PassEnd(cps[j..], n, st, done);
    ok := true;
  }

  lemma {:induction false} PassStart(cps: seq<nat>, n: nat, st: St)
    ensures Pass(cps, n, st) == Prepend([], Pass(cps[0..], n, st))
  {
    assert cps[0..] == cps;
    if Pass(cps, n, st).Out? {
      assert [] + Pass(cps, n, st).ds == Pass(cps, n, st).ds;
    }
  }

  lemma {:induction false} PassEnd(cps: seq<nat>, n: nat, st: St, done: seq<nat>)
    requires cps == []
    ensures Prepend(done, Pass(cps, n, st)) == Out(done, st)
  {
    assert done + [] == done;
  }

  lemma {:induction false} DecodeEnd(s: seq<Byte>, p: nat, cps: seq<nat>, j: nat)
    requires p == |s| && j <= |cps| && DecodeAll(s[p..]) == Text(cps[j..])
    ensures cps[j..] == []
  {
    assert s[p..] == [];
  }

  // One turn of the outer loop, seen from the result `total` that is being built.
  lemma {:induction false} OuterStep(cps: seq<nat>, n: nat, st: St, done: seq<nat>, total: Coded)
    requires Points(cps) && n <= 0x110000 && st.h == |Below(cps, n)| < |cps| && st.delta < TWO32
    requires total == PrependCoded(done, Rest(cps, n, st))
    ensures var m := Least(cps, n, TWO32 - 1);
      && n <= m <= 0x10FFFF
      && if m - n > Quot(TWO32 - 1 - st.delta, st.h + 1) then total == Fails
         else
           && Times(m - n, st.h + 1) + st.delta < TWO32
           && match Pass(cps, m, st.(delta := st.delta + Times(m - n, st.h + 1)))
              case TooBig => total == Fails
              case Out(ds, st') =>
                && st'.h == |Below(cps, m + 1)|
                && total == PrependCoded(done + ds, Rest(cps, m + 1, st'.(delta := (st'.delta + 1) % TWO32)))
  {
    hide Pass, Below;
    LeastFacts(cps, n);
    var m := Least(cps, n, TWO32 - 1);
    QuotBound(m - n, TWO32 - 1 - st.delta, st.h + 1);
    var st1 := st.(delta := st.delta + Times(m - n, st.h + 1));
    if m - n <= Quot(TWO32 - 1 - st.delta, st.h + 1) && Pass(cps, m, st1).Out? {
      PassCounts(cps, m, st1);
      var o := Pass(cps, m, st1);
      var r := Rest(cps, m + 1, o.st.(delta := (o.st.delta + 1) % TWO32));
      if r.Coded? {
        assert done + (o.ds + r.ds) == (done + o.ds) + r.ds;
      }
    }
  }

  function PrependCoded(ds: seq<nat>, c: Coded): Coded {
    match c
    case Fails => Fails
    case Coded(ds') => Coded(ds + ds')
  }

  /** The outer loop of the encoder. */
  method WriteDeltas(s: seq<Byte>, sink: Sink, h0: nat, todo0: nat, ghost cps: seq<nat>) returns (rc: int)
    requires sink.Valid() && DecodeAll(s) == Text(cps) && Points(cps)
    requires h0 == |Below(cps, 128)| && todo0 == |cps| - h0
    modifies sink, sink.buf
    ensures sink.Valid()
    ensures Encode(cps).Coded? ==> rc == 0 && sink.out == old(sink.out) + Letters(Encode(cps).ds)
    ensures Encode(cps).Fails? ==> rc == UV_E2BIG
  {
    hide Pass, Rest, DecodeAll, Below, Letters, Least, Quot, Times;
    var n: nat, bias: nat, delta: nat, first, h, todo := 128, 72, 0, true, h0, todo0;
    ghost var done: seq<nat>, out0 := [], sink.out;
    ghost var total := Encode(cps);
    LettersNone(out0);
    OuterStart(cps, total);
    while todo > 0
      invariant sink.Valid() && sink.out == out0 + Letters(done)
      invariant n <= 0x110000 && h == |Below(cps, n)| && todo == |cps| - h && delta < TWO32
      invariant total == PrependCoded(done, Rest(cps, n, St(delta, bias, h, first)))
      decreases 0x110000 - n
    {
      OuterStep(cps, n, St(delta, bias, h, first), done, total);
      var m := FindLeast(s, n, cps);
      var x: nat, y: nat := m - n, h + 1;
      if x > Quot(TWO32 - 1 - delta, y) {
        return UV_E2BIG;
      }
      delta := delta + Times(x, y);
      n := m;
      var st0 := St(delta, bias, h, first);
      var ok, st := RunPass(s, sink, n, st0, cps);
      if !ok {
        return UV_E2BIG;
      }
      ghost var ds := Pass(cps, n, st0).ds;
      LettersAppend(done, ds);
      done := done + ds;
      BelowLength(cps, n + 1);
      todo := todo - (st.h - h);
      delta, bias, h, first := (st.delta + 1) % TWO32, st.bias, st.h, st.first;
      n := n + 1;
    }
    OuterEnd(cps, n, St(delta, bias, h, first), done);
    rc := 0;
  }

  lemma {:induction false} BelowLength(cps: seq<nat>, n: nat)
    ensures |Below(cps, n)| <= |cps|
  {
  }

  lemma {:induction false} OuterStart(cps: seq<nat>, total: Coded)
    requires Points(cps) && total == Encode(cps)
    ensures total == PrependCoded([], Rest(cps, 128, St(0, 72, |Below(cps, 128)|, true)))
  {
    hide Rest;
    if total.Coded? {
      assert [] + total.ds == total.ds;
    }
  }

  lemma {:induction false} OuterEnd(cps: seq<nat>, n: nat, st: St, done: seq<nat>)
    requires Points(cps) && st.h == |Below(cps, n)| == |cps| && st.delta < TWO32
    ensures PrependCoded(done, Rest(cps, n, st)) == Coded(done)
  {
    assert Rest(cps, n, st) == Coded([]);
    assert done + [] == done;
  }

  /** uv__idna_toascii_label */
  method ToAsciiLabel(s: seq<Byte>, sink: Sink) returns (rc: int)
    requires sink.Valid()
    modifies sink, sink.buf
    ensures sink.Valid()
    ensures DecodeAll(s).Invalid? ==> rc == UV_EINVAL && sink.out == old(sink.out) && !AllProper(s)
    ensures DecodeAll(s).Text? ==> Scalars(DecodeAll(s).cps) && (s == EncodeAll(DecodeAll(s).cps) <==> AllProper(s))
    ensures DecodeAll(s).Text? ==> Points(DecodeAll(s).cps)
    ensures DecodeAll(s).Text? ==> (match LabelOf(DecodeAll(s).cps)
                                    case Error(code) => rc == code
                                    case Ascii(out) => rc >= 0 && sink.out == old(sink.out) + out)
  {
    hide DecodeAll, Below, Encode, Letters, AllProper, EncodeAll;
    ghost var cps;
    var ok, h, todo;
    ok, h, todo, cps := CountPoints(s);
    if !ok {
      return UV_EINVAL;
    }
    ghost var out0 := sink.out;
    BelowLength(cps, 128);
    if todo > 0 {
      WritePrefix(sink);
    }
    WriteBasic(s, sink, h, cps);
    if todo == 0 {
      return h;
    }
    if h > 0 {
      sink.Put(HYPHEN);
    }
    ghost var out1 := sink.out;
    rc := WriteDeltas(s, sink, h, todo, cps);
    LabelParts(cps, out0, out1);
  }

  method WritePrefix(sink: Sink)
    requires sink.Valid()
    modifies sink, sink.buf
    ensures sink.Valid() && sink.out == old(sink.out) + PREFIX
  {
    sink.Put(120);
    sink.Put(110);
    sink.Put(45);
    sink.Put(45);
  }

  lemma {:induction false} LabelParts(cps: seq<nat>, out0: seq<nat>, out1: seq<nat>)
    requires Points(cps) && |Below(cps, 128)| < |cps|
    requires var b := Below(cps, 128);
      out1 == if |b| > 0 then out0 + PREFIX + b + [HYPHEN] else out0 + PREFIX + b
    ensures match LabelOf(cps)
            case Error(code) => Encode(cps).Fails? && code == UV_E2BIG
            case Ascii(out) => Encode(cps).Coded? && out0 + out == out1 + Letters(Encode(cps).ds)
  {
    hide Encode, Below, Letters;
  }
}
