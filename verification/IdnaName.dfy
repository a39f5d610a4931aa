/** uv__idna_toascii: a host name, label by label. */
module IdnaName {
  import opened Utf8
  import opened Punycode
  import opened Idna

  /** The full stop and its three ideographic variants. */
  predicate Separator(c: nat) {
    c == 0x2E || c == 0x3002 || c == 0xFF0E || c == 0xFF61
  }

  const DOT: nat := 46

  function FirstSeparator(cps: seq<nat>): (i: nat)
    ensures i <= |cps|
    ensures forall k :: 0 <= k < i ==> !Separator(cps[k])
    ensures i < |cps| ==> Separator(cps[i])
  {
    if cps == [] || Separator(cps[0]) then 0 else 1 + FirstSeparator(cps[1..])
  }

  function PrependAscii(out: seq<nat>, a: Ascii): Ascii {
    match a
    case Error(code) => Error(code)
    case Ascii(out') => Ascii(out + out')
  }

  /** The labels of a name, each converted, with a full stop after each separator; the first
      label that cannot be converted decides the error.  If the name breaks off, not `whole`,
      what follows the last separator is no label. */
  function Convert(cps: seq<nat>, whole: bool): Ascii
    requires Points(cps)
    decreases |cps|
  {
    if cps == [] then Ascii([])
    else
      var i := FirstSeparator(cps);
      if i == |cps| && !whole then Ascii([])
      else match LabelOf(cps[..i])
        case Error(code) => Error(code)
        case Ascii(out) => if i == |cps| then Ascii(out) else PrependAscii(out + [DOT], Convert(cps[i + 1..], whole))
  }

  /** The code points before the first malformed one, if there is one. */
  function Readable(s: seq<Byte>): seq<nat> {
    if s == [] then []
    else match Decode1(s)
      case Bad => []
      case Got(c, used) => [c] + Readable(s[1 + used..])
  }

  /** Of a well-formed text, everything is readable. */
  lemma {:induction false} ReadableAll(s: seq<Byte>)
    ensures Points(Readable(s))
    ensures DecodeAll(s).Text? ==> Readable(s) == DecodeAll(s).cps
    decreases |s|
  {
    if s != [] && Decode1(s).Got? {
      DecodesScalars(s);
      ReadableAll(s[1 + Decode1(s).used..]);
    }
  }

  // ---------- decoding inside the name and inside a label ----------

  /** Decoding steps through `s` from `from` to exactly `to`, giving `cps`. */
  ghost predicate Path(s: seq<Byte>, from: nat, to: nat, cps: seq<nat>)
    decreases cps
  {
    && from <= to <= |s|
    && if from == to then cps == []
       else
         var r := Decode1(s[from..]);
         r.Got? && cps != [] && cps[0] == r.c && Path(s, from + 1 + r.used, to, cps[1..])
  }

  lemma {:induction false} PathSnoc(s: seq<Byte>, from: nat, to: nat, cps: seq<nat>)
    requires Path(s, from, to, cps) && to < |s| && Decode1(s[to..]).Got?
    ensures var r := Decode1(s[to..]); Path(s, from, to + 1 + r.used, cps + [r.c])
    decreases cps
  {
    var r := Decode1(s[to..]);
    if from == to {
      assert ([] + [r.c])[1..] == [];
    } else {
      var r0 := Decode1(s[from..]);
      PathSnoc(s, from + 1 + r0.used, to, cps[1..]);
      assert (cps + [r.c])[1..] == cps[1..] + [r.c];
    }
  }

  // Cutting the text off behind a code point does not change how it is decoded.
  lemma {:induction false} CutStable(s: seq<Byte>, k: nat)
    requires s != [] && Decode1(s).Got? && 1 + Decode1(s).used <= k <= |s|
    ensures Decode1(s[..k]) == Decode1(s)
  {
    assert s[..k][1..] == s[1..k];
  }

  lemma {:induction false} PathDecodes(s: seq<Byte>, from: nat, to: nat, cps: seq<nat>)
    requires Path(s, from, to, cps)
    ensures DecodeAll(s[from..to]) == Text(cps)
    decreases cps
  {
    if from == to {
      assert s[from..to] == [];
    } else {
      PathDecodesOn(s, from, to, cps);
    }
    hide Decode1;
  }

  lemma {:induction false} PathDecodesOn(s: seq<Byte>, from: nat, to: nat, cps: seq<nat>)
    requires Path(s, from, to, cps) && from < to
    ensures DecodeAll(s[from..to]) == Text(cps)
    decreases cps, 0
  {
    hide Decode1, Path, DecodeAll;
    var n := PathStep(s, from, to, cps);
    PathDecodes(s, from + n, to, cps[1..]);
    DecodeAllStep(s[from..to], n, cps);
  }

  // The first step of a path, in the text cut off at its end.
  lemma {:induction false} PathStep(s: seq<Byte>, from: nat, to: nat, cps: seq<nat>) returns (n: nat)
    requires Path(s, from, to, cps) && from < to
    ensures 0 < n && from + n <= to <= |s| && cps != [] && Path(s, from + n, to, cps[1..])
    ensures Decode1(s[from..to]) == Got(cps[0], n - 1) && s[from..to][n..] == s[from + n..to]
  {
    n := 1 + Decode1(s[from..]).used;
    PathOrder(s, from + n, to, cps[1..]);
    CutStable(s[from..], to - from);
    Slices(s, from, n, to);
    hide Decode1, DecodeAll;
  }

  lemma {:induction false} DecodeAllStep(t: seq<Byte>, n: nat, cps: seq<nat>)
    requires t != [] && cps != [] && 0 < n <= |t| && Decode1(t) == Got(cps[0], n - 1)
    requires DecodeAll(t[n..]) == Text(cps[1..])
    ensures DecodeAll(t) == Text(cps)
  {
    assert [cps[0]] + cps[1..] == cps;
  }

  lemma {:induction false} Slices(s: seq<Byte>, from: nat, n: nat, to: nat)
    requires from + n <= to <= |s|
    ensures s[from..][..to - from] == s[from..to] && s[from..to][n..] == s[from + n..to]
  {
  }

  lemma {:induction false} PathOrder(s: seq<Byte>, from: nat, to: nat, cps: seq<nat>)
    requires Path(s, from, to, cps)
    ensures from <= to
  {
  }

  // The current label, once its end is known.
  lemma {:induction false} ConvertAt(cps: seq<nat>, j: nat, k: nat, whole: bool)
    requires Points(cps) && j <= k < |cps| && Separator(cps[k])
    requires forall i :: j <= i < k ==> !Separator(cps[i])
    ensures Points(cps[j..k]) && Convert(cps[j..], whole) ==
      match LabelOf(cps[j..k])
      case Error(code) => Error(code)
      case Ascii(out) => PrependAscii(out + [DOT], Convert(cps[k + 1..], whole))
  {
    var t := cps[j..];
    FirstAt(t, k - j);
    assert t[..k - j] == cps[j..k] && t[k - j + 1..] == cps[k + 1..];
    hide LabelOf, Separator, FirstSeparator, PrependAscii;
  }

  lemma {:induction false} FirstAt(t: seq<nat>, n: nat)
    requires n < |t| && Separator(t[n]) && forall x :: 0 <= x < n ==> !Separator(t[x])
    ensures FirstSeparator(t) == n
  {
  }

  lemma {:induction false} ConvertLast(cps: seq<nat>, j: nat, whole: bool)
    requires Points(cps) && j <= |cps|
    requires forall i :: j <= i < |cps| ==> !Separator(cps[i])
    ensures Points(cps[j..])
    ensures Convert(cps[j..], whole) == if j == |cps| || !whole then Ascii([]) else LabelOf(cps[j..])
  {
    var t := cps[j..];
    if j < |cps| {
      var i := FirstSeparator(t);
      assert forall x :: 0 <= x < |t| ==> t[x] == cps[j + x];
      assert i == |t| && t[..i] == t;
    }
  }

  lemma {:induction false} PrependTwice(a: seq<nat>, b: seq<nat>, c: Ascii)
    ensures PrependAscii(a, PrependAscii(b, c)) == PrependAscii(a + b, c)
  {
    if c.Ascii? {
      assert a + (b + c.out) == (a + b) + c.out;
    }
  }

  // A label that ends with a separator.
  method EmitLabel(text: seq<Byte>, sink: Sink, ghost seg: seq<nat>) returns (rc: int)
    requires sink.Valid() && DecodeAll(text) == Text(seg)
    modifies sink, sink.buf
    ensures sink.Valid() && Points(seg)
    ensures match LabelOf(seg)
            case Error(code) => rc == code < 0
            case Ascii(out) => rc >= 0 && sink.out == old(sink.out) + (out + [DOT])
  {
    hide DecodeAll, LabelOf;
    rc := ToAsciiLabel(text, sink);
    LabelErrors(seg);
    if rc < 0 {
      return;
    }
    sink.Put(DOT);
  }

  // What follows the last separator, and the terminating NUL.
  method EmitLast(text: seq<Byte>, sink: Sink, ghost seg: seq<nat>) returns (rc: int)
    requires sink.Valid() && DecodeAll(text) == Text(seg) && (text == [] <==> seg == [])
    modifies sink, sink.buf
    ensures sink.Valid() && Points(seg)
    ensures match (if seg == [] then Ascii([]) else LabelOf(seg))
            case Error(code) => rc == code
            case Ascii(out) => rc == sink.d && sink.out == old(sink.out) + out + [0]
  {
    hide DecodeAll, LabelOf;
    if text != [] {
      rc := ToAsciiLabel(text, sink);
      LabelErrors(seg);
      if rc < 0 {
        return;
      }
    } else {
      assert sink.out == sink.out + [];
    }
    sink.Put(0);
    rc := sink.d;
  }

  /** uv__idna_toascii; the result is the number of bytes written, or an error: that of the
      first label that cannot be converted, or UV_EINVAL if malformed text comes before it. */
  method ToAscii(s: seq<Byte>, sink: Sink) returns (rc: int)
    requires sink.Valid() && sink.out == []
    modifies sink, sink.buf
    ensures sink.Valid() && Points(Readable(s))
    ensures AllProper(s) ==> DecodeAll(s).Text?
    ensures DecodeAll(s).Text? ==> Scalars(Readable(s)) && (s == EncodeAll(Readable(s)) <==> AllProper(s))
    ensures match Convert(Readable(s), DecodeAll(s).Text?)
            case Error(code) => rc == code
            case Ascii(out) => if DecodeAll(s).Text? then rc == sink.d && sink.out == out + [0]
                               else rc == UV_EINVAL && sink.out == out
  {
    hide DecodeAll, Readable, Convert, LabelOf, Path, Decode1, AllProper, EncodeAll;
    WellFormedExactly(s);
    ReadableAll(s);
    var from: nat, si: nat := 0, 0;
    ghost var cps, whole := Readable(s), DecodeAll(s).Text?;
    ghost var j: nat, k: nat, seg: seq<nat> := 0, 0, [];
    NameStart(s, cps, whole);
    while si < |s|
      invariant from <= si <= |s| && sink.Valid() && Path(s, from, si, seg) && Points(cps)
      invariant InName(s, si, cps, whole, j, k, seg)
      invariant Convert(cps, whole) == PrependAscii(sink.out, Convert(cps[j..], whole))
    {
      var st := si;
      var r := Decode1(s[si..]);
      NameStep(s, si, cps, whole, j, k, seg);
      if r.Bad? {
        ConvertLast(cps, j, whole);
        assert sink.out + [] == sink.out;
        return UV_EINVAL;
      }
      si := si + 1 + r.used;
      if !Separator(r.c) {
        PathSnoc(s, from, st, seg);
        seg, k := seg + [r.c], k + 1;
        continue;
      }
      PathDecodes(s, from, st, seg);
      ghost var out0 := sink.out;
      rc := EmitLabel(s[from..st], sink, seg);
      ConvertAt(cps, j, k, whole);
      if rc < 0 {
        return;
      }
      PrependTwice(out0, LabelOf(seg).out + [DOT], Convert(cps[k + 1..], whole));
      from, j, k, seg := si, k + 1, k + 1, [];
      PathNone(s, si);
    }
    NameEnd(s, from, cps, whole, j, k, seg);
    rc := EmitLast(s[from..], sink, seg);
  }

  /** The scan of a name: `cps[j..k]` is the part `seg` of the current label read so far,
      and `cps[k..]` is still to be decoded from `si` on. */
  ghost predicate InName(s: seq<Byte>, si: nat, cps: seq<nat>, whole: bool, j: nat, k: nat, seg: seq<nat>) {
    && si <= |s| && j <= k <= |cps| && seg == cps[j..k]
    && Readable(s[si..]) == cps[k..] && (DecodeAll(s[si..]).Text? <==> whole)
    && forall i :: j <= i < k ==> !Separator(cps[i])
  }

  lemma {:induction false} NameStart(s: seq<Byte>, cps: seq<nat>, whole: bool)
    requires cps == Readable(s) && whole == DecodeAll(s).Text?
    ensures Points(cps) && Path(s, 0, 0, []) && InName(s, 0, cps, whole, 0, 0, [])
    ensures Convert(cps, whole) == PrependAscii([], Convert(cps[0..], whole))
  {
    ReadableAll(s);
    assert s[0..] == s && cps[0..] == cps && cps[0..0] == [];
    if Convert(cps, whole).Ascii? {
      assert [] + Convert(cps, whole).out == Convert(cps, whole).out;
    }
  }

  lemma {:induction false} NameStep(s: seq<Byte>, si: nat, cps: seq<nat>, whole: bool, j: nat, k: nat, seg: seq<nat>)
    requires si < |s| && InName(s, si, cps, whole, j, k, seg)
    ensures var r := Decode1(s[si..]);
      if r.Bad? then k == |cps| && !whole
      else
        && k < |cps| && r.c == cps[k] && Readable(s[si + 1 + r.used..]) == cps[k + 1..]
        && (DecodeAll(s[si + 1 + r.used..]).Text? <==> whole) && cps[j..k + 1] == seg + [r.c]
  {
    var r := Decode1(s[si..]);
    if r.Got? {
      assert s[si..][1 + r.used..] == s[si + 1 + r.used..];
      assert cps[k..] == [r.c] + Readable(s[si + 1 + r.used..]);
      assert cps[k..][1..] == cps[k + 1..];
    }
  }

  lemma {:induction false} NameEnd(s: seq<Byte>, from: nat, cps: seq<nat>, whole: bool, j: nat, k: nat, seg: seq<nat>)
    requires Path(s, from, |s|, seg) && Points(cps) && InName(s, |s|, cps, whole, j, k, seg)
    ensures whole && DecodeAll(s[from..]) == Text(seg) && (s[from..] == [] <==> seg == [])
    ensures seg == cps[j..] && Convert(cps[j..], whole) == if seg == [] then Ascii([]) else LabelOf(seg)
  {
    assert s[|s|..] == [] && cps[k..] == [];
    ConvertLast(cps, j, whole);
    PathDecodes(s, from, |s|, seg);
    assert s[from..|s|] == s[from..];
    assert k == |cps| && cps[j..k] == cps[j..];
  }

  lemma {:induction false} LabelErrors(cps: seq<nat>)
    ensures Points(cps) && LabelOf(cps).Error? ==> LabelOf(cps).code == UV_E2BIG
  {
  }

  lemma {:induction false} PathNone(s: seq<Byte>, si: nat)
    requires si <= |s|
    ensures Path(s, si, si, [])
  {
  }
}
