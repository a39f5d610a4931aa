/** uv__utf8_decode1, against the encoding of section 3 of RFC 3629. */
module Utf8 {

  type Byte = b: nat | b < 256

  /** The outcome of one decoding step: UINT_MAX, or a code point and how many
      bytes after the first it took. */
  datatype Step = Bad | Got(c: nat, used: nat)

  /** A Unicode scalar value. */
  predicate Scalar(c: nat) {
    c <= 0x10FFFF && !(0xD800 <= c <= 0xDFFF)
  }

  /** Exclusive or of the two top bits of bytes, as numbers from 0 to 3. */
  function XorTop(x: Byte, y: Byte, z: Byte): nat {
    var (i, j, k) := (x / 64, y / 64, z / 64);
    2 * ((i / 2 + j / 2 + k / 2) % 2) + (i + j + k) % 2
  }

  /** The checks at the end of uv__utf8_decode1_slow; `used` bytes were read. */
  function Assemble(a: nat, b: Byte, c: Byte, d: Byte, min: nat, used: nat): Step {
    if XorTop(b, c, d) != 2 then Bad
    else
      var v := a * 0x40000 + (b % 64) * 0x1000 + (c % 64) * 0x40 + d % 64;
      if v < min || v > 0x10FFFF || 0xD800 <= v <= 0xDFFF then Bad else Got(v, used)
  }

  /** uv__utf8_decode1_slow: `a` is the first byte, `s` what follows it.  Too short
      a tail falls through to the shorter forms, as the switch does. */
  function DecodeSlow(a: Byte, s: seq<Byte>): Step {
    if a > 0xF7 then Bad
    else if |s| >= 3 && a > 0xEF then Assemble(a % 8, s[0], s[1], s[2], 0x10000, 3)
    else if |s| >= 2 && a > 0xDF then Assemble(0, 0x80 + a % 16, s[0], s[1], 0x800, 2)
    else if |s| >= 1 && a > 0xBF then Assemble(0, 0x80, 0x80 + a % 32, s[0], 0x80, 1)
    else Bad
  }

  /** uv__utf8_decode1 */
  function Decode1(s: seq<Byte>): (r: Step)
    requires s != []
    ensures r.Got? ==> r.used < |s|
  {
    if s[0] < 128 then Got(s[0], 0) else DecodeSlow(s[0], s[1..])
  }

  /** Every code point that is not an error is a scalar value. */
  lemma {:induction false} DecodesScalars(s: seq<Byte>)
    requires s != [] && Decode1(s).Got?
    ensures Scalar(Decode1(s).c)
  {
  }

  datatype Text = Invalid | Text(cps: seq<nat>)

  /** All code points of `s`, or Invalid if one of them is malformed. */
  function DecodeAll(s: seq<Byte>): Text {
    if s == [] then Text([])
    else match Decode1(s)
      case Bad => Invalid
      case Got(c, used) =>
        match DecodeAll(s[1 + used..])
        case Invalid => Invalid
        case Text(cps) => Text([c] + cps)
  }

  /** The UTF-8 form of a scalar value. */
  function Encode1(c: nat): seq<Byte>
    requires Scalar(c)
  {
    if c < 0x80 then [c]
    else if c < 0x800 then [0xC0 + c / 0x40, 0x80 + c % 0x40]
    else if c < 0x10000 then [0xE0 + c / 0x1000, 0x80 + c / 0x40 % 0x40, 0x80 + c % 0x40]
    else [0xF0 + c / 0x40000, 0x80 + c / 0x1000 % 0x40, 0x80 + c / 0x40 % 0x40, 0x80 + c % 0x40]
  }

  predicate Scalars(cps: seq<nat>) {
    forall i :: 0 <= i < |cps| ==> Scalar(cps[i])
  }

  function EncodeAll(cps: seq<nat>): seq<Byte>
    requires Scalars(cps)
  {
    if cps == [] then [] else Encode1(cps[0]) + EncodeAll(cps[1..])
  }

  lemma {:induction false} Continuation(x: nat)
    requires x < 0x40
    ensures (0x80 + x) / 64 == 2 && (0x80 + x) % 64 == x
  {
  }

  // Three continuation bytes pass the test and give back their payloads.
  lemma {:induction false} Assembles(a: nat, x: nat, y: nat, z: nat, min: nat, used: nat)
    requires x < 0x40 && y < 0x40 && z < 0x40
    ensures var v := a * 0x40000 + x * 0x1000 + y * 0x40 + z;
      v >= min && Scalar(v) ==> Assemble(a, 0x80 + x, 0x80 + y, 0x80 + z, min, used) == Got(v, used)
  {
    Continuation(x);
    Continuation(y);
    Continuation(z);
  }

  lemma {:induction false} Base64(c: nat)
    ensures c == c / 0x40 * 0x40 + c % 0x40
    ensures c == c / 0x1000 * 0x1000 + c / 0x40 % 0x40 * 0x40 + c % 0x40
    ensures c == c / 0x40000 * 0x40000 + c / 0x1000 % 0x40 * 0x1000 + c / 0x40 % 0x40 * 0x40 + c % 0x40
  {
    assert c / 0x40 / 0x40 == c / 0x1000;
    assert c / 0x1000 / 0x40 == c / 0x40000;
  }

  /** Decoding undoes encoding, whatever follows. */
  lemma {:induction false} RoundTrip1(c: nat, rest: seq<Byte>)
    requires Scalar(c)
    ensures Decode1(Encode1(c) + rest) == Got(c, |Encode1(c)| - 1)
  {
    Base64(c);
    var s := Encode1(c) + rest;
    var x, y, z := c / 0x1000 % 0x40, c / 0x40 % 0x40, c % 0x40;
    if c < 0x80 {
    } else if c < 0x800 {
      TwoBytes(c / 0x40, z, s);
    } else if c < 0x10000 {
      ThreeBytes(c / 0x1000, y, z, s);
    } else {
      FourBytes(c / 0x40000, x, y, z, s);
    }
  }

  lemma {:induction false} TwoBytes(y: nat, z: nat, s: seq<Byte>)
    requires 2 <= y < 0x20 && z < 0x40 && |s| >= 2 && s[0] == 0xC0 + y && s[1] == 0x80 + z
    ensures Decode1(s) == Got(y * 0x40 + z, 1)
  {
    ShortestForm(s, y);
    hide Decode1, DecodeSlow;
    Assembles(0, 0, y, z, 0x80, 1);
  }

  lemma {:induction false} ThreeBytes(x: nat, y: nat, z: nat, s: seq<Byte>)
    requires x < 0x10 && y < 0x40 && z < 0x40 && Scalar(x * 0x1000 + y * 0x40 + z) && x * 0x40 + y >= 0x20
    requires |s| >= 3 && s[0] == 0xE0 + x && s[1] == 0x80 + y && s[2] == 0x80 + z
    ensures Decode1(s) == Got(x * 0x1000 + y * 0x40 + z, 2)
  {
    ShortForm(s, x);
    hide Decode1, DecodeSlow;
    Assembles(0, x, y, z, 0x800, 2);
  }

  lemma {:induction false} ShortestForm(s: seq<Byte>, y: nat)
    requires |s| >= 2 && y < 0x20 && s[0] == 0xC0 + y
    ensures Decode1(s) == Assemble(0, 0x80, 0x80 + y, s[1], 0x80, 1)
  {
    hide Assemble;
    assert s[1..][0] == s[1];
  }

  lemma {:induction false} ShortForm(s: seq<Byte>, x: nat)
    requires |s| >= 3 && x < 0x10 && s[0] == 0xE0 + x
    ensures Decode1(s) == Assemble(0, 0x80 + x, s[1], s[2], 0x800, 2)
  {
    hide Assemble;
    assert s[1..][0] == s[1] && s[1..][1] == s[2];
  }

  lemma {:induction false} FourBytes(w: nat, x: nat, y: nat, z: nat, s: seq<Byte>)
    requires w < 5 && x < 0x40 && y < 0x40 && z < 0x40 && w * 0x40 + x >= 0x10
    requires Scalar(w * 0x40000 + x * 0x1000 + y * 0x40 + z)
    requires |s| >= 4 && s[0] == 0xF0 + w && s[1] == 0x80 + x && s[2] == 0x80 + y && s[3] == 0x80 + z
    ensures Decode1(s) == Got(w * 0x40000 + x * 0x1000 + y * 0x40 + z, 3)
  {
    Assembles(w, x, y, z, 0x10000, 3);
  }

  /** Every sequence of scalar values survives encoding and decoding. */
  lemma {:induction false} RoundTrip(cps: seq<nat>)
    requires Scalars(cps)
    ensures DecodeAll(EncodeAll(cps)) == Text(cps)
  {
    if cps != [] {
      var rest := EncodeAll(cps[1..]);
      RoundTrip1(cps[0], rest);
      RoundTrip(cps[1..]);
      assert (Encode1(cps[0]) + rest)[|Encode1(cps[0])|..] == rest;
    }
  }

  // ---------- ill-formed text ----------

  /** What section 3 of RFC 3629 asks of the bytes of one code point, and the code does not
      look at: continuation bytes all carry their mark, which the code tests only in the
      exclusive or of three of them, and there are as many as the first byte announces, where
      the code takes fewer at the end of the text. */
  predicate Proper(s: seq<Byte>, used: nat)
    requires used < |s|
  {
    && (used == 1 ==> s[0] < 0xE0)
    && (used == 2 ==> s[0] < 0xF0)
    && forall i :: 1 <= i <= used ==> 0x80 <= s[i] < 0xC0
  }

  function Low(b: Byte, m: nat): nat
    requires m > 0
  {
    var n: nat := b;
    n % m
  }

  // The bytes and the value of a proper step, by its length.
  lemma {:induction false} TwoParts(s: seq<Byte>, c: nat)
    requires |s| >= 2 && Decode1(s) == Got(c, 1) && Proper(s, 1)
    ensures s[0] == 0xC0 + Low(s[0], 0x20) && s[1] == 0x80 + Low(s[1], 0x40)
    ensures c == Low(s[0], 0x20) * 0x40 + Low(s[1], 0x40) && 0x80 <= c < 0x800
  {
    assert s[1..][0] == s[1];
    hide XorTop, Proper;
  }

  lemma {:induction false} ThreeParts(s: seq<Byte>, c: nat)
    requires |s| >= 3 && Decode1(s) == Got(c, 2) && Proper(s, 2)
    ensures s[0] == 0xE0 + Low(s[0], 0x10) && s[1] == 0x80 + Low(s[1], 0x40) && s[2] == 0x80 + Low(s[2], 0x40)
    ensures c == Low(s[0], 0x10) * 0x1000 + Low(s[1], 0x40) * 0x40 + Low(s[2], 0x40) && 0x800 <= c < 0x10000
  {
    ShortForm3(s, c);
    hide Decode1, DecodeSlow;
    hide XorTop;
  }

  lemma {:induction false} ShortForm3(s: seq<Byte>, c: nat)
    requires |s| >= 3 && Decode1(s) == Got(c, 2) && s[0] < 0xF0
    ensures s[0] >= 0xE0 && Assemble(0, 0x80 + s[0] % 16, s[1], s[2], 0x800, 2) == Got(c, 2)
  {
    forall a, b, c, d, min, used | Assemble(a, b, c, d, min, used).Got?
      ensures Assemble(a, b, c, d, min, used).used == used
    {
    }
    hide Assemble;
    assert s[1..][0] == s[1] && s[1..][1] == s[2];
  }

  lemma {:induction false} FourParts(s: seq<Byte>, c: nat)
    requires |s| >= 4 && Decode1(s) == Got(c, 3) && Proper(s, 3)
    ensures s[0] == 0xF0 + Low(s[0], 8)
    ensures s[1] == 0x80 + Low(s[1], 0x40) && s[2] == 0x80 + Low(s[2], 0x40) && s[3] == 0x80 + Low(s[3], 0x40)
    ensures c == Low(s[0], 8) * 0x40000 + Low(s[1], 0x40) * 0x1000 + Low(s[2], 0x40) * 0x40 + Low(s[3], 0x40)
    ensures c >= 0x10000
  {
    assert s[1..][0] == s[1] && s[1..][1] == s[2] && s[1..][2] == s[3];
    hide XorTop;
  }

  lemma {:induction false} Split2(a: nat, b: nat)
    requires b < 0x40
    ensures (a * 0x40 + b) / 0x40 == a && (a * 0x40 + b) % 0x40 == b
  {
  }

  lemma {:induction false} EncodesTwo(a: nat, b: nat)
    requires b < 0x40 && 0x80 <= a * 0x40 + b < 0x800
    ensures Encode1(a * 0x40 + b) == [0xC0 + a, 0x80 + b]
  {
    Split2(a, b);
  }

  lemma {:induction false} EncodesThree(a: nat, x: nat, y: nat)
    requires x < 0x40 && y < 0x40 && 0x800 <= a * 0x1000 + x * 0x40 + y < 0x10000 && Scalar(a * 0x1000 + x * 0x40 + y)
    ensures Encode1(a * 0x1000 + x * 0x40 + y) == [0xE0 + a, 0x80 + x, 0x80 + y]
  {
    var c := a * 0x1000 + x * 0x40 + y;
    Split2(a * 0x40 + x, y);
    Split2(a, x);
    assert c / 0x40 / 0x40 == c / 0x1000;
  }

  lemma {:induction false} EncodesFour(a: nat, x: nat, y: nat, z: nat)
    requires x < 0x40 && y < 0x40 && z < 0x40
    requires a * 0x40000 + x * 0x1000 + y * 0x40 + z >= 0x10000 && Scalar(a * 0x40000 + x * 0x1000 + y * 0x40 + z)
    ensures Encode1(a * 0x40000 + x * 0x1000 + y * 0x40 + z) == [0xF0 + a, 0x80 + x, 0x80 + y, 0x80 + z]
  {
    var c := a * 0x40000 + x * 0x1000 + y * 0x40 + z;
    Split2((a * 0x40 + x) * 0x40 + y, z);
    Split2(a * 0x40 + x, y);
    Split2(a, x);
    assert c / 0x40 / 0x40 == c / 0x1000 && c / 0x1000 / 0x40 == c / 0x40000;
  }

  lemma {:induction false} TwoProper(s: seq<Byte>, c: nat)
    requires |s| >= 2 && Decode1(s) == Got(c, 1) && Proper(s, 1) && Scalar(c)
    ensures s[..2] == Encode1(c)
  {
    hide Decode1, Low, Proper, Scalar, Encode1;
    TwoParts(s, c);
    LowBelow(s[1]);
    EncodesTwo(Low(s[0], 0x20), Low(s[1], 0x40));
    assert s[..2] == [s[0], s[1]];
  }

  lemma {:induction false} ThreeProper(s: seq<Byte>, c: nat)
    requires |s| >= 3 && Decode1(s) == Got(c, 2) && Proper(s, 2) && Scalar(c)
    ensures s[..3] == Encode1(c)
  {
    hide Decode1, Low, Proper, Scalar, Encode1;
    ThreeParts(s, c);
    LowBelow(s[1]);
    LowBelow(s[2]);
    EncodesThree(Low(s[0], 0x10), Low(s[1], 0x40), Low(s[2], 0x40));
    assert s[..3] == [s[0], s[1], s[2]];
  }

  lemma {:induction false} FourProper(s: seq<Byte>, c: nat)
    requires |s| >= 4 && Decode1(s) == Got(c, 3) && Proper(s, 3) && Scalar(c)
    ensures s[..4] == Encode1(c)
  {
    hide Decode1, Low, Proper, Scalar, Encode1;
    FourParts(s, c);
    LowBelow(s[1]);
    LowBelow(s[2]);
    LowBelow(s[3]);
    EncodesFour(Low(s[0], 8), Low(s[1], 0x40), Low(s[2], 0x40), Low(s[3], 0x40));
    assert s[..4] == [s[0], s[1], s[2], s[3]];
  }

  // The bytes of a proper step are the encoding of its code point.
  lemma {:induction false} ProperEncodes(s: seq<Byte>)
    requires s != [] && Decode1(s).Got? && Proper(s, Decode1(s).used)
    ensures Scalar(Decode1(s).c) && s[..1 + Decode1(s).used] == Encode1(Decode1(s).c)
  {
    DecodesScalars(s);
    UsedAtMost(s);
    hide Decode1, Scalar, Proper;
    var c, used := Decode1(s).c, Decode1(s).used;
    if used == 0 {
      assert s[..1] == [s[0]];
    } else if used == 1 {
      TwoProper(s, c);
    } else if used == 2 {
      ThreeProper(s, c);
    } else {
      FourProper(s, c);
    }
    hide Encode1;
  }

  lemma {:induction false} LowBelow(b: Byte)
    ensures Low(b, 0x40) < 0x40
  {
  }

  lemma {:induction false} UsedAtMost(s: seq<Byte>)
    requires s != [] && Decode1(s).Got?
    ensures Decode1(s).used <= 3 && (Decode1(s).used == 0 ==> Decode1(s).c == s[0] < 128)
  {
  }

  // An encoding is read by a proper step.
  lemma {:induction false} EncodesProper(c: nat, s: seq<Byte>)
    requires Scalar(c) && Encode1(c) <= s
    ensures s != [] && Decode1(s) == Got(c, |Encode1(c)| - 1) && Proper(s, |Encode1(c)| - 1)
  {
    RoundTrip1(c, s[|Encode1(c)|..]);
    assert s == Encode1(c) + s[|Encode1(c)|..];
    assert forall i :: 0 <= i < |Encode1(c)| ==> s[i] == Encode1(c)[i];
    hide Decode1;
  }

  /** One step, exactly: it reads an encoding when it is proper, and a proper encoding is read. */
  lemma {:induction false} StepExact(s: seq<Byte>)
    requires s != []
    ensures Decode1(s).Got? ==> Scalar(Decode1(s).c)
    ensures Decode1(s).Got? ==> (s[..1 + Decode1(s).used] == Encode1(Decode1(s).c) <==> Proper(s, Decode1(s).used))
    ensures (exists c :: Scalar(c) && Encode1(c) <= s) <==> Decode1(s).Got? && Proper(s, Decode1(s).used)
  {
    hide Encode1, Proper;
    if Decode1(s).Got? {
      DecodesScalars(s);
      var c, n := Decode1(s).c, 1 + Decode1(s).used;
      if Proper(s, n - 1) {
        ProperEncodes(s);
        assert Encode1(c) <= s;
      }
      if s[..n] == Encode1(c) {
        EncodesProper(c, s);
      }
    }
    hide Decode1, Scalar;
    forall c | Scalar(c) && Encode1(c) <= s
      ensures Decode1(s).Got? && Proper(s, Decode1(s).used)
    {
      EncodesProper(c, s);
    }
  }

  /** Every step through the text is proper. */
  predicate AllProper(s: seq<Byte>) {
    s == [] || (Decode1(s).Got? && Proper(s, Decode1(s).used) && AllProper(s[1 + Decode1(s).used..]))
  }

  lemma {:induction false} DecodesAllScalars(s: seq<Byte>)
    ensures DecodeAll(s).Text? ==> Scalars(DecodeAll(s).cps)
    decreases |s|
  {
    if s != [] && Decode1(s).Got? {
      DecodesScalars(s);
      DecodesAllScalars(s[1 + Decode1(s).used..]);
    }
    hide Decode1;
  }

  lemma {:induction false} ProperText(s: seq<Byte>)
    requires AllProper(s)
    ensures DecodeAll(s).Text? && Scalars(DecodeAll(s).cps) && s == EncodeAll(DecodeAll(s).cps)
    decreases |s|
  {
    hide Decode1, Encode1, Proper, Scalar;
    if s != [] {
      var n := 1 + Decode1(s).used;
      ProperEncodes(s);
      ProperText(s[n..]);
      assert s == s[..n] + s[n..];
      EncodeCons(Decode1(s).c, DecodeAll(s[n..]).cps);
    }
  }

  lemma {:induction false} EncodeCons(c: nat, cps: seq<nat>)
    requires Scalar(c) && Scalars(cps)
    ensures Scalars([c] + cps) && EncodeAll([c] + cps) == Encode1(c) + EncodeAll(cps)
  {
    assert ([c] + cps)[1..] == cps;
  }

  lemma {:induction false} EncodedProper(cps: seq<nat>)
    requires Scalars(cps)
    ensures AllProper(EncodeAll(cps))
  {
    if cps != [] {
      var s := EncodeAll(cps);
      var e := Encode1(cps[0]);
      EncodesProper(cps[0], s);
      assert s[|e|..] == EncodeAll(cps[1..]);
      EncodedProper(cps[1..]);
      hide Decode1, Encode1, Proper;
    }
  }

  /** Well-formed text, exactly: it is the encoding of something when every step through it is
      proper, and then it is the encoding of what it is decoded to. */
  lemma {:induction false} WellFormedExactly(s: seq<Byte>)
    ensures AllProper(s) <==> exists cps :: Scalars(cps) && s == EncodeAll(cps)
    ensures DecodeAll(s).Text? ==> Scalars(DecodeAll(s).cps) && (s == EncodeAll(DecodeAll(s).cps) <==> AllProper(s))
    ensures AllProper(s) ==> DecodeAll(s).Text?
  {
    hide AllProper, DecodeAll, EncodeAll;
    DecodesAllScalars(s);
    if AllProper(s) {
      ProperText(s);
    }
    forall cps | Scalars(cps) && s == EncodeAll(cps)
      ensures AllProper(s)
    {
      EncodedProper(cps);
    }
  }

  /** Ill-formed text that is accepted: NUL bytes or full stops for continuation bytes, and
      two bytes that announce three. */
  lemma {:induction false} IllFormedAccepted()
    ensures Decode1([0xE1, 0, 0]) == Got(0x1000, 2) && !AllProper([0xE1, 0, 0])
    ensures DecodeAll([0xE1, 0x2E, 0x2E]) == Text([0x1BAE]) && !AllProper([0xE1, 0x2E, 0x2E])
    ensures DecodeAll([0xE2, 0x80]) == Text([0x80]) && !AllProper([0xE2, 0x80])
  {
    hide Decode1, DecodeAll, AllProper;
    var nuls, stops: seq<Byte> := [0xE1, 0, 0], [0xE1, 0x2E, 0x2E];
    assert nuls[1] == 0 && !Proper(nuls, 2);
    assert stops[1] == 0x2E && !Proper(stops, 2);
    NulsRead();
    StopsRead();
    ShortRead();
    OneChar(nuls, 0x1000);
    OneChar(stops, 0x1BAE);
    OneChar([0xE2, 0x80], 0x80);
  }

  lemma {:induction false} StopsRead()
    ensures Decode1([0xE1, 0x2E, 0x2E]) == Got(0x1BAE, 2)
  {
    assert [0xE1, 0x2E, 0x2E][1..] == [0x2E, 0x2E];
  }

  lemma {:induction false} NulsRead()
    ensures Decode1([0xE1, 0, 0]) == Got(0x1000, 2)
  {
    assert [0xE1, 0, 0][1..] == [0, 0];
  }

  lemma {:induction false} ShortRead()
    ensures Decode1([0xE2, 0x80]) == Got(0x80, 1)
  {
    assert [0xE2, 0x80][1..] == [0x80];
  }

  // A text that is read in one step.
  lemma {:induction false} OneChar(s: seq<Byte>, c: nat)
    requires s != [] && Decode1(s) == Got(c, |s| - 1)
    ensures DecodeAll(s) == Text([c]) && (AllProper(s) <==> Proper(s, |s| - 1))
  {
    assert s[|s|..] == [];
    hide Decode1, Proper;
  }

  // Only the full stop itself is encoded with the byte of the full stop.
  lemma {:induction false} DotEncoded(c: nat)
    requires Scalar(c)
    ensures multiset(Encode1(c))[0x2E] == if c == 0x2E then 1 else 0
  {
    assert forall i :: 0 <= i < |Encode1(c)| && |Encode1(c)| > 1 ==> Encode1(c)[i] >= 0x80;
  }

  /** In well-formed text every full stop is a code point of its own: none is swallowed. */
  lemma {:induction false} DotsKept(s: seq<Byte>)
    requires AllProper(s)
    ensures DecodeAll(s).Text? && multiset(s)[0x2E] == multiset(DecodeAll(s).cps)[0x2E]
    decreases |s|
  {
    hide Decode1, Encode1, Proper, Scalar;
    if s != [] {
      var r := Decode1(s);
      var n := 1 + r.used;
      ProperEncodes(s);
      DotEncoded(r.c);
      DotsKept(s[n..]);
      assert s == s[..n] + s[n..];
      assert multiset(s) == multiset(s[..n]) + multiset(s[n..]);
    }
  }
}
