/** What the conversion of host names means, in literal code points. */
module IdnaRules {
  import opened Utf8
  import opened Punycode
  import opened Idna
  import opened IdnaName

  ghost predicate AllAscii(cps: seq<nat>) {
    forall i :: 0 <= i < |cps| ==> cps[i] < 128
  }

  lemma {:induction false} BelowAll(cps: seq<nat>)
    ensures AllAscii(cps) ==> Below(cps, 128) == cps
    ensures AllAscii(Below(cps, 128))
    ensures !AllAscii(cps) ==> |Below(cps, 128)| < |cps|
  {
    if cps != [] {
      BelowAll(cps[1..]);
      BelowLength(cps[1..], 128);
      assert forall i :: 0 <= i < |cps| - 1 ==> cps[1..][i] == cps[i + 1];
      assert AllAscii(cps) <==> cps[0] < 128 && AllAscii(cps[1..]);
    }
  }

  /** A letter from 'a' to 'z' or a digit from '0' to '9'. */
  predicate Alnum(c: nat) {
    97 <= c <= 122 || 48 <= c <= 57
  }

  /** The text of a converted label: "xn--", the ASCII code points with a "-" behind them if there
      are any, and lower-case letters and digits. */
  ghost predicate Prefixed(out: seq<nat>, basic: seq<nat>) {
    exists tail :: out == [120, 110, 45, 45] + basic + (if basic == [] then [] else [45]) + tail && AllAlnum(tail)
  }

  predicate AllAlnum(s: seq<nat>) {
    forall i :: 0 <= i < |s| ==> Alnum(s[i])
  }

  /** The form of a label: an ASCII label stays as it is, any other gets the prefixed form of its
      ASCII code points. */
  lemma {:induction false} LabelForm(cps: seq<nat>)
    requires Points(cps) && LabelOf(cps).Ascii?
    ensures if AllAscii(cps) then LabelOf(cps).out == cps else Prefixed(LabelOf(cps).out, Below(cps, 128))
    ensures AllAscii(LabelOf(cps).out)
  {
    BelowAll(cps);
    if !AllAscii(cps) {
      EncodeDigits(cps);
      LettersAlnum(Encode(cps).ds);
      hide Encode, Below, Letters;
      PrefixedAscii(Below(cps, 128), Letters(Encode(cps).ds));
    }
  }

  lemma {:induction false} LettersAlnum(ds: seq<nat>)
    requires forall i :: 0 <= i < |ds| ==> ds[i] < 36
    ensures AllAlnum(Letters(ds))
  {
  }

  lemma {:induction false} PrefixedAscii(basic: seq<nat>, tail: seq<nat>)
    requires AllAscii(basic) && AllAlnum(tail)
    ensures var out := [120, 110, 45, 45] + basic + (if basic == [] then [] else [45]) + tail;
      AllAscii(out) && Prefixed(out, basic)
  {
  }

  predicate Stop(c: nat) {
    c == 0x2E || c == 0x3002 || c == 0xFF0E || c == 0xFF61
  }

  /** A label, one of the four stops, and any rest: the label is converted, the stop becomes '.',
      and the rest is converted; the first error decides. */
  lemma {:induction false} NameSplits(a: seq<nat>, c: nat, rest: seq<nat>, whole: bool)
    requires Points(a + [c] + rest) && Stop(c) && forall i :: 0 <= i < |a| ==> !Stop(a[i])
    ensures Points(a) && Points(rest)
    ensures Convert(a + [c] + rest, whole) ==
      match Convert(a, true)
      case Error(code) => Error(code)
      case Ascii(out) =>
        match Convert(rest, whole)
        case Error(code) => Error(code)
        case Ascii(more) => Ascii(out + [46] + more)
  {
    var cps := a + [c] + rest;
    assert forall i :: 0 <= i < |a| ==> cps[i] == a[i];
    assert forall i :: 0 <= i < |rest| ==> cps[|a| + 1 + i] == rest[i];
    assert cps[|a|] == c && cps[0..|a|] == a && cps[|a| + 1..] == rest && cps[0..] == cps && a[0..] == a;
    ConvertAt(cps, 0, |a|, whole);
    ConvertLast(a, 0, true);
    assert LabelOf([]) == Ascii([]);
    hide LabelOf, Convert;
  }

  /** A name without stop is one label. */
  lemma {:induction false} OneLabel(a: seq<nat>)
    requires Points(a) && forall i :: 0 <= i < |a| ==> !Stop(a[i])
    ensures Convert(a, true) == LabelOf(a)
  {
    assert a[0..] == a;
    ConvertLast(a, 0, true);
    assert LabelOf([]) == Ascii([]);
  }

  lemma {:induction false} FirstStop(cps: seq<nat>) returns (i: nat)
    ensures i <= |cps| && (forall k :: 0 <= k < i ==> !Stop(cps[k])) && (i < |cps| ==> Stop(cps[i]))
  {
    i := FirstSeparator(cps);
  }

  /** A name of ASCII characters is left unchanged. */
  lemma {:induction false} AsciiUnchanged(cps: seq<nat>)
    requires AllAscii(cps)
    ensures Points(cps) && Convert(cps, true) == Ascii(cps)
    decreases |cps|
  {
    var i := FirstStop(cps);
    var a := cps[..i];
    assert Points(cps) && Points(a) && AllAscii(a);
    hide LabelOf, Convert, Points;
    LabelAscii(a);
    OneLabel(a);
    if i < |cps| {
      var rest := cps[i + 1..];
      assert cps == a + [cps[i]] + rest;
      AsciiUnchanged(rest);
      NameSplits(a, cps[i], rest, true);
    } else {
      assert a == cps;
    }
  }

  lemma {:induction false} LabelAscii(a: seq<nat>)
    requires Points(a) && AllAscii(a)
    ensures LabelOf(a) == Ascii(a)
  {
    BelowAll(a);
  }

  /** Whatever is converted, the result is ASCII. */
  lemma {:induction false} ResultIsAscii(cps: seq<nat>, whole: bool)
    requires Points(cps) && Convert(cps, whole).Ascii?
    ensures AllAscii(Convert(cps, whole).out)
    decreases |cps|
  {
    hide LabelOf, AllAscii, Points, FirstSeparator;
    AsciiCat([], []);
    if cps != [] {
      var i := FirstSeparator(cps);
      PointsCut(cps, i);
      if i < |cps| {
        LabelForm(cps[..i]);
        ResultIsAscii(cps[i + 1..], whole);
        AsciiCat(LabelOf(cps[..i]).out, Convert(cps[i + 1..], whole).out);
      } else if whole {
        LabelForm(cps[..i]);
      }
    }
  }

  lemma {:induction false} PointsCut(cps: seq<nat>, i: nat)
    requires Points(cps) && i <= |cps|
    ensures Points(cps[..i]) && (i < |cps| ==> Points(cps[i + 1..]))
  {
  }

  lemma {:induction false} AsciiCat(a: seq<nat>, b: seq<nat>)
    requires AllAscii(a) && AllAscii(b)
    ensures AllAscii(a + [46] + b) && AllAscii([])
  {
  }

  /** The bytes of an ASCII name are converted to themselves. */
  lemma {:induction false} AsciiName(s: seq<Byte>)
    requires forall i :: 0 <= i < |s| ==> s[i] < 128
    ensures DecodeAll(s) == Text(s) && Readable(s) == s && Points(s) && Convert(s, true) == Ascii(s)
  {
    AsciiRead(s);
    AsciiUnchanged(s);
  }

  lemma {:induction false} AsciiRead(s: seq<Byte>)
    requires forall i :: 0 <= i < |s| ==> s[i] < 128
    ensures Readable(s) == s && DecodeAll(s) == Text(s)
  {
    if s != [] {
      AsciiRead(s[1..]);
    }
  }
}
