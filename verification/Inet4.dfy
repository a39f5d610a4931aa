/** inet_ntop4 and inet_pton4. */
module Inet4 {
  type byte = x: nat | x < 256

  datatype Result<T> = Ok(value: T) | Einval | Enospc

  const DIGITS := "0123456789abcdef"

  /** %u for one octet. */
  function Dec(n: byte): string {
    if n >= 100 then [DIGITS[n / 100], DIGITS[n / 10 % 10], DIGITS[n % 10]]
    else if n >= 10 then [DIGITS[n / 10], DIGITS[n % 10]]
    else [DIGITS[n]]
  }

  /** The dotted form. */
  function Dotted(b: seq<byte>): string {
    if b == [] then "" else if |b| == 1 then Dec(b[0]) else Dotted(b[..|b| - 1]) + "." + Dec(b[|b| - 1])
  }

  /** inet_ntop4; `dst` is the string that it writes. */
  method Ntop4(src: seq<byte>, size: nat) returns (err: bool, dst: string)
    requires |src| == 4
    ensures err <==> |Dotted(src)| >= size
    ensures !err ==> dst == Dotted(src)
  {
    var tmp := Dec(src[0]) + "." + Dec(src[1]) + "." + Dec(src[2]) + "." + Dec(src[3]);
    DottedFour(src);
    if |tmp| >= size {
      return true, "";
    }
    return false, tmp;
  }

  lemma {:induction false} DottedFour(b: seq<byte>)
    requires |b| == 4
    ensures Dotted(b) == Dec(b[0]) + "." + Dec(b[1]) + "." + Dec(b[2]) + "." + Dec(b[3])
  {
    var c := b[..3];
    var d := c[..2];
    assert d[..1] == [b[0]];
    assert Dotted(d) == Dec(b[0]) + "." + Dec(b[1]);
    assert Dotted(c) == Dotted(d) + "." + Dec(b[2]);
  }

  // ---------- the scanner ----------

  function DecVal(ch: char): int {
    if '0' <= ch <= '9' then ch as int - '0' as int else -1
  }

  /** The octets begun so far, the last one included, and whether it has a digit. */
  datatype Scan = Scan(octets: seq<byte>, sawDigit: bool) | Reject

  function Step(s: Scan, ch: char): Scan {
    if s.Reject? then Reject
    else
      var d := DecVal(ch);
      if d >= 0 then
        if !s.sawDigit then (if |s.octets| < 4 then Scan(s.octets + [d], true) else Reject)
        else if s.octets == [] then Reject
        else
          var n := |s.octets| - 1;
          if s.octets[n] == 0 || s.octets[n] * 10 + d > 255 then Reject
          else Scan(s.octets[n := s.octets[n] * 10 + d], true)
      else if ch == '.' && s.sawDigit && |s.octets| < 4 then Scan(s.octets, false)
      else Reject
  }

  function Steps(s: Scan, text: string): Scan
    decreases |text|
  {
    if text == "" then s else Steps(Step(s, text[0]), text[1..])
  }

  /** What inet_pton4 makes of a string. */
  function Parse4(text: string): Result<seq<byte>> {
    var s := Steps(Scan([], false), text);
    if s.Reject? || |s.octets| < 4 then Einval else Ok(s.octets)
  }

  lemma {:induction false} StepsCat(s: Scan, a: string, b: string)
    ensures Steps(s, a + b) == Steps(Steps(s, a), b)
    decreases |a|
  {
    if a == "" {
      assert a + b == b;
    } else {
      assert (a + b)[0] == a[0] && (a + b)[1..] == a[1..] + b;
      StepsCat(Step(s, a[0]), a[1..], b);
    }
  }

  lemma {:induction false} StepsOne(s: Scan, ch: char)
    ensures Steps(s, [ch]) == Step(s, ch)
  {
    var t := [ch];
    assert t[1..] == "" && Steps(s, t) == Steps(Step(s, t[0]), t[1..]);
  }

  // Once rejected, always rejected.
  lemma {:induction false} StepsReject(text: string)
    ensures Steps(Reject, text) == Reject
    decreases |text|
  {
    if text != "" {
      StepsReject(text[1..]);
    }
  }

  // The scan of the whole string, one character on.
  lemma {:induction false} StepsAt(text: string, i: nat)
    requires i < |text|
    ensures Steps(Scan([], false), text[..i + 1]) == Step(Steps(Scan([], false), text[..i]), text[i])
    ensures Step(Steps(Scan([], false), text[..i]), text[i]) == Reject ==> Parse4(text) == Einval
  {
    var s0 := Scan([], false);
    assert text[..i + 1] == text[..i] + [text[i]];
    StepsCat(s0, text[..i], [text[i]]);
    StepsOne(Steps(s0, text[..i]), text[i]);
    assert text[..i + 1] + text[i + 1..] == text;
    StepsCat(s0, text[..i + 1], text[i + 1..]);
    StepsReject(text[i + 1..]);
  }

  /** inet_pton4 */
  method Pton4(src: string) returns (r: Result<seq<byte>>)
    ensures r == Parse4(src)
  {
    var sawDigit, octets, tmp := false, 0, new byte[4];
    var tp := 0;
    tmp[0] := 0;
    var i := 0;
    while i < |src|
      invariant i <= |src| && octets <= 4 && tp < 4
      invariant tp == (if sawDigit then octets - 1 else octets)
      invariant !sawDigit ==> tmp[tp] == 0
      invariant Steps(Scan([], false), src[..i]) == Scan(tmp[..octets], sawDigit)
    {
      hide Steps;
      StepsAt(src, i);
      var ch := src[i];
      i := i + 1;
      if DecVal(ch) >= 0 {
        var nw: nat := tmp[tp] * 10 + DecVal(ch);
        if sawDigit && tmp[tp] == 0 {
          return Einval;
        }
        if nw > 255 {
          return Einval;
        }
        ghost var before := tmp[..octets];
        var octet: byte := nw;
        tmp[tp] := octet;
        if !sawDigit {
          octets := octets + 1;
          if octets > 4 {
            return Einval;
          }
          sawDigit := true;
          assert tmp[..octets] == before + [octet];
        } else {
          assert tmp[..octets] == before[tp := octet];
        }
      } else if ch == '.' && sawDigit {
        if octets == 4 {
          return Einval;
        }
        tp := tp + 1;
        ghost var before := tmp[..octets];
        tmp[tp] := 0;
        sawDigit := false;
        assert tmp[..octets] == before;
      } else {
        return Einval;
      }
    }
    assert src[..i] == src;
    if octets < 4 {
      return Einval;
    }
    r := Ok(tmp[..]);
    assert tmp[..] == tmp[..octets];
  }

  // ---------- the two are inverse ----------

  /** What has been read: complete octets, then the last one or a dot. */
  function Read(s: Scan): string
    requires s.Scan?
  {
    if s.octets == [] then "" else if s.sawDigit then Dotted(s.octets) else Dotted(s.octets) + "."
  }

  predicate ScanOk(s: Scan) {
    s.Scan? && |s.octets| <= 4 && (s.octets == [] ==> !s.sawDigit) && (!s.sawDigit ==> |s.octets| < 4)
  }

  lemma {:induction false} DecStep(n: byte, d: nat)
    requires 0 < n && d < 10 && n * 10 + d <= 255
    ensures Dec(n * 10 + d) == Dec(n) + [DIGITS[d]]
  {
    TenTimes(n, d, n * 10 + d);
    hide Dec;
    if n < 10 {
      DecStepOne(n, d, n * 10 + d);
    } else {
      DecStepTwo(n, d, n * 10 + d);
    }
  }

  lemma {:induction false} DecStepOne(n: byte, d: nat, k: byte)
    requires n < 10 && d < 10 && 10 <= k < 100 && k / 10 == n && k % 10 == d
    ensures Dec(k) == Dec(n) + [DIGITS[d]]
  {
    DecCases(n);
    DecCases(k);
    hide Dec;
  }

  lemma {:induction false} DecStepTwo(n: byte, d: nat, k: byte)
    requires 10 <= n < 100 && d < 10 && k >= 100 && k / 100 == n / 10 && k / 10 % 10 == n % 10 && k % 10 == d
    ensures Dec(k) == Dec(n) + [DIGITS[d]]
  {
    DecCases(n);
    DecCases(k);
    hide Dec;
  }

  lemma {:induction false} DecCases(n: byte)
    ensures n < 10 ==> Dec(n) == [DIGITS[n]]
    ensures 10 <= n < 100 ==> Dec(n) == [DIGITS[n / 10], DIGITS[n % 10]]
    ensures n >= 100 ==> Dec(n) == [DIGITS[n / 100], DIGITS[n / 10 % 10], DIGITS[n % 10]]
  {
  }

  lemma {:induction false} TenTimes(n: nat, d: nat, k: nat)
    requires n <= 25 && d < 10 && k == n * 10 + d
    ensures k / 10 == n && k / 10 % 10 == n % 10 && k % 10 == d && k / 100 == n / 10
    ensures n < 10 ==> k < 100
    ensures n >= 10 ==> k >= 100 && n < 100
  {
  }

  // The part of `Dotted` before the last octet.
  function Front(b: seq<byte>): string
    requires b != []
  {
    if |b| == 1 then "" else Dotted(b[..|b| - 1]) + "."
  }

  lemma {:induction false} DottedLast(b: seq<byte>, x: byte)
    requires b != []
    ensures Dotted(b) == Front(b) + Dec(b[|b| - 1])
    ensures Front(b[|b| - 1 := x]) == Front(b)
  {
    assert b[|b| - 1 := x][..|b| - 1] == b[..|b| - 1];
  }

  lemma {:induction false} DottedSnoc(b: seq<byte>, x: byte)
    ensures Dotted(b + [x]) == (if b == [] then "" else Dotted(b) + ".") + Dec(x)
  {
    assert (b + [x])[..|b|] == b;
  }

  lemma {:induction false} DecVals(ch: char)
    requires DecVal(ch) >= 0
    ensures DecVal(ch) < 10 && DIGITS[DecVal(ch)] == ch
  {
  }

  lemma {:induction false} StepRead(s: Scan, ch: char)
    requires ScanOk(s) && Step(s, ch).Scan?
    ensures ScanOk(Step(s, ch)) && Read(Step(s, ch)) == Read(s) + [ch]
  {
    if DecVal(ch) >= 0 {
      DecVals(ch);
      if s.sawDigit {
        NextDigit(s, ch);
      } else {
        FirstDigit(s, ch);
      }
    }
  }

  lemma {:induction false} NextDigit(s: Scan, ch: char)
    requires ScanOk(s) && s.sawDigit && DecVal(ch) >= 0 && DIGITS[DecVal(ch)] == ch && Step(s, ch).Scan?
    ensures ScanOk(Step(s, ch)) && Read(Step(s, ch)) == Read(s) + [ch]
  {
    var d, n := DecVal(ch), |s.octets| - 1;
    var x := s.octets[n];
    DottedLast(s.octets, x * 10 + d);
    DottedLast(s.octets[n := x * 10 + d], 0);
    hide Dec, Dotted, Front;
    DecStep(x, d);
    assert Front(s.octets) + (Dec(x) + [ch]) == Front(s.octets) + Dec(x) + [ch];
  }

  lemma {:induction false} FirstDigit(s: Scan, ch: char)
    requires ScanOk(s) && !s.sawDigit && DecVal(ch) >= 0 && DIGITS[DecVal(ch)] == ch && Step(s, ch).Scan?
    ensures ScanOk(Step(s, ch)) && Read(Step(s, ch)) == Read(s) + [ch]
  {
    var d := DecVal(ch);
    DottedSnoc(s.octets, d);
    assert Dec(d) == [ch];
    hide Dec, Dotted;
  }

  lemma {:induction false} StepsRead(s: Scan, text: string)
    requires ScanOk(s) && Steps(s, text).Scan?
    ensures ScanOk(Steps(s, text)) && Read(Steps(s, text)) == Read(s) + text
    decreases |text|
  {
    if text == "" {
      assert Read(s) + text == Read(s);
    } else {
      if Step(s, text[0]).Reject? {
        StepsReject(text[1..]);
      } else {
        StepRead(s, text[0]);
        StepsRead(Step(s, text[0]), text[1..]);
        assert Read(s) + [text[0]] + text[1..] == Read(s) + text;
      }
    }
  }

  /** inet_pton4 accepts nothing but what inet_ntop4 prints, and reads it as what was printed. */
  lemma {:induction false} Parse4Sound(text: string)
    requires Parse4(text).Ok?
    ensures |Parse4(text).value| == 4 && Dotted(Parse4(text).value) == text
  {
    var s := Steps(Scan([], false), text);
    StepsRead(Scan([], false), text);
    assert s.sawDigit;
    assert "" + text == text;
  }

  // An octet is read digit by digit.
  lemma {:induction false} StepsDec(s: Scan, n: byte)
    requires ScanOk(s) && !s.sawDigit
    ensures Steps(s, Dec(n)) == Scan(s.octets + [n], true)
  {
    var t, u := n / 10, n % 10;
    assert n == t * 10 + u && t < 26;
    if n >= 100 {
      assert n / 100 == t / 10 && t == t / 10 * 10 + t % 10;
      StepsDec3(s, t / 10, t % 10, u);
    } else if n >= 10 {
      StepsDec2(s, t, u);
    } else {
      StepsOne(s, DIGITS[n]);
      StepDigit(s, n);
    }
  }

  lemma {:induction false} StepsDec2(s: Scan, t: nat, u: nat)
    requires ScanOk(s) && !s.sawDigit && 0 < t < 10 && u < 10
    ensures Steps(s, [DIGITS[t], DIGITS[u]]) == Scan(s.octets + [t * 10 + u], true)
  {
    hide Steps, Step;
    StepsTwo(s, DIGITS[t], DIGITS[u]);
    StepDigit(s, t);
    StepMore(Scan(s.octets + [t], true), t, u);
    assert (s.octets + [t])[|s.octets| := t * 10 + u] == s.octets + [t * 10 + u];
  }

  lemma {:induction false} StepsDec3(s: Scan, h: nat, t: nat, u: nat)
    requires ScanOk(s) && !s.sawDigit && 0 < h < 10 && t < 10 && u < 10 && h * 100 + t * 10 + u <= 255
    ensures Steps(s, [DIGITS[h], DIGITS[t], DIGITS[u]]) == Scan(s.octets + [h * 100 + t * 10 + u], true)
  {
    hide Steps, Step;
    StepsDec2(s, h, t);
    StepsTwo(s, DIGITS[h], DIGITS[t]);
    StepsThree(s, DIGITS[h], DIGITS[t], DIGITS[u]);
    var s2, n := Scan(s.octets + [h * 10 + t], true), h * 100 + t * 10 + u;
    StepMore(s2, h * 10 + t, u);
    assert s2.octets[|s.octets| := n] == s.octets + [n];
  }

  lemma {:induction false} StepDigit(s: Scan, d: nat)
    requires ScanOk(s) && !s.sawDigit && d < 10
    ensures Step(s, DIGITS[d]) == Scan(s.octets + [d], true)
  {
  }

  lemma {:induction false} StepMore(s: Scan, n: byte, d: nat)
    requires s.Scan? && s.sawDigit && s.octets != [] && s.octets[|s.octets| - 1] == n
    requires n > 0 && d < 10 && n * 10 + d <= 255
    ensures Step(s, DIGITS[d]) == Scan(s.octets[|s.octets| - 1 := n * 10 + d], true)
  {
  }

  lemma {:induction false} StepsTwo(s: Scan, a: char, b: char)
    ensures Steps(s, [a, b]) == Step(Step(s, a), b)
  {
    assert [a, b] == [a] + [b];
    StepsCat(s, [a], [b]);
    StepsOne(s, a);
    StepsOne(Step(s, a), b);
  }

  lemma {:induction false} StepsThree(s: Scan, a: char, b: char, c: char)
    ensures Steps(s, [a, b, c]) == Step(Step(Step(s, a), b), c)
  {
    assert [a, b, c] == [a, b] + [c];
    StepsCat(s, [a, b], [c]);
    StepsTwo(s, a, b);
    StepsOne(Step(Step(s, a), b), c);
  }

  lemma {:induction false} StepsDotted(b: seq<byte>)
    requires 0 < |b| <= 4
    ensures Steps(Scan([], false), Dotted(b)) == Scan(b, true)
  {
    var n := |b| - 1;
    if n == 0 {
      StepsDec(Scan([], false), b[0]);
      assert [] + [b[0]] == b;
    } else {
      StepsDotted(b[..n]);
      StepsCat(Scan([], false), Dotted(b[..n]) + ".", Dec(b[n]));
      StepsCat(Scan([], false), Dotted(b[..n]), ".");
      StepsOne(Scan(b[..n], true), '.');
      StepsDec(Scan(b[..n], false), b[n]);
      assert b[..n] + [b[n]] == b;
    }
  }

  /** Whatever inet_ntop4 prints is read back. */
  lemma {:induction false} RoundTrip4(b: seq<byte>)
    requires |b| == 4
    ensures Parse4(Dotted(b)) == Ok(b)
  {
    StepsDotted(b);
  }
}
