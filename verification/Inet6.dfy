/** inet_ntop6: the text of an IPv6 address (section 4 of RFC 5952). */
module Inet6 {
  import opened Inet4

  type word = x: nat | x < 0x1_0000

  /** %x for one word. */
  function Hex(v: word): string {
    if v >= 0x1000 then [DIGITS[v / 0x1000], DIGITS[v / 0x100 % 16], DIGITS[v / 16 % 16], DIGITS[v % 16]]
    else if v >= 0x100 then [DIGITS[v / 0x100], DIGITS[v / 16 % 16], DIGITS[v % 16]]
    else if v >= 16 then [DIGITS[v / 16], DIGITS[v % 16]]
    else [DIGITS[v]]
  }

  /** The words in hexadecimal, with colons between them. */
  function Join(ws: seq<word>): string {
    if ws == [] then "" else if |ws| == 1 then Hex(ws[0]) else Hex(ws[0]) + ":" + Join(ws[1..])
  }

  lemma {:induction false} JoinSnoc(ws: seq<word>, x: word)
    ensures Join(ws + [x]) == if ws == [] then Hex(x) else Join(ws) + ":" + Hex(x)
  {
    if |ws| == 1 {
      assert (ws + [x])[1..] == [x];
    } else if |ws| > 1 {
      JoinSnoc(ws[1..], x);
      assert (ws + [x])[1..] == ws[1..] + [x];
      assert Hex(ws[0]) + ":" + (Join(ws[1..]) + ":" + Hex(x)) == Hex(ws[0]) + ":" + Join(ws[1..]) + ":" + Hex(x);
    }
  }

  function Word(hi: nat, lo: nat): nat {
    hi * 0x100 + lo
  }

  /** The words of an address, high byte first. */
  ghost predicate WordsOf(w: seq<word>, b: seq<byte>) {
    |b| == 2 * |w| && forall i :: 0 <= i < |w| ==> w[i] == Word(b[2 * i], b[2 * i + 1])
  }

  // ---------- the run of zeros ----------

  predicate Zeros(w: seq<word>, i: int, j: int) {
    0 <= i <= j <= |w| && forall k :: i <= k < j ==> w[k] == 0
  }

  /** No run of zeros that ends at `n` or before is longer than `len`, and none as long
      starts before `base`. */
  ghost predicate Longest(w: seq<word>, n: int, base: int, len: int) {
    forall i, j :: Zeros(w, i, j) && i < j <= n ==> j - i < len || (j - i == len && base <= i)
  }

  /** What "::" stands for: the leftmost longest run of at least two zeros; -1 if there is none. */
  ghost predicate IsBest(w: seq<word>, base: int, len: int) {
    if base == -1 then forall i, j :: Zeros(w, i, j) ==> j - i < 2
    else len >= 2 && Zeros(w, base, base + len) && Longest(w, |w|, base, len)
  }

  /** The first loops of inet_ntop6. */
  method FindRun(words: seq<word>) returns (base: int, len: int)
    ensures IsBest(words, base, len)
    ensures base >= -1 && (base >= 0 ==> base + len <= |words|)
  {
    base, len := -1, 0;
    var curBase, curLen := -1, 0;
    var i := 0;
    while i < |words|
      invariant i <= |words|
      invariant Scanned(words, i, base, len, curBase, curLen)
    {
      ScanStep(words, i, base, len, curBase, curLen);
      if words[i] == 0 {
        if curBase == -1 {
          curBase, curLen := i, 1;
        } else {
          curLen := curLen + 1;
        }
      } else {
        if curBase != -1 {
          if base == -1 || curLen > len {
            base, len := curBase, curLen;
          }
          curBase := -1;
        }
      }
      i := i + 1;
    }
    ScanEnd(words, base, len, curBase, curLen);
    if curBase != -1 {
      if base == -1 || curLen > len {
        base, len := curBase, curLen;
      }
    }
    if base != -1 && len < 2 {
      base := -1;
    }
  }

  /** Before word `i`: the run that may go on, and the best of the runs that have ended. */
  ghost predicate Scanned(w: seq<word>, i: int, base: int, len: int, curBase: int, curLen: int) {
    && 0 <= i <= |w| && curBase >= -1
    && (if curBase == -1 then i == 0 || w[i - 1] != 0
        else curLen > 0 && curBase + curLen == i && Zeros(w, curBase, i) && (curBase == 0 || w[curBase - 1] != 0))
    && (if base == -1 then len == 0 else len > 0 && base + len <= i && Zeros(w, base, base + len))
    && base >= -1 && (base >= 0 && curBase >= 0 ==> base < curBase)
    && Longest(w, if curBase == -1 then i else curBase, base, len)
  }

  // A run that does not end before the current one is part of it.
  lemma {:induction false} RunInside(w: seq<word>, n: int, curBase: int, i: int, j: int)
    requires 0 <= curBase < n <= |w| && Zeros(w, curBase, n) && (curBase == 0 || w[curBase - 1] != 0)
    requires Zeros(w, i, j) && i < j <= n && j > curBase
    ensures i >= curBase
  {
  }

  lemma {:induction false} LongestTaken(w: seq<word>, n: int, base: int, len: int, curBase: int)
    requires 0 <= curBase < n <= |w| && Zeros(w, curBase, n) && (curBase == 0 || w[curBase - 1] != 0)
    requires Longest(w, curBase, base, len) && base >= -1 && (base == -1 ==> len == 0)
    requires base >= 0 ==> len > 0 && base < curBase
    ensures if base == -1 || n - curBase > len then Longest(w, n, curBase, n - curBase) else Longest(w, n, base, len)
  {
    forall i, j | Zeros(w, i, j) && i < j <= n && j > curBase
      ensures i >= curBase
    {
      RunInside(w, n, curBase, i, j);
    }
  }

  datatype Run = Run(base: int, len: int)

  /** `if (best.base == -1 || cur.len > best.len) best = cur` */
  function Better(best: Run, cur: Run): Run {
    if best.base == -1 || cur.len > best.len then cur else best
  }

  lemma {:induction false} ScanStep(w: seq<word>, i: int, base: int, len: int, curBase: int, curLen: int)
    requires Scanned(w, i, base, len, curBase, curLen) && i < |w|
    ensures w[i] == 0 ==> if curBase == -1 then Scanned(w, i + 1, base, len, i, 1) else Scanned(w, i + 1, base, len, curBase, curLen + 1)
    ensures w[i] != 0 ==>
      var best := if curBase == -1 then Run(base, len) else Better(Run(base, len), Run(curBase, curLen));
      Scanned(w, i + 1, best.base, best.len, -1, curLen)
  {
    if w[i] != 0 && curBase != -1 {
      LongestTaken(w, i, base, len, curBase);
    }
  }

  lemma {:induction false} ScanEnd(w: seq<word>, base: int, len: int, curBase: int, curLen: int)
    requires Scanned(w, |w|, base, len, curBase, curLen)
    ensures var best := if curBase == -1 then Run(base, len) else Better(Run(base, len), Run(curBase, curLen));
      && best.base >= -1 && (best.base >= 0 ==> best.len > 0 && Zeros(w, best.base, best.base + best.len))
      && IsBest(w, if best.len < 2 then -1 else best.base, best.len)
  {
    if curBase != -1 {
      LongestTaken(w, |w|, base, len, curBase);
    }
  }

  // ---------- the text ----------

  /** An encapsulated IPv4 address; a run of seven words does not get here. */
  predicate IsV4(w: seq<word>, base: int, len: int)
    requires |w| == 8
  {
    base == 0 && (len == 6 || (len == 5 && w[5] == 0xffff))
  }

  /** The text of an address whose best run is `base`, `len`. */
  function Text6(w: seq<word>, base: int, len: int, b: seq<byte>): string
    requires |w| == 8 && |b| == 16 && (base == -1 || (0 <= base && 0 <= len && base + len <= 8))
  {
    if base == -1 then Join(w)
    else if IsV4(w, base, len) then "::" + (if len == 5 then "ffff:" else "") + Dotted(b[12..])
    else Join(w[..base]) + "::" + Join(w[base + len..])
  }

  /** What the second loop of inet_ntop6 has written before word `i`. */
  function Shown(w: seq<word>, base: int, len: int, i: nat): string
    requires |w| == 8 && i <= 8 && (base == -1 || (0 <= base && 2 <= len && base + len <= 8))
  {
    if base == -1 || i <= base then Join(w[..i])
    else if i <= base + len then Join(w[..base]) + ":"
    else Join(w[..base]) + "::" + Join(w[base + len..i])
  }

  lemma {:induction false} JoinNone()
    ensures Join([]) == ""
  {
  }

  lemma {:induction false} ShownStep(w: seq<word>, base: int, len: int, i: nat)
    requires |w| == 8 && i < 8 && (base == -1 || (0 <= base && 2 <= len && base + len <= 8))
    ensures var inside := base != -1 && base <= i < base + len;
      Shown(w, base, len, i + 1) ==
        if inside then (if i == base then Shown(w, base, len, i) + ":" else Shown(w, base, len, i))
        else Shown(w, base, len, i) + (if i != 0 then ":" else "") + Hex(w[i])
  {
    hide Hex, Join;
    JoinNone();
    assert w[..0] == [];
    if base == -1 || i < base {
      assert w[..i + 1] == w[..i] + [w[i]];
      JoinSnoc(w[..i], w[i]);
    } else if i >= base + len {
      assert w[base + len..i + 1] == w[base + len..i] + [w[i]];
      JoinSnoc(w[base + len..i], w[i]);
      if i == base + len {
        assert w[base + len..i] == [];
      }
    }
  }

  lemma {:induction false} ShownStart(w: seq<word>, base: int, len: int)
    requires |w| == 8 && (base == -1 || (0 <= base && 2 <= len && base + len <= 8))
    ensures Shown(w, base, len, 0) == ""
  {
  }

  lemma {:induction false} ShownEnd(w: seq<word>, base: int, len: int, b: seq<byte>)
    requires |w| == 8 && |b| == 16 && (base == -1 || (0 <= base && 2 <= len && base + len <= 8))
    requires base == -1 || !IsV4(w, base, len)
    ensures Text6(w, base, len, b) == Shown(w, base, len, 8) + if base != -1 && base + len == 8 then ":" else ""
  {
    assert w[..8] == w;
    if base != -1 {
      assert base + len < 8 ==> w[base + len..8] == w[base + len..];
      assert base + len == 8 ==> w[base + len..] == [];
    }
  }

  lemma {:induction false} ShownSix(w: seq<word>, base: int, len: int)
    requires |w| == 8 && IsV4(w, base, len)
    ensures Shown(w, base, len, 6) == ":" + if len == 5 then ":ffff" else ""
  {
    assert w[..0] == [];
    if len == 5 {
      assert w[5..6] == [w[5]];
      assert Hex(0xffff) == "ffff";
    }
  }

  lemma {:induction false} DottedShort(b: seq<byte>)
    requires |b| == 4
    ensures |Dotted(b)| <= 15
  {
    DottedFour(b);
  }

  lemma {:induction false} ShownV4(w: seq<word>, base: int, len: int, b: seq<byte>)
    requires |w| == 8 && |b| == 16 && base == 0 && IsV4(w, base, len)
    ensures Text6(w, base, len, b) == Shown(w, base, len, 6) + ":" + Dotted(b[12..])
    ensures |Shown(w, base, len, 6)| <= 6 && |Dotted(b[12..])| <= 15
  {
    ShownSix(w, base, len);
    DottedShort(b[12..]);
    hide Dotted, Shown, Join;
    assert ":" + "" + ":" + Dotted(b[12..]) == "::" + "" + Dotted(b[12..]);
    assert ":" + ":ffff" + ":" + Dotted(b[12..]) == "::" + "ffff:" + Dotted(b[12..]);
  }

  /** The text of an address, with "::" for its best run. */
  ghost predicate IsText(b: seq<byte>, text: string) {
    |b| == 16 && exists w: seq<word>, base: int, len: int {:trigger Prints(b, w, base, len, text)} :: Prints(b, w, base, len, text)
  }

  ghost predicate Prints(b: seq<byte>, w: seq<word>, base: int, len: int, text: string)
    requires |b| == 16
  {
    && |w| == 8 && WordsOf(w, b) && IsBest(w, base, len)
    && (base == -1 || (0 <= base && 0 <= len && base + len <= 8))
    && text == Text6(w, base, len, b)
  }

  lemma {:induction false} JoinShort(ws: seq<word>)
    ensures |Join(ws)| <= 5 * |ws| && (ws != [] ==> |Join(ws)| < 5 * |ws|)
  {
    if |ws| > 1 {
      JoinShort(ws[1..]);
    }
  }

  /** A text has at most 39 characters, so with its terminator it never leaves the buffer of
      46 characters that inet_ntop6 fills without checks. */
  lemma {:induction false} TextFits(b: seq<byte>, text: string)
    requires IsText(b, text)
    ensures |text| <= 39
  {
    var w: seq<word>, base: int, len: int :| Prints(b, w, base, len, text);
    if base == -1 {
      JoinShort(w);
    } else if IsV4(w, base, len) {
      ShownV4(w, base, len, b);
      assert Zeros(w, base, base + len);
    } else {
      JoinShort(w[..base]);
      JoinShort(w[base + len..]);
    }
  }

  /** The best run is unique. */
  lemma {:induction false} BestUnique(w: seq<word>, base: int, len: int, base': int, len': int)
    requires IsBest(w, base, len) && IsBest(w, base', len')
    ensures base == base' && (base != -1 ==> len == len')
  {
    if base != -1 {
      assert Zeros(w, base, base + len);
    }
    if base' != -1 {
      assert Zeros(w, base', base' + len');
    }
  }

  /** An address has only one text. */
  lemma {:induction false} TextUnique(b: seq<byte>, text: string, text': string)
    requires IsText(b, text) && IsText(b, text')
    ensures text == text'
  {
    var w: seq<word>, base: int, len: int :| Prints(b, w, base, len, text);
    var w': seq<word>, base': int, len': int :| Prints(b, w', base', len', text');
    assert w == w' by {
      forall i | 0 <= i < 8
        ensures w[i] == w'[i]
      {
        assert w[i] == Word(b[2 * i], b[2 * i + 1]);
      }
    }
    BestUnique(w, base, len, base', len');
  }

  /** inet_ntop6; `dst` is the string that it writes, if it fits with its terminator. */
  method Ntop6(src: seq<byte>, size: nat) returns (err: bool, dst: string)
    requires |src| == 16
    ensures !err ==> IsText(src, dst) && |dst| + 1 <= size
    ensures err ==> dst == "" && exists text: string :: IsText(src, text) && |text| + 1 > size
    ensures size >= 40 ==> !err
  {
    var words := ToWords(src);
    var base, len := FindRun(words);
    var tmp := Format(src, words, base, len);
    assert Prints(src, words, base, len, tmp);
    TextFits(src, tmp);
    assert |tmp| + 1 <= 46;
    if |tmp| + 1 > size {
      return true, "";
    }
    return false, tmp;
  }

  // inet_ntop6: bytes to words.
  method ToWords(src: seq<byte>) returns (words: seq<word>)
    requires |src| == 16
    ensures |words| == 8 && WordsOf(words, src)
  {
    var w := new word[8](_ => 0);
    var i := 0;
    while i < 16
      invariant i <= 16
      invariant forall k :: 0 <= k < 8 && 2 * k + 1 < i ==> w[k] == Word(src[2 * k], src[2 * k + 1])
      invariant forall k :: 0 <= k < 8 && 2 * k + 1 == i ==> w[k] == Word(src[2 * k], 0)
      invariant forall k :: 0 <= k < 8 && 2 * k >= i ==> w[k] == 0
    {
      var b: nat := src[i];
      var v: nat := w[i / 2] + if i % 2 == 0 then b * 0x100 else b;
      assert i == 2 * (i / 2) + i % 2;
      w[i / 2] := v;
      i := i + 1;
    }
    words := w[..];
  }

  // inet_ntop6: the second loop.
  method Format(src: seq<byte>, words: seq<word>, base: int, len: int) returns (tmp: string)
    requires |src| == 16 && |words| == 8 && (base == -1 || (0 <= base && 2 <= len && base + len <= 8))
    ensures tmp == Text6(words, base, len, src)
  {
    hide Shown, Text6, Hex, Dotted;
    ShownStart(words, base, len);
    tmp := "";
    var i := 0;
    while i < 8
      invariant i <= 8 && tmp == Shown(words, base, len, i)
      invariant base == 0 && (len == 6 || (len == 5 && words[5] == 0xffff)) ==> i <= 6
    {
      ShownStep(words, base, len, i);
      if base != -1 && i >= base && i < base + len {
        if i == base {
          tmp := tmp + ":";
        }
      } else {
        if i != 0 {
          tmp := tmp + ":";
        }
        // The case of a run of seven words does not occur here: such a run holds word 6.
        assert !(i == 6 && base == 0 && len == 7);
        if i == 6 && base == 0 && (len == 6 || (len == 5 && words[5] == 0xffff)) {
          ShownV4(words, base, len, src);
          var err, v4 := Ntop4(src[12..], 46 - |tmp|);
          assert !err;
          return tmp + v4;
        }
        tmp := tmp + Hex(words[i]);
      }
      i := i + 1;
    }
    ShownEnd(words, base, len, src);
    if base != -1 && base + len == 8 {
      tmp := tmp + ":";
    }
  }

  // ---------- the characters of the text ----------

  predicate LowerHex(ch: char) {
    '0' <= ch <= '9' || 'a' <= ch <= 'f'
  }

  predicate Mark(ch: char) {
    ch == ':' || ch == '.'
  }

  /** Decimal and lower-case hexadecimal digits, colons and dots; and a zero that begins a
      group is the whole group. */
  ghost predicate Tidy(t: string) {
    forall i :: 0 <= i < |t| ==> TidyAt(t, i)
  }

  predicate TidyAt(t: string, i: nat)
    requires i < |t|
  {
    && (LowerHex(t[i]) || Mark(t[i]))
    && (t[i] == '0' && (i == 0 || Mark(t[i - 1])) ==> i + 1 == |t| || Mark(t[i + 1]))
  }

  lemma {:induction false} TidyCat(a: string, ch: char, b: string)
    requires Tidy(a) && Mark(ch) && Tidy(b)
    ensures Tidy(a + [ch] + b)
  {
    var t, n := a + [ch] + b, |a|;
    forall i | 0 <= i < |t|
      ensures TidyAt(t, i)
    {
      if i < n {
        assert TidyAt(a, i);
      } else if i > n {
        assert TidyAt(b, i - n - 1);
      }
    }
  }

  lemma {:induction false} DigitsTidy(s: string)
    requires s != "" && (forall i :: 0 <= i < |s| ==> LowerHex(s[i])) && (s[0] == '0' ==> |s| == 1)
    ensures Tidy(s)
  {
  }

  lemma {:induction false} HexTidy(v: word)
    ensures Tidy(Hex(v)) && 1 <= |Hex(v)| <= 4
  {
    hide Tidy;
    assert forall d :: 0 <= d < 16 ==> LowerHex(DIGITS[d]) && (DIGITS[d] == '0' ==> d == 0);
    DigitsTidy(Hex(v));
  }

  lemma {:induction false} DecTidy(n: byte)
    ensures Tidy(Dec(n)) && 1 <= |Dec(n)| <= 3
  {
    hide Tidy;
    assert forall d :: 0 <= d < 16 ==> LowerHex(DIGITS[d]) && (DIGITS[d] == '0' ==> d == 0);
    DigitsTidy(Dec(n));
  }

  lemma {:induction false} JoinTidy(ws: seq<word>)
    ensures Tidy(Join(ws))
  {
    hide Hex, Tidy;
    TidyNone();
    if ws != [] {
      HexTidy(ws[0]);
      JoinTidy(ws[1..]);
      TidyCat(Hex(ws[0]), ':', Join(ws[1..]));
    }
  }

  lemma {:induction false} TidyNone()
    ensures Tidy("") && Tidy("ffff")
  {
  }

  lemma {:induction false} DottedTidy(b: seq<byte>)
    ensures Tidy(Dotted(b))
  {
    hide Dec, Tidy;
    TidyNone();
    if b != [] {
      DecTidy(b[|b| - 1]);
      DottedTidy(b[..|b| - 1]);
      TidyCat(Dotted(b[..|b| - 1]), '.', Dec(b[|b| - 1]));
    }
  }

  /** The text of an address has lower-case digits only and no leading zeros. */
  lemma {:induction false} TextTidy(b: seq<byte>, text: string)
    requires IsText(b, text)
    ensures Tidy(text)
  {
    var w: seq<word>, base: int, len: int :| Prints(b, w, base, len, text);
    FormTidy(w, base, len, b);
  }

  lemma {:induction false} FormTidy(w: seq<word>, base: int, len: int, b: seq<byte>)
    requires |w| == 8 && |b| == 16 && (base == -1 || (0 <= base && 0 <= len && base + len <= 8))
    ensures Tidy(Text6(w, base, len, b))
  {
    hide Tidy, Join, Dotted;
    TidyNone();
    if base == -1 {
      JoinTidy(w);
    } else if IsV4(w, base, len) {
      DottedTidy(b[12..]);
      var colon := "" + [':'] + "";
      TidyCat("", ':', "");
      TidyCat("ffff", ':', Dotted(b[12..]));
      TidyCat(colon, ':', "ffff" + [':'] + Dotted(b[12..]));
      TidyCat(colon, ':', Dotted(b[12..]));
      assert "::" + "ffff:" + Dotted(b[12..]) == colon + [':'] + ("ffff" + [':'] + Dotted(b[12..]));
      assert "::" + "" + Dotted(b[12..]) == colon + [':'] + Dotted(b[12..]);
    } else {
      JoinTidy(w[..base]);
      JoinTidy(w[base + len..]);
      TidyCat(Join(w[..base]), ':', "");
      TidyCat(Join(w[..base]) + [':'] + "", ':', Join(w[base + len..]));
      assert Join(w[..base]) + "::" + Join(w[base + len..]) ==
        (Join(w[..base]) + [':'] + "") + [':'] + Join(w[base + len..]);
    }
  }

  /** An IPv4-mapped address ::ffff:a.b.c.d, and an IPv4-compatible one that does not begin
      with more than six zero words. */
  ghost predicate Mapped(b: seq<byte>)
    requires |b| == 16
  {
    (forall i :: 0 <= i < 10 ==> b[i] == 0) && b[10] == 255 && b[11] == 255
  }

  ghost predicate Compatible(b: seq<byte>)
    requires |b| == 16
  {
    (forall i :: 0 <= i < 12 ==> b[i] == 0) && !(b[12] == 0 && b[13] == 0)
  }

  lemma {:induction false} NoDotHex(v: word)
    ensures '.' !in Hex(v)
  {
    assert forall d :: 0 <= d < 16 ==> DIGITS[d] != '.';
  }

  lemma {:induction false} NoDot(ws: seq<word>)
    ensures '.' !in Join(ws)
  {
    hide Hex;
    if ws != [] {
      NoDotHex(ws[0]);
      NoDot(ws[1..]);
    }
  }

  // Which words are zero, read off the bytes.
  lemma {:induction false} WordsZero(w: seq<word>, b: seq<byte>)
    requires |w| == 8 && WordsOf(w, b)
    ensures forall i :: 0 <= i < 8 ==> (w[i] == 0 <==> b[2 * i] == 0 && b[2 * i + 1] == 0)
    ensures w[5] == 0xffff <==> b[10] == 255 && b[11] == 255
  {
    assert w[5] == Word(b[10], b[11]);
  }

  lemma {:induction false} V4Words(w: seq<word>, b: seq<byte>)
    requires |w| == 8 && WordsOf(w, b)
    ensures Mapped(b) <==> Zeros(w, 0, 5) && w[5] == 0xffff
    ensures Compatible(b) <==> Zeros(w, 0, 6) && w[6] != 0
  {
    WordsZero(w, b);
    assert Mapped(b) || Zeros(w, 0, 5) ==> w[0] == 0 && w[1] == 0 && w[2] == 0 && w[3] == 0 && w[4] == 0;
    assert Compatible(b) || Zeros(w, 0, 6) ==> w[0] == 0 && w[1] == 0 && w[2] == 0 && w[3] == 0 && w[4] == 0 && w[5] == 0;
    hide WordsOf;
  }

  lemma {:induction false} V4Best(w: seq<word>, base: int, len: int)
    requires |w| == 8 && IsBest(w, base, len) && (base == -1 || (0 <= base && base + len <= 8))
    ensures Zeros(w, 0, 5) && w[5] != 0 ==> base == 0 && len == 5
    ensures Zeros(w, 0, 6) && w[6] != 0 ==> base == 0 && len == 6
    ensures base == 0 && len == 6 ==> Zeros(w, 0, 6) && w[6] != 0
    ensures base == 0 && len == 5 ==> Zeros(w, 0, 5)
  {
    if base == 0 && len == 6 && w[6] == 0 {
      assert Zeros(w, 0, 7);
    }
  }

  lemma {:induction false} V4Form(w: seq<word>, base: int, len: int, b: seq<byte>)
    requires |w| == 8 && |b| == 16 && IsV4(w, base, len)
    ensures var text := Text6(w, base, len, b);
      '.' in text && text == (if len == 5 then "::ffff:" else "::") + Dotted(b[12..])
  {
    hide Dec, Dotted;
    DottedFour(b[12..]);
    DotIn(Dec(b[12..][0]), Dec(b[12..][1]) + "." + Dec(b[12..][2]) + "." + Dec(b[12..][3]), Dotted(b[12..]));
    assert "::" + "ffff:" == "::ffff:" && "::" + "" == "::";
  }

  lemma {:induction false} DotIn(a: string, b: string, t: string)
    requires t == a + "." + b || t == a + ("." + b)
    ensures '.' in t
  {
    assert t[|a|] == '.';
  }

  lemma {:induction false} OtherForm(w: seq<word>, base: int, len: int, b: seq<byte>)
    requires |w| == 8 && |b| == 16 && (base == -1 || (0 <= base && 0 <= len && base + len <= 8 && !IsV4(w, base, len)))
    ensures '.' !in Text6(w, base, len, b)
  {
    hide Join;
    if base == -1 {
      NoDot(w);
    } else {
      NoDot(w[..base]);
      NoDot(w[base + len..]);
    }
  }

  /** Which addresses are shown with an IPv4 part, and how. */
  lemma {:induction false} V4Exactly(b: seq<byte>, text: string)
    requires IsText(b, text)
    ensures '.' in text <==> Mapped(b) || Compatible(b)
    ensures Mapped(b) ==> text == "::ffff:" + Dotted(b[12..])
    ensures Compatible(b) ==> text == "::" + Dotted(b[12..])
  {
    hide Text6, Dotted, IsBest, WordsOf, Mapped, Compatible, Zeros;
    var w: seq<word>, base: int, len: int :| Prints(b, w, base, len, text);
    V4Words(w, b);
    V4Best(w, base, len);
    if base != -1 && IsV4(w, base, len) {
      V4Form(w, base, len, b);
    } else {
      OtherForm(w, base, len, b);
    }
  }
}
