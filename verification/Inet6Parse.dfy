/** inet_pton6, and the proof that it reads back whatever inet_ntop6 prints. */
module Inet6Parse {
  import opened Inet4
  import opened Inet6

  function HexVal(ch: char): (d: int)
    ensures -1 <= d < 16
  {
    if '0' <= ch <= '9' then ch as int - '0' as int
    else if 'a' <= ch <= 'f' then ch as int - 'a' as int + 10
    else if 'A' <= ch <= 'F' then ch as int - 'A' as int + 10
    else -1
  }

  /** The bytes stored so far, where "::" was seen (-1 for not yet), the digits of the
      current word and its value. */
  datatype Scan6 = Scan6(out: seq<byte>, colon: int, seen: nat, val: nat)

  predicate ScanOk6(s: Scan6) {
    |s.out| <= 16 && -1 <= s.colon <= |s.out| && s.seen <= 4 && s.val < Power(s.seen)
  }

  function Power(n: nat): nat {
    if n == 0 then 1 else if n == 1 then 16 else if n == 2 then 0x100 else if n == 3 then 0x1000 else 0x1_0000
  }

  function Pair(v: nat): seq<byte>
    requires v < 0x1_0000
  {
    [v / 0x100, v % 0x100]
  }

  function ZeroBytes(n: nat): seq<byte> {
    seq(n, _ => 0)
  }

  /** The end of inet_pton6: the run of zeros goes where "::" was. */
  function Close(out: seq<byte>, colon: int): Result<seq<byte>>
    requires |out| <= 16 && -1 <= colon <= |out|
  {
    if |out| == 16 then (if colon == -1 then Ok(out) else Einval)
    else if colon == -1 then Einval
    else Ok(out[..colon] + ZeroBytes(16 - |out|) + out[colon..])
  }

  /** inet_pton6 at the end of the string. */
  function Finish(s: Scan6): Result<seq<byte>>
    requires ScanOk6(s)
  {
    if s.seen == 0 then Close(s.out, s.colon)
    else if |s.out| + 2 > 16 then Einval
    else Close(s.out + Pair(s.val), s.colon)
  }

  /** The loop of inet_pton6 on the rest of the string; `tok` starts at `curtok`. */
  function Go(s: Scan6, rest: string, tok: string): Result<seq<byte>>
    requires ScanOk6(s)
    decreases |rest|
  {
    if rest == "" then Finish(s)
    else
      var ch, rest' := rest[0], rest[1..];
      if HexVal(ch) >= 0 then
        if s.seen == 4 then Einval
        else Go(s.(val := s.val * 16 + HexVal(ch), seen := s.seen + 1), rest', tok)
      else if ch == ':' then
        if s.seen == 0 then
          if s.colon != -1 then Einval else Go(s.(colon := |s.out|), rest', rest')
        else if rest' == "" then Einval
        else if |s.out| + 2 > 16 then Einval
        else Go(Scan6(s.out + Pair(s.val), s.colon, 0, 0), rest', rest')
      else if ch == '.' && |s.out| + 4 <= 16 then
        match Parse4(tok)
        case Ok(b) => if |b| == 4 then Close(s.out + b, s.colon) else Einval
        case _ => Einval
      else Einval
  }

  const START := Scan6([], -1, 0, 0)

  /** What inet_pton6 makes of a string. */
  function Parse6(src: string): Result<seq<byte>> {
    if src != "" && src[0] == ':' then
      if |src| > 1 && src[1] == ':' then Go(START, src[1..], src[1..]) else Einval
    else Go(START, src, src)
  }

  // ---------- reading back ----------

  /** Up to four hexadecimal digits of either case. */
  predicate IsGroup(g: string) {
    |g| <= 4 && forall i :: 0 <= i < |g| ==> HexVal(g[i]) >= 0
  }

  function GroupVal(g: string): (v: nat)
    requires IsGroup(g)
    ensures v < Power(|g|)
  {
    if g == "" then 0 else GroupVal(g[..|g| - 1]) * 16 + HexVal(g[|g| - 1])
  }

  lemma {:induction false} GroupSnoc(g: string, ch: char)
    requires IsGroup(g) && |g| < 4 && HexVal(ch) >= 0
    ensures IsGroup(g + [ch]) && GroupVal(g + [ch]) == GroupVal(g) * 16 + HexVal(ch)
  {
    assert (g + [ch])[..|g|] == g;
  }

  // The digits of a group, after the digits `p` of the same group.
  lemma {:induction false} GoDigits(out: seq<byte>, colon: int, p: string, g: string, rest: string, tok: string)
    requires |out| <= 16 && -1 <= colon <= |out| && IsGroup(p + g)
    ensures IsGroup(p)
    ensures Go(Scan6(out, colon, |p|, GroupVal(p)), g + rest, tok)
         == Go(Scan6(out, colon, |p + g|, GroupVal(p + g)), rest, tok)
    decreases |g|
  {
    assert forall i :: 0 <= i < |p| ==> p[i] == (p + g)[i];
    if g == "" {
      assert p + g == p && g + rest == rest;
    } else {
      assert g[0] == (p + g)[|p|];
      GroupSnoc(p, g[0]);
      assert (p + [g[0]]) + g[1..] == p + g && (g + rest)[1..] == g[1..] + rest;
      GoDigits(out, colon, p + [g[0]], g[1..], rest, tok);
    }
  }

  lemma {:induction false} GoGroup(out: seq<byte>, colon: int, g: string, rest: string, tok: string)
    requires |out| <= 16 && -1 <= colon <= |out| && IsGroup(g)
    ensures Go(Scan6(out, colon, 0, 0), g + rest, tok) == Go(Scan6(out, colon, |g|, GroupVal(g)), rest, tok)
  {
    assert "" + g == g;
    GoDigits(out, colon, "", g, rest, tok);
  }

  lemma {:induction false} HexParts(v: word) returns (a: nat, b: nat, c: nat, d: nat)
    ensures a < 16 && b < 16 && c < 16 && d < 16 && v == ((a * 16 + b) * 16 + c) * 16 + d
    ensures a == v / 0x1000 && b == v / 0x100 % 16 && c == v / 16 % 16 && d == v % 16
    ensures v < 0x1000 ==> a == 0 && b == v / 0x100
    ensures v < 0x100 ==> b == 0 && c == v / 16
    ensures v < 16 ==> c == 0 && d == v
  {
    a, b, c, d := v / 0x1000, v / 0x100 % 16, v / 16 % 16, v % 16;
    assert v / 0x100 / 16 == v / 0x1000 && v / 16 / 16 == v / 0x100;
  }

  lemma {:induction false} DigitVal(d: nat)
    requires d < 16
    ensures HexVal(DIGITS[d]) == d
  {
  }

  // A printed word is a group with its value.
  lemma {:induction false} HexGroup(v: word)
    ensures IsGroup(Hex(v)) && Hex(v) != "" && GroupVal(Hex(v)) == v
  {
    var a, b, c, d := HexParts(v);
    HexCases(v);
    hide HexVal, GroupVal, IsGroup, Hex;
    if v >= 0x1000 {
      FourHex(a, b, c, d);
    } else if v >= 0x100 {
      ThreeHex(b, c, d);
    } else if v >= 16 {
      TwoHex(c, d);
    } else {
      OneHex(d);
    }
  }

  lemma {:induction false} HexCases(v: word)
    ensures v >= 0x1000 ==> Hex(v) == [DIGITS[v / 0x1000], DIGITS[v / 0x100 % 16], DIGITS[v / 16 % 16], DIGITS[v % 16]]
    ensures 0x100 <= v < 0x1000 ==> Hex(v) == [DIGITS[v / 0x100], DIGITS[v / 16 % 16], DIGITS[v % 16]]
    ensures 16 <= v < 0x100 ==> Hex(v) == [DIGITS[v / 16], DIGITS[v % 16]]
    ensures v < 16 ==> Hex(v) == [DIGITS[v]]
  {
  }

  lemma {:induction false} OneHex(d: nat)
    requires d < 16
    ensures IsGroup([DIGITS[d]]) && GroupVal([DIGITS[d]]) == d
  {
    DigitVal(d);
    hide HexVal;
    GroupSnoc([], DIGITS[d]);
    assert [] + [DIGITS[d]] == [DIGITS[d]];
  }

  lemma {:induction false} TwoHex(c: nat, d: nat)
    requires c < 16 && d < 16
    ensures IsGroup([DIGITS[c], DIGITS[d]]) && GroupVal([DIGITS[c], DIGITS[d]]) == c * 16 + d
  {
    OneHex(c);
    DigitVal(d);
    hide HexVal, GroupVal, IsGroup;
    GroupSnoc([DIGITS[c]], DIGITS[d]);
    assert [DIGITS[c]] + [DIGITS[d]] == [DIGITS[c], DIGITS[d]];
  }

  lemma {:induction false} ThreeHex(b: nat, c: nat, d: nat)
    requires b < 16 && c < 16 && d < 16
    ensures IsGroup([DIGITS[b], DIGITS[c], DIGITS[d]])
    ensures GroupVal([DIGITS[b], DIGITS[c], DIGITS[d]]) == (b * 16 + c) * 16 + d
  {
    TwoHex(b, c);
    DigitVal(d);
    hide HexVal, GroupVal, IsGroup;
    GroupSnoc([DIGITS[b], DIGITS[c]], DIGITS[d]);
    assert [DIGITS[b], DIGITS[c]] + [DIGITS[d]] == [DIGITS[b], DIGITS[c], DIGITS[d]];
  }

  lemma {:induction false} FourHex(a: nat, b: nat, c: nat, d: nat)
    requires a < 16 && b < 16 && c < 16 && d < 16
    ensures IsGroup([DIGITS[a], DIGITS[b], DIGITS[c], DIGITS[d]])
    ensures GroupVal([DIGITS[a], DIGITS[b], DIGITS[c], DIGITS[d]]) == ((a * 16 + b) * 16 + c) * 16 + d
  {
    ThreeHex(a, b, c);
    DigitVal(d);
    hide HexVal, GroupVal, IsGroup;
    GroupSnoc([DIGITS[a], DIGITS[b], DIGITS[c]], DIGITS[d]);
    assert [DIGITS[a], DIGITS[b], DIGITS[c]] + [DIGITS[d]] == [DIGITS[a], DIGITS[b], DIGITS[c], DIGITS[d]];
  }

  // A printed word is read as that word.
  lemma {:induction false} GoHex(out: seq<byte>, colon: int, v: word, rest: string, tok: string)
    requires |out| <= 16 && -1 <= colon <= |out|
    ensures 1 <= |Hex(v)| <= 4 && v < Power(|Hex(v)|)
    ensures Go(Scan6(out, colon, 0, 0), Hex(v) + rest, tok) == Go(Scan6(out, colon, |Hex(v)|, v), rest, tok)
  {
    HexGroup(v);
    hide Hex;
    GoGroup(out, colon, Hex(v), rest, tok);
  }

  /** Words as bytes. */
  function Bytes(ws: seq<word>): seq<byte> {
    if ws == [] then [] else Pair(ws[0]) + Bytes(ws[1..])
  }

  lemma {:induction false} BytesLength(ws: seq<word>)
    ensures |Bytes(ws)| == 2 * |ws|
  {
    if ws != [] {
      BytesLength(ws[1..]);
    }
  }

  // A word and the colon after it.
  lemma {:induction false} GoField(out: seq<byte>, colon: int, v: word, rest: string, tok: string)
    requires |out| + 2 <= 16 && -1 <= colon <= |out| && rest != ""
    ensures Go(Scan6(out, colon, 0, 0), Hex(v) + ":" + rest, tok) == Go(Scan6(out + Pair(v), colon, 0, 0), rest, rest)
  {
    GoHex(out, colon, v, ":" + rest, tok);
    assert Hex(v) + ":" + rest == Hex(v) + (":" + rest);
    hide Hex;
    GoColon(Scan6(out, colon, |Hex(v)|, v), rest, tok);
  }

  lemma {:induction false} GoColon(s: Scan6, rest: string, tok: string)
    requires ScanOk6(s) && s.seen > 0 && |s.out| + 2 <= 16 && rest != ""
    ensures Go(s, ":" + rest, tok) == Go(Scan6(s.out + Pair(s.val), s.colon, 0, 0), rest, rest)
  {
    assert (":" + rest)[1..] == rest;
  }

  lemma {:induction false} GoSecondColon(s: Scan6, rest: string, tok: string)
    requires ScanOk6(s) && s.seen == 0 && s.colon == -1
    ensures Go(s, ":" + rest, tok) == Go(s.(colon := |s.out|), rest, rest)
  {
    assert (":" + rest)[1..] == rest;
  }

  lemma {:induction false} BytesCons(out: seq<byte>, ws: seq<word>)
    requires ws != []
    ensures out + Bytes(ws) == out + Pair(ws[0]) + Bytes(ws[1..])
    ensures |ws| == 1 ==> Bytes(ws) == Pair(ws[0])
  {
  }

  lemma {:induction false} JoinOne(ws: seq<word>)
    requires |ws| == 1
    ensures Join(ws) == Hex(ws[0]) + ""
  {
  }

  lemma {:induction false} JoinMore(ws: seq<word>)
    requires |ws| > 1
    ensures Join(ws) == Hex(ws[0]) + ":" + Join(ws[1..]) && Join(ws[1..]) != ""
  {
  }

  // The last words.
  lemma {:induction false} GoJoin(out: seq<byte>, colon: int, ws: seq<word>, tok: string)
    requires |out| + 2 * |ws| <= 16 && -1 <= colon <= |out|
    ensures |Bytes(ws)| == 2 * |ws|
    ensures Go(Scan6(out, colon, 0, 0), Join(ws), tok) == Close(out + Bytes(ws), colon)
    decreases |ws|
  {
    BytesLength(ws);
    if ws == [] {
      assert out + [] == out;
    } else {
      BytesCons(out, ws);
      hide Hex, Join, Close, Bytes;
      if |ws| == 1 {
        JoinOne(ws);
        GoHex(out, colon, ws[0], "", tok);
      } else {
        JoinMore(ws);
        GoField(out, colon, ws[0], Join(ws[1..]), tok);
        GoJoin(out + Pair(ws[0]), colon, ws[1..], Join(ws[1..]));
      }
    }
  }

  lemma {:induction false} HeadOne(ws: seq<word>, rest: string)
    requires |ws| == 1
    ensures Join(ws) + "::" + rest == Hex(ws[0]) + ":" + (":" + rest)
  {
  }

  lemma {:induction false} HeadMore(ws: seq<word>, rest: string)
    requires |ws| > 1
    ensures Join(ws) + "::" + rest == Hex(ws[0]) + ":" + (Join(ws[1..]) + "::" + rest)
    ensures Join(ws[1..]) + "::" + rest != ""
  {
    hide Hex;
    Regroup(Hex(ws[0]) + ":", Join(ws[1..]), "::", rest);
  }

  lemma {:induction false} Regroup(a: string, b: string, c: string, d: string)
    ensures a + b + c + d == a + (b + c + d)
  {
  }

  lemma {:induction false} GoFieldColons(out: seq<byte>, v: word, rest: string, tok: string)
    requires |out| + 2 <= 16
    ensures Go(Scan6(out, -1, 0, 0), Hex(v) + ":" + (":" + rest), tok)
         == Go(Scan6(out + Pair(v), |out| + 2, 0, 0), rest, rest)
  {
    hide Hex, Go;
    GoField(out, -1, v, ":" + rest, tok);
    GoSecondColon(Scan6(out + Pair(v), -1, 0, 0), rest, ":" + rest);
  }

  /** Where the scan is after the words before "::". */
  ghost function PastColons(out: seq<byte>, ws: seq<word>): Scan6 {
    Scan6(out + Bytes(ws), |out| + 2 * |ws|, 0, 0)
  }

  lemma {:induction false} PastColonsFacts(out: seq<byte>, ws: seq<word>)
    requires |out| + 2 * |ws| <= 16 && ws != []
    ensures ScanOk6(PastColons(out, ws)) && |out + Pair(ws[0])| == |out| + 2
    ensures PastColons(out, ws) == PastColons(out + Pair(ws[0]), ws[1..])
    ensures |ws| == 1 ==> PastColons(out, ws) == Scan6(out + Pair(ws[0]), |out| + 2, 0, 0)
  {
    BytesLength(ws);
    BytesCons(out, ws);
  }

  // The words before "::".
  lemma {:induction false} GoHead(out: seq<byte>, ws: seq<word>, rest: string, tok: string)
    requires |out| + 2 * |ws| <= 16 && ws != []
    ensures ScanOk6(PastColons(out, ws))
    ensures Go(Scan6(out, -1, 0, 0), Join(ws) + "::" + rest, tok) == Go(PastColons(out, ws), rest, rest)
    decreases |ws|
  {
    hide Hex, Join, Go, Pair, PastColons;
    PastColonsFacts(out, ws);
    if |ws| == 1 {
      HeadOne(ws, rest);
      GoFieldColons(out, ws[0], rest, tok);
    } else {
      var more := Join(ws[1..]) + "::" + rest;
      HeadMore(ws, rest);
      GoField(out, -1, ws[0], more, tok);
      GoHead(out + Pair(ws[0]), ws[1..], rest, more);
    }
  }

  // The digits of the first octet of an IPv4 part are read as hexadecimal ones, in vain.
  lemma {:induction false} GoDec(out: seq<byte>, colon: int, n: byte, rest: string, tok: string) returns (s: Scan6)
    requires |out| <= 16 && -1 <= colon <= |out|
    ensures ScanOk6(s) && s.out == out && s.colon == colon
    ensures Go(Scan6(out, colon, 0, 0), Dec(n) + rest, tok) == Go(s, rest, tok)
  {
    assert IsGroup(Dec(n));
    hide Dec;
    GoGroup(out, colon, Dec(n), rest, tok);
    s := Scan6(out, colon, |Dec(n)|, GroupVal(Dec(n)));
  }

  lemma {:induction false} GoDot(s: Scan6, rest: string, tok: string, b: seq<byte>)
    requires ScanOk6(s) && |s.out| <= 12 && |b| == 4 && Parse4(tok) == Ok(b)
    ensures Go(s, "." + rest, tok) == Close(s.out + b, s.colon)
  {
  }

  lemma {:induction false} DottedStart(b: seq<byte>) returns (rest: string)
    requires |b| == 4
    ensures Dotted(b) == Dec(b[0]) + ("." + rest)
  {
    DottedFour(b);
    rest := Dec(b[1]) + "." + Dec(b[2]) + "." + Dec(b[3]);
    FirstDot(Dec(b[0]), Dec(b[1]), Dec(b[2]), Dec(b[3]));
    hide Dotted, Dec;
  }

  lemma {:induction false} FirstDot(a: string, b: string, c: string, d: string)
    ensures a + "." + b + "." + c + "." + d == a + ("." + (b + "." + c + "." + d))
  {
    assert a + "." + b == a + ("." + b);
    assert a + ("." + b) + "." + c == a + ("." + b + "." + c);
    assert a + ("." + b + "." + c) + "." + d == a + ("." + b + "." + c + "." + d);
  }

  lemma {:induction false} GoV4(out: seq<byte>, colon: int, b: seq<byte>)
    requires |out| <= 12 && -1 <= colon <= |out| && |b| == 4
    ensures Go(Scan6(out, colon, 0, 0), Dotted(b), Dotted(b)) == Close(out + b, colon)
  {
    RoundTrip4(b);
    var rest := DottedStart(b);
    hide Go, Dotted, Dec, Close, Parse4;
    var s := GoDec(out, colon, b[0], "." + rest, Dotted(b));
    GoDot(s, rest, Dotted(b), b);
  }

  // ---------- the bytes ----------

  lemma {:induction false} BytesOf(w: seq<word>, b: seq<byte>)
    requires WordsOf(w, b)
    ensures Bytes(w) == b
    decreases |w|
  {
    if w == [] {
      assert b == [];
    } else {
      var v, c := w[1..], b[2..];
      forall i | 0 <= i < |v|
        ensures v[i] == Word(c[2 * i], c[2 * i + 1])
      {
        assert v[i] == w[i + 1] == Word(b[2 * (i + 1)], b[2 * (i + 1) + 1]);
      }
      BytesOf(v, c);
      assert w[0] == Word(b[2 * 0], b[2 * 0 + 1]);
      assert b == [b[0], b[1]] + c;
    }
  }

  lemma {:induction false} BytesCat(a: seq<word>, c: seq<word>)
    ensures Bytes(a + c) == Bytes(a) + Bytes(c)
    decreases |a|
  {
    if a == [] {
      assert a + c == c;
    } else {
      BytesCat(a[1..], c);
      assert (a + c)[1..] == a[1..] + c && (a + c)[0] == a[0];
      hide Pair;
      assert Pair(a[0]) + (Bytes(a[1..]) + Bytes(c)) == Pair(a[0]) + Bytes(a[1..]) + Bytes(c);
    }
  }

  lemma {:induction false} BytesZeros(ws: seq<word>)
    requires forall k :: 0 <= k < |ws| ==> ws[k] == 0
    ensures Bytes(ws) == ZeroBytes(2 * |ws|)
    decreases |ws|
  {
    if ws != [] {
      BytesZeros(ws[1..]);
    }
  }

  lemma {:induction false} CloseParts(a: seq<byte>, n: nat, c: seq<byte>)
    requires |a| + n + |c| == 16 && n > 0
    ensures Close(a + c, |a|) == Ok(a + ZeroBytes(n) + c)
  {
    assert (a + c)[..|a|] == a && (a + c)[|a|..] == c;
  }

  lemma {:induction false} BytesThree(w: seq<word>, a: seq<word>, z: seq<word>, c: seq<word>)
    requires w == a + z + c
    ensures Bytes(w) == Bytes(a) + Bytes(z) + Bytes(c)
  {
    BytesCat(a + z, c);
    BytesCat(a, z);
  }

  lemma {:induction false} PartsFilled(w: seq<word>, b: seq<byte>, a: seq<word>, z: seq<word>, c: seq<word>)
    requires |w| == 8 && Bytes(w) == b && w == a + z + c && z != []
    requires Bytes(z) == ZeroBytes(2 * |z|)
    ensures |Bytes(a)| == 2 * |a| && |Bytes(c)| == 2 * |c|
    ensures Close(Bytes(a) + Bytes(c), 2 * |a|) == Ok(b)
  {
    hide Bytes, Close, ZeroBytes;
    BytesLength(a);
    BytesLength(c);
    BytesThree(w, a, z, c);
    CloseParts(Bytes(a), 2 * |z|, Bytes(c));
  }

  lemma {:induction false} Slices(w: seq<word>, i: nat, j: nat)
    requires i <= j <= |w|
    ensures w == w[..i] + w[i..j] + w[j..]
  {
  }

  // Zeros between the parts before and after the run give back the address.
  lemma {:induction false} RunFilled(w: seq<word>, b: seq<byte>, base: int, len: int)
    requires |w| == 8 && WordsOf(w, b) && 0 < len && Zeros(w, base, base + len)
    ensures |Bytes(w[..base])| == 2 * base && |Bytes(w[base + len..])| == 16 - 2 * (base + len)
    ensures Close(Bytes(w[..base]) + Bytes(w[base + len..]), 2 * base) == Ok(b)
  {
    hide WordsOf, Bytes, Close, ZeroBytes;
    var j := base + len;
    BytesOf(w, b);
    ZeroSlice(w, base, j);
    Slices(w, base, j);
    hide Zeros;
    PartsFilled(w, b, w[..base], w[base..j], w[j..]);
  }

  lemma {:induction false} ZeroSlice(w: seq<word>, i: nat, j: nat)
    requires Zeros(w, i, j)
    ensures Bytes(w[i..j]) == ZeroBytes(2 * (j - i))
  {
    hide Bytes, ZeroBytes;
    BytesZeros(w[i..j]);
  }

  // ---------- the round trip ----------

  lemma {:induction false} ParseColons(rest: string)
    ensures Parse6("::" + rest) == Go(Scan6([], 0, 0, 0), rest, rest)
  {
    assert ("::" + rest)[1..] == ":" + rest;
    GoSecondColon(START, rest, ":" + rest);
  }

  lemma {:induction false} HexStart(v: word)
    ensures Hex(v) != "" && HexVal(Hex(v)[0]) >= 0 && Hex(v)[0] != ':'
  {
  }

  lemma {:induction false} JoinStart(ws: seq<word>, rest: string)
    requires ws != []
    ensures Join(ws) != "" && (Join(ws) + rest)[0] != ':'
  {
    HexStart(ws[0]);
    hide Hex;
  }

  lemma {:induction false} RoundTripV4(b: seq<byte>, w: seq<word>, base: int, len: int)
    requires |b| == 16 && |w| == 8 && WordsOf(w, b) && Zeros(w, base, base + len) && IsV4(w, base, len)
    ensures Parse6(Text6(w, base, len, b)) == Ok(b)
  {
    var d := b[12..];
    RunFilled(w, b, base, len);
    assert w[..base] == [] && Bytes([]) == [];
    hide Go, Hex, Dotted, Close, Parse6, WordsOf, Zeros, Bytes;
    if len == 6 {
      LastBytes(w, b);
      assert "::" + "" + Dotted(d) == "::" + Dotted(d);
      ParseColons(Dotted(d));
      GoV4([], 0, d);
    } else {
      V4Start(w, b);
      assert "::" + "ffff:" + Dotted(d) == "::" + ("ffff" + ":" + Dotted(d));
      GoFfff(d);
    }
  }

  lemma {:induction false} GoFfff(d: seq<byte>)
    requires |d| == 4 && Hex(0xffff) == "ffff" && Dotted(d) != ""
    ensures Parse6("::" + ("ffff" + ":" + Dotted(d))) == Close(Pair(0xffff) + d, 0)
  {
    hide Go, Hex, Dotted, Close, Parse6;
    ParseColons("ffff" + ":" + Dotted(d));
    GoField([], 0, 0xffff, Dotted(d), "ffff" + ":" + Dotted(d));
    assert [] + Pair(0xffff) == Pair(0xffff);
    GoV4(Pair(0xffff), 0, d);
  }

  // The last two words are the IPv4 part.
  lemma {:induction false} LastBytes(w: seq<word>, b: seq<byte>)
    requires |b| == 16 && |w| == 8 && WordsOf(w, b)
    ensures Bytes(w[6..]) == b[12..]
  {
    var d, v := b[12..], w[6..];
    forall i | 0 <= i < |v|
      ensures v[i] == Word(d[2 * i], d[2 * i + 1])
    {
      assert w[6 + i] == Word(b[2 * (6 + i)], b[2 * (6 + i) + 1]);
    }
    BytesOf(v, d);
  }

  lemma {:induction false} V4Start(w: seq<word>, b: seq<byte>)
    requires |b| == 16 && |w| == 8 && WordsOf(w, b) && w[5] == 0xffff
    ensures Hex(0xffff) == "ffff" && Bytes(w[5..]) == Pair(0xffff) + b[12..] && Dotted(b[12..]) != ""
  {
    LastBytes(w, b);
    DottedFour(b[12..]);
    assert w[5..][1..] == w[6..];
  }

  lemma {:induction false} RoundTripWords(b: seq<byte>, w: seq<word>, base: int, len: int)
    requires |b| == 16 && |w| == 8 && WordsOf(w, b) && IsBest(w, base, len)
    requires base == -1 || (0 <= base && 0 <= len && base + len <= 8)
    ensures Parse6(Text6(w, base, len, b)) == Ok(b)
  {
    hide Go, Hex;
    if base == -1 {
      BytesOf(w, b);
      JoinStart(w, "");
      assert Join(w) + "" == Join(w);
      GoJoin([], -1, w, Join(w));
      assert [] + Bytes(w) == Bytes(w);
    } else if IsV4(w, base, len) {
      RoundTripV4(b, w, base, len);
    } else {
      RoundTripRun(b, w, base, len);
    }
  }

  /** Every 16-byte address is read back from its text. */
  lemma {:induction false} RoundTrip6(b: seq<byte>, text: string)
    requires IsText(b, text)
    ensures Parse6(text) == Ok(b)
  {
    var w: seq<word>, base: int, len: int :| Prints(b, w, base, len, text);
    RoundTripWords(b, w, base, len);
  }

  lemma {:induction false} RoundTripRun(b: seq<byte>, w: seq<word>, base: int, len: int)
    requires |b| == 16 && |w| == 8 && WordsOf(w, b) && 2 <= len && Zeros(w, base, base + len)
    ensures Parse6(Join(w[..base]) + "::" + Join(w[base + len..])) == Ok(b)
  {
    hide Go, Hex, Bytes;
    RunFilled(w, b, base, len);
    var head, tail := w[..base], w[base + len..];
    var rest := Join(tail);
    if base == 0 {
      assert Join(head) + "::" + rest == "::" + rest;
      ParseColons(rest);
      GoJoin([], 0, tail, rest);
      assert Bytes(head) + Bytes(tail) == [] + Bytes(tail);
    } else {
      var src := Join(head) + "::" + rest;
      assert src == Join(head) + ("::" + rest);
      JoinStart(head, "::" + rest);
      GoHead([], head, rest, src);
      assert [] + Bytes(head) == Bytes(head);
      GoJoin(Bytes(head), 2 * base, tail, rest);
    }
  }

  // ---------- what is accepted ----------

  /** The parts of an address in text form (section 2.2 of RFC 4291): groups of hexadecimal
      digits, "::" between `head` and `tail` if there is a `run`, and an IPv4 address at the
      end unless `dotted` is empty. */
  datatype Address = Address(head: seq<string>, run: bool, tail: seq<string>, dotted: string)

  predicate AreGroups(gs: seq<string>) {
    forall i :: 0 <= i < |gs| ==> gs[i] != "" && IsGroup(gs[i])
  }

  predicate IsDotted(dotted: string) {
    dotted == "" || (Parse4(dotted).Ok? && |Parse4(dotted).value| == 4)
  }

  /** Groups with a colon behind each. */
  function Fields(gs: seq<string>): string {
    if gs == [] then "" else gs[0] + ":" + Fields(gs[1..])
  }

  /** Groups and the IPv4 part with colons between them. */
  function Items(gs: seq<string>, dotted: string): string {
    if gs == [] then dotted
    else if |gs| == 1 && dotted == "" then gs[0]
    else gs[0] + ":" + Items(gs[1..], dotted)
  }

  function GroupBytes(gs: seq<string>): (b: seq<byte>)
    requires AreGroups(gs)
    ensures |b| == 2 * |gs|
  {
    if gs == [] then [] else Pair(GroupVal(gs[0])) + GroupBytes(gs[1..])
  }

  function DottedBytes(dotted: string): seq<byte>
    requires IsDotted(dotted)
  {
    if dotted == "" then [] else Parse4(dotted).value
  }

  /** The text: "::" may stand at the start. */
  function Render(a: Address): string {
    if !a.run then Items(a.head, a.dotted)
    else (if a.head == [] then ":" else "") + Fields(a.head) + ":" + Items(a.tail, a.dotted)
  }

  function Front6(a: Address): seq<byte>
    requires AreGroups(a.head)
  {
    GroupBytes(a.head)
  }

  function Back6(a: Address): seq<byte>
    requires AreGroups(a.tail) && IsDotted(a.dotted)
  {
    GroupBytes(a.tail) + DottedBytes(a.dotted)
  }

  /** Well-formed: eight words, or fewer if "::" stands for the rest. */
  predicate IsAddress(a: Address) {
    && AreGroups(a.head) && AreGroups(a.tail) && IsDotted(a.dotted) && (!a.run ==> a.tail == [])
    && if a.run then |Front6(a)| + |Back6(a)| < 16 else |Front6(a)| + |Back6(a)| == 16
  }

  /** The address: zeros where "::" stands. */
  function Value6(a: Address): seq<byte>
    requires IsAddress(a)
  {
    Front6(a) + ZeroBytes(16 - |Front6(a)| - |Back6(a)|) + Back6(a)
  }

  // ---------- every such text is accepted ----------

  lemma {:induction false} GoDotted(out: seq<byte>, colon: int, dotted: string)
    requires |out| <= 12 && -1 <= colon <= |out| && IsDotted(dotted) && dotted != ""
    ensures Go(Scan6(out, colon, 0, 0), dotted, dotted) == Close(out + DottedBytes(dotted), colon)
  {
    Parse4Sound(dotted);
    GoV4(out, colon, DottedBytes(dotted));
  }

  // A group and the colon after it.
  lemma {:induction false} GoGroupColon(out: seq<byte>, colon: int, g: string, rest: string, tok: string)
    requires |out| + 2 <= 16 && -1 <= colon <= |out| && g != "" && IsGroup(g) && rest != ""
    ensures Go(Scan6(out, colon, 0, 0), g + ":" + rest, tok) == Go(Scan6(out + Pair(GroupVal(g)), colon, 0, 0), rest, rest)
  {
    GoGroup(out, colon, g, ":" + rest, tok);
    assert g + ":" + rest == g + (":" + rest);
    hide Go, GroupVal;
    GoColon(Scan6(out, colon, |g|, GroupVal(g)), rest, tok);
  }

  lemma {:induction false} GroupsTail(gs: seq<string>)
    requires AreGroups(gs) && gs != []
    ensures gs[0] != "" && IsGroup(gs[0]) && AreGroups(gs[1..])
    ensures GroupBytes(gs) == Pair(GroupVal(gs[0])) + GroupBytes(gs[1..])
  {
  }

  lemma {:induction false} GroupBytesOne(gs: seq<string>)
    requires AreGroups(gs) && |gs| == 1
    ensures gs[0] != "" && IsGroup(gs[0]) && GroupBytes(gs) == Pair(GroupVal(gs[0]))
  {
    assert GroupBytes(gs[1..]) == [];
  }

  lemma {:induction false} ItemsMore(gs: seq<string>, dotted: string)
    requires gs != [] && AreGroups(gs) && (|gs| > 1 || dotted != "")
    ensures Items(gs, dotted) == gs[0] + ":" + Items(gs[1..], dotted) && Items(gs[1..], dotted) != ""
  {
  }

  lemma {:induction false} Regroup3(a: seq<byte>, b: seq<byte>, c: seq<byte>)
    ensures a + (b + c) == (a + b) + c
  {
  }

  lemma {:induction false} GoItems(out: seq<byte>, colon: int, gs: seq<string>, dotted: string)
    requires AreGroups(gs) && IsDotted(dotted) && -1 <= colon <= |out|
    requires |out| + 2 * |gs| + |DottedBytes(dotted)| <= 16
    ensures var text := Items(gs, dotted);
      Go(Scan6(out, colon, 0, 0), text, text) == Close(out + GroupBytes(gs) + DottedBytes(dotted), colon)
    decreases |gs|
  {
    hide Go, Close, Pair, GroupVal, Parse4;
    if gs == [] {
      assert out + GroupBytes(gs) + DottedBytes(dotted) == out + DottedBytes(dotted);
      if dotted == "" {
        assert out + [] == out;
        GoEnd(out, colon);
      } else {
        GoDotted(out, colon, dotted);
      }
    } else if |gs| == 1 && dotted == "" {
      GroupBytesOne(gs);
      assert gs[0] + "" == gs[0] && out + GroupBytes(gs) + [] == out + GroupBytes(gs);
      GoGroup(out, colon, gs[0], "", gs[0]);
      GoLast(out, colon, gs[0]);
    } else {
      GroupsTail(gs);
      ItemsMore(gs, dotted);
      var rest := Items(gs[1..], dotted);
      GoGroupColon(out, colon, gs[0], rest, Items(gs, dotted));
      GoItems(out + Pair(GroupVal(gs[0])), colon, gs[1..], dotted);
      Regroup3(out, Pair(GroupVal(gs[0])), GroupBytes(gs[1..]));
    }
  }

  lemma {:induction false} GoEnd(out: seq<byte>, colon: int)
    requires |out| <= 16 && -1 <= colon <= |out|
    ensures Go(Scan6(out, colon, 0, 0), "", "") == Close(out, colon)
  {
  }

  lemma {:induction false} GoLast(out: seq<byte>, colon: int, g: string)
    requires |out| + 2 <= 16 && -1 <= colon <= |out| && g != "" && IsGroup(g)
    ensures Go(Scan6(out, colon, |g|, GroupVal(g)), "", g) == Close(out + Pair(GroupVal(g)), colon)
  {
  }

  lemma {:induction false} GoFields(out: seq<byte>, gs: seq<string>, rest: string)
    requires AreGroups(gs) && |out| + 2 * |gs| <= 16
    ensures var text := Fields(gs) + ":" + rest;
      Go(Scan6(out, -1, 0, 0), text, text) == Go(Scan6(out + GroupBytes(gs), |out| + 2 * |gs|, 0, 0), rest, rest)
    decreases |gs|
  {
    hide Go, Pair, GroupVal;
    if gs == [] {
      assert out + [] == out && "" + ":" + rest == ":" + rest;
      GoSecondColon(Scan6(out, -1, 0, 0), rest, ":" + rest);
    } else {
      GroupsTail(gs);
      var more := Fields(gs[1..]) + ":" + rest;
      Regroup(gs[0] + ":", Fields(gs[1..]), ":", rest);
      GoGroupColon(out, -1, gs[0], more, Fields(gs) + ":" + rest);
      GoFields(out + Pair(GroupVal(gs[0])), gs[1..], rest);
      Regroup3(out, Pair(GroupVal(gs[0])), GroupBytes(gs[1..]));
    }
  }

  lemma {:induction false} GroupStart(g: string, rest: string)
    requires g != "" && IsGroup(g)
    ensures (g + rest)[0] != ':'
  {
  }

  lemma {:induction false} RenderStart(a: Address)
    requires AreGroups(a.head) && a.head != []
    ensures Render(a) != "" && Render(a)[0] != ':'
  {
    var g, rest := a.head[0], "";
    if a.run {
      rest := ":" + Fields(a.head[1..]) + ":" + Items(a.tail, a.dotted);
    } else if |a.head| == 1 && a.dotted == "" {
      assert g + "" == g;
    } else {
      rest := ":" + Items(a.head[1..], a.dotted);
    }
    assert Render(a) == g + rest;
    hide Parse4, Items, Fields;
    GroupStart(g, rest);
  }

  lemma {:induction false} CloseWhole(a: Address)
    requires IsAddress(a)
    ensures Close(Front6(a) + Back6(a), if a.run then |Front6(a)| else -1) == Ok(Value6(a))
  {
    if a.run {
      CloseParts(Front6(a), 16 - |Front6(a)| - |Back6(a)|, Back6(a));
    } else {
      assert Front6(a) + ZeroBytes(0) + Back6(a) == Front6(a) + Back6(a);
    }
  }

  lemma {:induction false} AcceptsPlain(a: Address)
    requires IsAddress(a) && !a.run
    ensures Parse6(Render(a)) == Close(Front6(a) + Back6(a), -1)
  {
    assert |DottedBytes(a.dotted)| <= 4;
    RenderStart(a);
    assert GroupBytes([]) == [] && Back6(a) == DottedBytes(a.dotted);
    hide Go, Close, Parse4, GroupBytes, DottedBytes, Items;
    GoItems([], -1, a.head, a.dotted);
    assert [] + GroupBytes(a.head) == GroupBytes(a.head);
  }

  lemma {:induction false} RunText(a: Address)
    requires IsAddress(a) && a.run
    ensures var text := Fields(a.head) + ":" + Items(a.tail, a.dotted);
      Parse6(Render(a)) == Go(START, text, text)
  {
    var text := Fields(a.head) + ":" + Items(a.tail, a.dotted);
    if a.head == [] {
      assert text == ":" + Items(a.tail, a.dotted) && Render(a) == "::" + Items(a.tail, a.dotted);
      assert Render(a)[1..] == text;
    } else {
      RenderStart(a);
      assert "" + Fields(a.head) == Fields(a.head);
    }
    hide Go, Items, Parse4, GroupBytes, DottedBytes;
  }

  lemma {:induction false} AcceptsRun(a: Address)
    requires IsAddress(a) && a.run
    ensures Parse6(Render(a)) == Close(Front6(a) + Back6(a), |Front6(a)|)
  {
    RunText(a);
    hide Go, Close, Parse4, GroupBytes, DottedBytes, Items, Parse6, Fields;
    GoFields([], a.head, Items(a.tail, a.dotted));
    assert [] + GroupBytes(a.head) == GroupBytes(a.head);
    GoItems(GroupBytes(a.head), 2 * |a.head|, a.tail, a.dotted);
    Regroup3(GroupBytes(a.head), GroupBytes(a.tail), DottedBytes(a.dotted));
  }

  lemma {:induction false} Accepts(a: Address)
    requires IsAddress(a)
    ensures Parse6(Render(a)) == Ok(Value6(a))
  {
    CloseWhole(a);
    if a.run {
      AcceptsRun(a);
    } else {
      AcceptsPlain(a);
    }
  }

  // ---------- nothing else is accepted ----------

  /** What the loop has still to read is `g` and `rest`; it ends well, and the parts are these. */
  ghost predicate Reads(out: seq<byte>, colon: int, text: string, a: Address, b: seq<byte>) {
    && AreGroups(a.head) && AreGroups(a.tail) && IsDotted(a.dotted)
    && -1 <= colon <= |out| && |out| + |Front6(a)| + |Back6(a)| <= 16
    && if a.run then
         && colon == -1 && text == Fields(a.head) + ":" + Items(a.tail, a.dotted)
         && Close(out + Front6(a) + Back6(a), |out| + |Front6(a)|) == Ok(b)
       else
         && a.tail == [] && text == Items(a.head, a.dotted)
         && Close(out + Front6(a) + Back6(a), colon) == Ok(b)
  }

  lemma {:induction false} ReadsGroup(out: seq<byte>, colon: int, g: string, rest: string, a: Address, b: seq<byte>)
    returns (a': Address)
    requires g != "" && IsGroup(g) && rest != "" && |out| + 2 <= 16 && -1 <= colon <= |out|
    requires Reads(out + Pair(GroupVal(g)), colon, rest, a, b)
    ensures Reads(out, colon, g + ":" + rest, a', b)
  {
    a' := a.(head := [g] + a.head);
    assert a'.head[1..] == a.head && AreGroups(a'.head);
    hide Close, Pair, GroupVal, Parse4;
    Regroup3(out, Pair(GroupVal(g)), Front6(a));
    if a.run {
      Regroup(g + ":", Fields(a.head), ":", Items(a.tail, a.dotted));
    }
  }

  lemma {:induction false} ReadsLast(out: seq<byte>, colon: int, g: string, b: seq<byte>) returns (a: Address)
    requires IsGroup(g) && |out| <= 16 && -1 <= colon <= |out|
    requires Finish(Scan6(out, colon, |g|, GroupVal(g))) == Ok(b)
    ensures Reads(out, colon, g, a, b)
  {
    a := Address(if g == "" then [] else [g], false, [], "");
    assert GroupBytes([]) == [] && DottedBytes("") == [];
    if g == "" {
      assert out + [] + ([] + []) == out;
    } else {
      GroupBytesOne([g]);
      assert out + Pair(GroupVal(g)) + ([] + []) == out + Pair(GroupVal(g));
    }
  }

  lemma {:induction false} ReadsDotted(out: seq<byte>, colon: int, dotted: string, b: seq<byte>) returns (a: Address)
    requires dotted != "" && IsDotted(dotted) && |out| + 4 <= 16 && -1 <= colon <= |out|
    requires Close(out + DottedBytes(dotted), colon) == Ok(b)
    ensures Reads(out, colon, dotted, a, b)
  {
    a := Address([], false, [], dotted);
    assert GroupBytes([]) == [];
    assert out + [] + ([] + DottedBytes(dotted)) == out + DottedBytes(dotted);
  }

  lemma {:induction false} ReadsRun(out: seq<byte>, text: string, a: Address, b: seq<byte>) returns (a': Address)
    requires Reads(out, |out|, text, a, b)
    ensures Reads(out, -1, ":" + text, a', b)
  {
    a' := Address([], true, a.head, a.dotted);
    assert GroupBytes([]) == [];
    hide Close, Parse4;
    assert "" + ":" + text == ":" + text;
    assert Back6(a) == [] + DottedBytes(a.dotted) == DottedBytes(a.dotted);
    assert Back6(a') == GroupBytes(a.head) + DottedBytes(a.dotted);
    assert out + [] == out;
    Regroup3(out, GroupBytes(a.head), DottedBytes(a.dotted));
  }

  // One unfolding of the loop, if it ends well.
  lemma {:induction false} GoTurn(out: seq<byte>, colon: int, g: string, rest: string, b: seq<byte>)
    requires |out| <= 16 && -1 <= colon <= |out| && IsGroup(g) && rest != ""
    requires Go(Scan6(out, colon, |g|, GroupVal(g)), rest, g + rest) == Ok(b)
    ensures var ch, rest' := rest[0], rest[1..];
      if HexVal(ch) >= 0 then
        |g| < 4 && IsGroup(g + [ch]) && Go(Scan6(out, colon, |g| + 1, GroupVal(g + [ch])), rest', g + rest) == Ok(b)
      else if ch == ':' && g == "" then
        colon == -1 && Go(Scan6(out, |out|, 0, 0), rest', rest') == Ok(b)
      else if ch == ':' then
        rest' != "" && |out| + 2 <= 16 && Go(Scan6(out + Pair(GroupVal(g)), colon, 0, 0), rest', rest') == Ok(b)
      else
        |out| + 4 <= 16 && IsDotted(g + rest) && Close(out + DottedBytes(g + rest), colon) == Ok(b)
  {
    hide Close, Parse4;
    if HexVal(rest[0]) >= 0 {
      GroupSnoc(g, rest[0]);
    }
    hide GroupVal;
  }

  lemma {:induction false} Chars(g: string, rest: string)
    requires rest != ""
    ensures (g + [rest[0]]) + rest[1..] == g + rest && "" + rest[1..] == rest[1..]
    ensures rest[0] == ':' ==> g + ":" + rest[1..] == g + rest && (g == "" ==> ":" + rest[1..] == g + rest)
  {
    assert rest == [rest[0]] + rest[1..];
  }

  lemma {:induction false} GoSound(out: seq<byte>, colon: int, g: string, rest: string, b: seq<byte>) returns (a: Address)
    requires |out| <= 16 && -1 <= colon <= |out| && IsGroup(g)
    requires Go(Scan6(out, colon, |g|, GroupVal(g)), rest, g + rest) == Ok(b)
    ensures Reads(out, colon, g + rest, a, b)
    decreases |rest|
  {
    if rest == "" {
      assert g + rest == g;
      hide Reads, Close, Parse4, GroupVal;
      a := ReadsLast(out, colon, g, b);
    } else {
      assert GroupVal("") == 0;
      GoTurn(out, colon, g, rest, b);
      hide Reads, Close, Parse4, GroupVal, Go, HexVal, Pair, DottedBytes, IsDotted;
      Chars(g, rest);
      var ch, rest' := rest[0], rest[1..];
      if HexVal(ch) >= 0 {
        a := GoSound(out, colon, g + [ch], rest', b);
      } else if ch == ':' {
        if g == "" {
          a := GoSound(out, |out|, "", rest', b);
          a := ReadsRun(out, rest', a, b);
        } else {
          a := GoSound(out + Pair(GroupVal(g)), colon, "", rest', b);
          a := ReadsGroup(out, colon, g, rest', a, b);
        }
      } else {
        a := ReadsDotted(out, colon, g + rest, b);
      }
    }
  }

  lemma {:induction false} AcceptedParts(src: string, b: seq<byte>) returns (a: Address)
    requires Parse6(src) == Ok(b)
    ensures IsAddress(a) && Render(a) == src && Value6(a) == b
  {
    var text := if src != "" && src[0] == ':' then src[1..] else src;
    assert "" + text == text && GroupVal("") == 0;
    hide Go, Parse4, Close, GroupVal, Reads;
    a := GoSound([], -1, "", text, b);
    ReadsAll(text, a, b);
    if src != "" && src[0] == ':' {
      assert src == ":" + text && text[0] == ':';
      LeadingColon(text, a, b);
    } else {
      OtherStart(text, a, b);
    }
  }

  lemma {:induction false} ReadsAll(text: string, a: Address, b: seq<byte>)
    requires Reads([], -1, text, a, b)
    ensures IsAddress(a) && Value6(a) == b
  {
    assert [] + Front6(a) + Back6(a) == Front6(a) + Back6(a);
    var f, t := Front6(a), Back6(a);
    assert (f + t)[..|f|] == f && (f + t)[|f|..] == t;
    if !a.run {
      assert f + ZeroBytes(0) + t == f + t;
    }
    hide Parse4, GroupBytes;
  }

  lemma {:induction false} HeadText(text: string, a: Address, b: seq<byte>)
    requires Reads([], -1, text, a, b) && IsAddress(a) && a.head != []
    ensures Render(a) == text
  {
    hide Parse4, Close, GroupBytes;
    assert "" + Fields(a.head) == Fields(a.head);
  }

  lemma {:induction false} LeadingColon(text: string, a: Address, b: seq<byte>)
    requires Reads([], -1, text, a, b) && IsAddress(a) && text != "" && text[0] == ':'
    ensures Render(a) == ":" + text
  {
    hide Parse4, Close, GroupBytes;
    if a.head == [] {
      assert "" + ":" + Items(a.tail, a.dotted) == text;
    } else {
      HeadText(text, a, b);
      RenderStart(a);
      assert false;
    }
  }

  lemma {:induction false} OtherStart(text: string, a: Address, b: seq<byte>)
    requires Reads([], -1, text, a, b) && IsAddress(a) && (text == "" || text[0] != ':')
    ensures Render(a) == text
  {
    hide Parse4, Close, GroupBytes;
    if a.head != [] {
      HeadText(text, a, b);
    } else {
      assert a.run ==> text == "" + ":" + Items(a.tail, a.dotted);
    }
  }

  /** inet_pton6 accepts exactly the texts of section 2.2 of RFC 4291, as what they stand for. */
  lemma {:induction false} ParsesExactly(src: string, b: seq<byte>)
    ensures Parse6(src) == Ok(b) <==> exists a :: IsAddress(a) && Render(a) == src && Value6(a) == b
  {
    if Parse6(src) == Ok(b) {
      var a := AcceptedParts(src, b);
    }
    forall a | IsAddress(a) && Render(a) == src && Value6(a) == b
      ensures Parse6(src) == Ok(b)
    {
      Accepts(a);
    }
  }

  // ---------- the code of inet_pton6 ----------

  /** The shift by hand at the end of inet_pton6, source and target overlapping. */
  method Shift(tmp: array<byte>, tp: nat, colonp: nat)
    requires tmp.Length == 16 && colonp <= tp < 16
    requires forall k :: tp <= k < 16 ==> tmp[k] == 0
    modifies tmp
    ensures tmp[..] == old(tmp[..colonp]) + ZeroBytes(16 - tp) + old(tmp[colonp..tp])
  {
    var n := tp - colonp;
    var i := 1;
    while i <= n
      invariant 1 <= i <= n + 1
      invariant forall k :: 0 <= k < tp - (i - 1) ==> tmp[k] == old(tmp[k])
      invariant forall k :: tp - (i - 1) <= k < 16 - (i - 1) ==> tmp[k] == 0
      invariant forall k :: 16 - (i - 1) <= k < 16 ==> tmp[k] == old(tmp[k - (16 - tp)])
    {
      tmp[16 - i] := tmp[colonp + n - i];
      tmp[colonp + n - i] := 0;
      i := i + 1;
    }
  }

  method PutWord(tmp: array<byte>, tp: nat, val: nat) returns (tp': nat)
    requires tmp.Length == 16 && tp + 2 <= 16 && val < 0x1_0000
    requires forall k :: tp <= k < 16 ==> tmp[k] == 0
    modifies tmp
    ensures tp' == tp + 2 && tmp[..tp'] == old(tmp[..tp]) + Pair(val)
    ensures forall k :: tp' <= k < 16 ==> tmp[k] == 0
  {
    tmp[tp], tmp[tp + 1] := val / 0x100 % 0x100, val % 0x100;
    tp' := tp + 2;
    assert tmp[..tp'] == old(tmp[..tp]) + Pair(val);
  }

  method PutV4(tmp: array<byte>, tp: nat, b: seq<byte>) returns (tp': nat)
    requires tmp.Length == 16 && tp + 4 <= 16 && |b| == 4
    requires forall k :: tp <= k < 16 ==> tmp[k] == 0
    modifies tmp
    ensures tp' == tp + 4 && tmp[..tp'] == old(tmp[..tp]) + b
    ensures forall k :: tp' <= k < 16 ==> tmp[k] == 0
  {
    tmp[tp], tmp[tp + 1], tmp[tp + 2], tmp[tp + 3] := b[0], b[1], b[2], b[3];
    tp' := tp + 4;
    assert tmp[..tp'] == old(tmp[..tp]) + b;
  }

  /** inet_pton6 after its loop. */
  method End(tmp: array<byte>, tp0: nat, colonp: int, seen: nat, val: nat) returns (r: Result<seq<byte>>)
    requires tmp.Length == 16 && tp0 <= 16 && ScanOk6(Scan6(tmp[..tp0], colonp, seen, val))
    requires forall k :: tp0 <= k < 16 ==> tmp[k] == 0
    modifies tmp
    ensures r == Finish(old(Scan6(tmp[..tp0], colonp, seen, val)))
  {
    var tp := tp0;
    ghost var out := tmp[..tp0];
    if seen > 0 {
      if tp + 2 > 16 {
        return Einval;
      }
      tp := PutWord(tmp, tp, val);
    }
    out := tmp[..tp];
    if colonp != -1 {
      if tp == 16 {
        return Einval;
      }
      assert tmp[..colonp] == out[..colonp] && tmp[colonp..tp] == out[colonp..];
      Shift(tmp, tp, colonp);
      tp := 16;
    }
    if tp != 16 {
      return Einval;
    }
    r := Ok(tmp[..]);
    assert tmp[..16] == tmp[..];
  }

  lemma {:induction false} PowerFacts()
    ensures Power(0) == 1 && Power(4) == 0x1_0000
    ensures forall n :: 0 <= n < 4 ==> Power(n + 1) == 16 * Power(n) && Power(n) <= 0x1_0000
  {
  }

  /** inet_pton6 */
  method Pton6(src: string) returns (r: Result<seq<byte>>)
    ensures r == Parse6(src)
  {
    hide Parse4, Close, Power;
    PowerFacts();
    var tmp := new byte[16](_ => 0);
    var tp: nat, colonp: int, seen: nat, val: nat, i: nat := 0, -1, 0, 0, 0;
    if src != "" && src[0] == ':' {
      i := 1;
      if |src| == 1 || src[1] != ':' {
        return Einval;
      }
    }
    var curtok: nat := i;
    assert tmp[..0] == [];
    assert src[0..] == src;
    while i < |src|
      invariant i <= |src| && curtok <= |src| && tp <= 16
      invariant ScanOk6(Scan6(tmp[..tp], colonp, seen, val))
      invariant forall k :: tp <= k < 16 ==> tmp[k] == 0
      invariant Parse6(src) == Go(Scan6(tmp[..tp], colonp, seen, val), src[i..], src[curtok..])
    {
      var ch := src[i];
      ghost var s := Scan6(tmp[..tp], colonp, seen, val);
      assert src[i..][1..] == src[i + 1..];
      i := i + 1;
      if HexVal(ch) >= 0 {
        if seen == 4 {
          return Einval;
        }
        val := val * 16 + HexVal(ch);
        seen := seen + 1;
      } else if ch == ':' {
        curtok := i;
        if seen == 0 {
          if colonp != -1 {
            return Einval;
          }
          colonp := tp;
        } else {
          if i == |src| {
            return Einval;
          }
          if tp + 2 > 16 {
            return Einval;
          }
          tp := PutWord(tmp, tp, val);
          seen, val := 0, 0;
        }
      } else if ch == '.' && tp + 4 <= 16 {
        var v4 := Pton4(src[curtok..]);
        if v4.Ok? && |v4.value| == 4 {
          tp := PutV4(tmp, tp, v4.value);
          r := End(tmp, tp, colonp, 0, 0);
          return;
        }
        return Einval;
      } else {
        return Einval;
      }
    }
    assert src[i..] == "";
    r := End(tmp, tp, colonp, seen, val);
  }
}
