/** uv__fs_write_all and uv__fs_preadv: whole vectors through a kernel that transfers any prefix. */
module FsVector {
  type byte = x: nat | x < 256

  /** A uv_buf_t for writing: `len` bytes at `base` of some memory. */
  datatype Buf = Buf(mem: seq<byte>, base: nat, len: nat)

  predicate BufOk(b: Buf) {
    b.base + b.len <= |b.mem|
  }

  predicate BufsOk(bufs: seq<Buf>) {
    forall i :: 0 <= i < |bufs| ==> BufOk(bufs[i])
  }

  function Bytes(b: Buf): seq<byte>
    requires BufOk(b)
  {
    b.mem[b.base..b.base + b.len]
  }

  /** The bytes of a vector of buffers, in order. */
  function Data(bufs: seq<Buf>): seq<byte>
    requires BufsOk(bufs)
  {
    if bufs == [] then [] else Bytes(bufs[0]) + Data(bufs[1..])
  }

  lemma {:induction false} Associate(a: seq<byte>, b: seq<byte>, c: seq<byte>)
    ensures a + (b + c) == a + b + c
  {
  }

  lemma {:induction false} DataCat(a: seq<Buf>, b: seq<Buf>)
    requires BufsOk(a) && BufsOk(b)
    ensures BufsOk(a + b) && Data(a + b) == Data(a) + Data(b)
    decreases |a|
  {
    if a == [] {
      assert a + b == b;
    } else {
      assert (a + b)[1..] == a[1..] + b && (a + b)[0] == a[0];
      DataCat(a[1..], b);
      Associate(Bytes(a[0]), Data(a[1..]), Data(b));
      hide Bytes;
    }
  }

  /** uv__fs_buf_offset on the vector from `start` on: `offset` buffers are done, and what
      is left of the vector are the bytes after the first `size`. */
  method BufOffset(bufs: array<Buf>, start: nat, size0: nat) returns (offset: nat)
    requires start <= bufs.Length && BufsOk(bufs[start..]) && size0 <= |Data(bufs[start..])|
    modifies bufs
    ensures start + offset <= bufs.Length && BufsOk(bufs[start + offset..])
    ensures Data(bufs[start + offset..]) == old(Data(bufs[start..]))[size0..]
    ensures bufs[..start] == old(bufs[..start])
    ensures offset == 0 && size0 > 0 ==> start < bufs.Length
  {
    ghost var left := Data(bufs[start..])[size0..];
    BehindEnds(bufs[start..], size0, left);
    hide Data, BufsOk, Behind;
    var size: nat;
    offset, size := SkipBufs(bufs, start, size0, left);
    if size > 0 {
      Advance(bufs, start + offset, size, left);
    }
    BehindEnds(bufs[start + offset..], 0, left);
  }

  // The loop of uv__fs_buf_offset: buffers that are done.
  method SkipBufs(bufs: array<Buf>, start: nat, size0: nat, ghost left: seq<byte>) returns (offset: nat, size: nat)
    requires start <= bufs.Length && Behind(bufs[start..], size0, left) && (size0 > 0 ==> start < bufs.Length)
    ensures start + offset <= bufs.Length && Behind(bufs[start + offset..], size, left)
    ensures size > 0 ==> start + offset < bufs.Length && size < bufs[start + offset].len
    ensures offset == 0 && size0 > 0 ==> start < bufs.Length
  {
    hide Data, BufsOk, Behind;
    offset, size := 0, size0;
    while size > 0 && bufs[start + offset].len <= size
      invariant start + offset <= bufs.Length && Behind(bufs[start + offset..], size, left)
      invariant size > 0 ==> start + offset < bufs.Length
      decreases bufs.Length - offset
    {
      BehindNext(bufs, start + offset, size, left);
      size := size - bufs[start + offset].len;
      offset := offset + 1;
    }
  }

  /** What is left of the vector, `size` bytes further on. */
  ghost predicate Behind(bufs: seq<Buf>, size: nat, left: seq<byte>) {
    BufsOk(bufs) && size <= |Data(bufs)| && Data(bufs)[size..] == left
  }

  lemma {:induction false} BehindEnds(bufs: seq<Buf>, size: nat, left: seq<byte>)
    ensures BufsOk(bufs) && size <= |Data(bufs)| && left == Data(bufs)[size..] ==>
      Behind(bufs, size, left) && (size > 0 ==> bufs != [])
    ensures Behind(bufs, 0, left) ==> BufsOk(bufs) && Data(bufs) == left
  {
  }

  lemma {:induction false} BehindNext(bufs: array<Buf>, i: nat, size: nat, left: seq<byte>)
    requires i < bufs.Length && Behind(bufs[i..], size, left) && bufs[i].len <= size
    ensures Behind(bufs[i + 1..], size - bufs[i].len, left)
    ensures size - bufs[i].len > 0 ==> i + 1 < bufs.Length
  {
    DropBuf(bufs[i..], size);
    assert bufs[i..][1..] == bufs[i + 1..];
    hide Data;
  }

  lemma {:induction false} SliceAt(bufs: array<Buf>, i: nat, n: nat)
    requires i + n <= bufs.Length
    ensures bufs[i..][..n] == bufs[i..i + n]
  {
  }

  // The buffer that is partly done starts `size` bytes later.
  method Advance(bufs: array<Buf>, i: nat, size: nat, ghost left: seq<byte>)
    requires i < bufs.Length && Behind(bufs[i..], size, left) && size < bufs[i].len
    modifies bufs
    ensures Behind(bufs[i..], 0, left) && bufs[..i] == old(bufs[..i])
  {
    ghost var rest := bufs[i..];
    TrimBuf(rest, size);
    hide Data;
    var b := bufs[i];
    bufs[i] := Buf(b.mem, b.base + size, b.len - size);
    assert bufs[i..] == rest[0 := Buf(b.mem, b.base + size, b.len - size)];
  }

  // A buffer that is done.
  lemma {:induction false} DropBuf(bufs: seq<Buf>, size: nat)
    requires BufsOk(bufs) && bufs != [] && bufs[0].len <= size <= |Data(bufs)|
    ensures size - bufs[0].len <= |Data(bufs[1..])|
    ensures Data(bufs)[size..] == Data(bufs[1..])[size - bufs[0].len..]
    ensures size - bufs[0].len > 0 ==> bufs[1..] != []
  {
  }

  // A buffer that is partly done.
  lemma {:induction false} TrimBuf(bufs: seq<Buf>, size: nat)
    requires BufsOk(bufs) && bufs != [] && size < bufs[0].len
    ensures size <= |Data(bufs)|
    ensures var b := bufs[0]; var bufs' := bufs[0 := Buf(b.mem, b.base + size, b.len - size)];
      BufsOk(bufs') && Data(bufs') == Data(bufs)[size..]
  {
    var b := bufs[0];
    var bufs' := bufs[0 := Buf(b.mem, b.base + size, b.len - size)];
    assert bufs'[1..] == bufs[1..];
    assert b.mem[b.base + size..b.base + b.len] == b.mem[b.base..b.base + b.len][size..];
  }

  /** A file: its bytes by position, and the position of the descriptor. */
  datatype File = File(content: map<int, byte>, pos: int)

  predicate IsPosition(i: int) {
    true
  }

  /** `data` written from position `p` on. */
  function Put(content: map<int, byte>, p: int, data: seq<byte>): map<int, byte> {
    content + map i | p <= i < p + |data| && IsPosition(i) :: data[i - p]
  }

  lemma {:induction false} PutTwice(content: map<int, byte>, p: int, a: seq<byte>, b: seq<byte>)
    ensures Put(Put(content, p, a), p + |a|, b) == Put(content, p, a + b)
  {
  }

  /** uv_fs_t for a write, with the file behind its descriptor. */
  class Request {
    var file: File
    var off: int
    const bufs: array<Buf>
    /** req->bufs, as an index */
    var start: nat
    var nbufs: nat
    /** how often the kernel has written nothing */
    ghost var refusals: nat

    constructor (bufs: array<Buf>, off: int, file: File)
      ensures this.bufs == bufs && this.off == off && this.file == file && start == 0 && nbufs == bufs.Length
    {
      this.bufs, this.off, this.file := bufs, off, file;
      start, nbufs, refusals := 0, bufs.Length, 0;
    }

    /** Where the next byte goes. */
    function Target(): int
      reads this
    {
      if off >= 0 then off else file.pos
    }

    /** uv__fs_write: the kernel writes a prefix of the offered bytes, or nothing. */
    method Write() returns (result: int)
      requires start + nbufs <= bufs.Length && BufsOk(bufs[start..start + nbufs])
      modifies `file, `refusals
      ensures refusals == old(refusals) + if result <= 0 then 1 else 0
      ensures result <= |Data(bufs[start..start + nbufs])|
      ensures result <= 0 ==> file == old(file)
      ensures result > 0 ==>
        && file.content == Put(old(file.content), old(Target()), Data(bufs[start..start + nbufs])[..result])
        && file.pos == if off < 0 then old(file.pos) + result else old(file.pos)
    {
      ghost var data := Data(bufs[start..start + nbufs]);
      result := *;
      var offered := ToBytes();
      if result > |offered| {
        result := |offered|;
      }
      if result > 0 {
        file := File(Put(file.content, Target(), offered[..result]), if off < 0 then file.pos + result else file.pos);
      } else {
        refusals := refusals + 1;
      }
    }

    method ToBytes() returns (data: seq<byte>)
      requires start + nbufs <= bufs.Length && BufsOk(bufs[start..start + nbufs])
      ensures data == Data(bufs[start..start + nbufs])
    {
      data := Data(bufs[start..start + nbufs]);
    }

    /** uv__fs_write_all: the first `total` bytes of the buffers, contiguously from the start
        position on, and nothing else; all of them unless the kernel refuses. */
    method WriteAll(iovmax: nat) returns (total: int)
      requires iovmax > 0 && start == 0 && nbufs == bufs.Length && BufsOk(bufs[..])
      modifies this, bufs
      ensures total <= |old(Data(bufs[..]))|
      ensures refusals == old(refusals) ==> total == |old(Data(bufs[..]))|
      ensures total <= 0 ==> file == old(file)
      ensures total > 0 ==> file.content == Put(old(file.content), old(Target()), old(Data(bufs[..]))[..total])
      ensures total > 0 ==> if old(off) >= 0 then off == old(off) + total else file.pos == old(file.pos) + total
    {
      ghost var all, p, c := Data(bufs[..]), Target(), file.content;
      assert bufs[0..] == bufs[..] && all[0..] == all;
      PutNothing(c, p);
      hide Put, Data, Writing, Target;
      ghost var n;
      total, n := WriteLoop(iovmax, all, p, c);
      WritingFacts(all, p, c, if total > 0 then total else 0, n);
      start, nbufs := 0, 0;
    }

    // The loop of uv__fs_write_all.
    method WriteLoop(iovmax: nat, ghost all: seq<byte>, ghost p: int, ghost c: map<int, byte>)
      returns (total: int, ghost left: nat)
      requires iovmax > 0 && Writing(all, p, c, 0, nbufs)
      modifies this, bufs
      ensures off >= 0 <==> old(off) >= 0
      ensures total <= 0 ==> file == old(file)
      ensures Writing(all, p, c, if total > 0 then total else 0, left)
      ensures refusals == old(refusals) ==> left == 0 && total >= 0
    {
      hide Writing;
      var n: nat := nbufs;
      total := 0;
      while n > 0
        invariant total >= 0 && Writing(all, p, c, total, n) && (off >= 0 <==> old(off) >= 0)
        invariant (total == 0 ==> file == old(file)) && refusals == old(refusals)
        decreases |all| - total, n
      {
        var result := Turn(iovmax, n, all, p, c, total);
        if result <= 0 {
          if total == 0 {
            total := result;
          }
          break;
        }
        n := n - nbufs;
        total := total + result;
      }
      left := n;
    }

    lemma {:induction false} WritingFacts(all: seq<byte>, p: int, c: map<int, byte>, done: nat, n: nat)
      requires Writing(all, p, c, done, n)
      ensures done <= |all| && file.content == Put(c, p, all[..done])
      ensures n == 0 ==> done == |all|
      ensures if off >= 0 then off == p + done else file.pos == p + done
    {
    }

    /** After `done` bytes: they are in the file, and the others are left in the vector. */
    ghost predicate Writing(all: seq<byte>, p: int, c: map<int, byte>, done: nat, n: nat)
      reads this, bufs
    {
      && start + n == bufs.Length && BufsOk(bufs[start..])
      && done <= |all| && Data(bufs[start..]) == all[done..]
      && Target() == p + done && file.content == Put(c, p, all[..done])
    }

    // One turn of the loop of uv__fs_write_all.
    method Turn(iovmax: nat, n: nat, ghost all: seq<byte>, ghost p: int, ghost c: map<int, byte>, ghost done: nat)
      returns (result: int)
      requires iovmax > 0 && n > 0 && Writing(all, p, c, done, n)
      modifies this, bufs
      ensures (off >= 0 <==> old(off) >= 0) && refusals == old(refusals) + if result <= 0 then 1 else 0
      ensures result <= 0 ==> file == old(file) && Writing(all, p, c, done, n)
      ensures result > 0 ==> done + result <= |all| && nbufs <= n && Writing(all, p, c, done + result, n - nbufs)
    {
      hide Put, Data, BufsOk;
      nbufs := if n > iovmax then iovmax else n;
      Offered(bufs[start..], nbufs);
      SliceAt(bufs, start, nbufs);
      result := Write();
      if result <= 0 {
        return;
      }
      Progress(c, p, all, done, result);
      Prefix(all[done..], Data(bufs[start..start + nbufs]), result);
      if off >= 0 {
        off := off + result;
      }
      nbufs := BufOffset(bufs, start, result);
      start := start + nbufs;
    }
  }

  lemma {:induction false} Prefix(all: seq<byte>, data: seq<byte>, k: nat)
    requires k <= |data| <= |all| && data == all[..|data|]
    ensures data[..k] == all[..k]
  {
  }

  lemma {:induction false} PutNothing(content: map<int, byte>, p: int)
    ensures forall all: seq<byte> :: Put(content, p, all[..0]) == content
  {
  }

  // What the kernel is offered comes first in the vector.
  lemma {:induction false} Offered(bufs: seq<Buf>, k: nat)
    requires BufsOk(bufs) && k <= |bufs|
    ensures BufsOk(bufs[..k]) && |Data(bufs[..k])| <= |Data(bufs)|
    ensures Data(bufs[..k]) == Data(bufs)[..|Data(bufs[..k])|]
  {
    DataCat(bufs[..k], bufs[k..]);
    assert bufs == bufs[..k] + bufs[k..];
  }

  // One more piece.
  lemma {:induction false} Progress(c: map<int, byte>, p: int, all: seq<byte>, total: nat, result: nat)
    requires total + result <= |all|
    ensures Put(Put(c, p, all[..total]), p + total, all[total..][..result]) == Put(c, p, all[..total + result])
    ensures all[total..][result..] == all[total + result..]
  {
    hide Put;
    Pieces(all, total, result);
    PutTwice(c, p, all[..total], all[total..][..result]);
  }

  lemma {:induction false} Pieces(all: seq<byte>, i: nat, k: nat)
    requires i + k <= |all|
    ensures all[..i] + all[i..][..k] == all[..i + k] && |all[..i]| == i
    ensures all[i..][k..] == all[i + k..]
  {
  }

  // ---------- reading ----------

  /** The contents of a vector of buffers. */
  function Flat(mem: seq<seq<byte>>): seq<byte> {
    if mem == [] then [] else mem[0] + Flat(mem[1..])
  }

  lemma {:induction false} FlatCat(a: seq<seq<byte>>, b: seq<seq<byte>>)
    ensures Flat(a + b) == Flat(a) + Flat(b)
    decreases |a|
  {
    if a == [] {
      assert a + b == b;
    } else {
      assert (a + b)[1..] == a[1..] + b && (a + b)[0] == a[0];
      FlatCat(a[1..], b);
      Associate(a[0], Flat(a[1..]), Flat(b));
    }
  }

  /** Overwrite from position `i` on. */
  function Over(s: seq<byte>, i: nat, data: seq<byte>): (r: seq<byte>)
    requires i + |data| <= |s|
    ensures |r| == |s|
  {
    s[..i] + data + s[i + |data|..]
  }

  lemma {:induction false} OverInside(a: seq<byte>, s: seq<byte>, c: seq<byte>, i: nat, data: seq<byte>)
    requires i + |data| <= |s|
    ensures a + Over(s, i, data) + c == Over(a + s + c, |a| + i, data)
  {
  }

  lemma {:induction false} FlatSplit(mem: seq<seq<byte>>, k: nat)
    requires k < |mem|
    ensures Flat(mem) == Flat(mem[..k]) + mem[k] + Flat(mem[k + 1..])
  {
    assert mem == mem[..k] + mem[k..] && mem[k..][1..] == mem[k + 1..];
    FlatCat(mem[..k], mem[k..]);
    assert Flat(mem[..k]) + (mem[k] + Flat(mem[k + 1..])) == Flat(mem[..k]) + mem[k] + Flat(mem[k + 1..]);
  }

  // A write into one buffer, seen from the whole vector.
  lemma {:induction false} FlatWrite(mem: seq<seq<byte>>, k: nat, pos: nat, data: seq<byte>)
    requires k < |mem| && pos + |data| <= |mem[k]|
    ensures |Flat(mem[..k])| + pos + |data| <= |Flat(mem)|
    ensures Flat(mem[k := Over(mem[k], pos, data)]) == Over(Flat(mem), |Flat(mem[..k])| + pos, data)
  {
    var mem' := mem[k := Over(mem[k], pos, data)];
    FlatSplit(mem, k);
    FlatSplit(mem', k);
    assert mem'[..k] == mem[..k] && mem'[k + 1..] == mem[k + 1..];
    OverInside(Flat(mem[..k]), mem[k], Flat(mem[k + 1..]), pos, data);
  }

  /** The first `n` bytes of `s` come from `data`. */
  predicate Filled(s: seq<byte>, s0: seq<byte>, data: seq<byte>) {
    |data| <= |s0| && s == data + s0[|data|..]
  }

  lemma {:induction false} FillMore(s: seq<byte>, s0: seq<byte>, a: seq<byte>, b: seq<byte>)
    requires Filled(s, s0, a) && |a| + |b| <= |s|
    ensures Filled(Over(s, |a|, b), s0, a + b)
  {
  }

  /** A reading request on a file with the given contents. */
  class Reader {
    const file: seq<byte>
    var mem: seq<seq<byte>>
    /** how often the kernel has read nothing */
    ghost var refusals: nat

    constructor (file: seq<byte>, mem: seq<seq<byte>>)
      ensures this.file == file && this.mem == mem
    {
      this.file, this.mem, refusals := file, mem, 0;
    }

    /** pread into buffer `k` at `pos`: any number of bytes that are there and fit, or an error. */
    method Pread(k: nat, pos: nat, at: nat) returns (rc: int)
      requires k < |mem| && pos <= |mem[k]|
      modifies this
      ensures refusals == old(refusals) + if rc <= 0 then 1 else 0
      ensures rc <= 0 ==> mem == old(mem)
      ensures rc > 0 ==> pos + rc <= |old(mem)[k]| && at + rc <= |file|
      ensures rc > 0 ==> mem == old(mem)[k := Over(old(mem)[k], pos, file[at..at + rc])]
    {
      rc := *;
      if rc > |mem[k]| - pos {
        rc := |mem[k]| - pos;
      }
      if at + rc > |file| {
        rc := if at > |file| then 0 else |file| - at;
      }
      if rc > 0 {
        mem := mem[k := Over(mem[k], pos, file[at..at + rc])];
      } else {
        refusals := refusals + 1;
      }
    }

    /** `got` is in place, up to position `pos` of buffer `buf`. */
    ghost predicate Reading(s0: seq<byte>, got: seq<byte>, buf: nat, pos: nat)
      reads this
    {
      buf <= |mem| && |Flat(mem[..buf])| + pos == |got| && Filled(Flat(mem), s0, got)
    }

    lemma {:induction false} ReadingStart()
      ensures Reading(Flat(mem), [], 0, 0)
    {
      FillNone(Flat(mem));
      FlatNone(mem);
    }

    lemma {:induction false} ReadingNext(s0: seq<byte>, got: seq<byte>, buf: nat, pos: nat)
      requires buf < |mem| && Reading(s0, got, buf, pos) && pos == |mem[buf]|
      ensures Reading(s0, got, buf + 1, 0)
    {
      NextBuffer(mem, buf);
    }

    lemma {:induction false} ReadingFilled(s0: seq<byte>, got: seq<byte>, buf: nat, pos: nat)
      requires Reading(s0, got, buf, pos)
      ensures Filled(Flat(mem), s0, got)
    {
    }

    lemma {:induction false} ReadingFull(s0: seq<byte>, got: seq<byte>, buf: nat, pos: nat)
      requires Reading(s0, got, buf, pos)
      ensures buf == |mem| && pos == 0 ==> |got| == |Flat(mem)|
    {
      assert mem[..|mem|] == mem;
    }

    /** The first `n` bytes of the file from `off` on. */
    ghost function Got(off: nat, n: nat): (r: seq<byte>)
      requires n == 0 || off + n <= |file|
      ensures |r| == n
    {
      if n == 0 then [] else file[off..off + n]
    }

    // One successful read, or none.
    method Chunk(buf: nat, pos: nat, off: nat, result: nat, ghost s0: seq<byte>) returns (rc: int)
      requires buf < |mem| && pos <= |mem[buf]| && (result == 0 || off + result <= |file|)
      requires Reading(s0, Got(off, result), buf, pos)
      modifies this
      ensures |mem| == |old(mem)| && |mem[buf]| == |old(mem)[buf]|
      ensures refusals == old(refusals) + if rc <= 0 then 1 else 0
      ensures rc <= 0 ==> mem == old(mem) && Reading(s0, Got(off, result), buf, pos)
      ensures rc > 0 ==> pos + rc <= |mem[buf]| && off + result + rc <= |file|
      ensures rc > 0 ==> Reading(s0, Got(off, result + rc), buf, pos + rc)
    {
      hide Over, Filled, Flat;
      ghost var mem0 := mem;
      rc := Pread(buf, pos, off + result);
      if rc > 0 {
        ghost var data := file[off + result..off + result + rc];
        FlatWrite(mem0, buf, pos, data);
        FillMore(Flat(mem0), s0, Got(off, result), data);
        Continued(file, off, result, rc);
        assert mem[..buf] == mem0[..buf];
      }
    }

    // On to the next buffer when this one is full.
    method Advance(buf: nat, pos: nat, ghost s0: seq<byte>, ghost got: seq<byte>) returns (buf': nat, pos': nat)
      requires buf < |mem| && pos <= |mem[buf]| && Reading(s0, got, buf, pos)
      ensures Reading(s0, got, buf', pos') && buf' <= |mem|
      ensures if pos < |mem[buf]| then buf' == buf && pos' == pos else buf' == buf + 1 && pos' == 0
    {
      if pos < |mem[buf]| {
        return buf, pos;
      }
      ReadingNext(s0, got, buf, pos);
      return buf + 1, 0;
    }

    /** uv__fs_preadv: the buffers hold exactly the first `result` bytes of the file from
        `off` on, and behind them what they held before; they are full unless a read returns
        nothing. */
    method Preadv(off: nat) returns (result: int)
      requires mem != []
      modifies this
      ensures refusals == old(refusals) ==> result == |Flat(mem)|
      ensures result < 0 ==> mem == old(mem)
      ensures result > 0 ==> off + result <= |file|
      ensures result >= 0 ==> Filled(Flat(mem), Flat(old(mem)), Got(off, result))
    {
      ReadingStart();
      ghost var s0 := Flat(mem);
      hide Over, Filled, Flat, Reading, Got;
      ghost var buf, pos;
      result, buf, pos := ReadLoop(off, s0);
      if result >= 0 {
        ReadingFilled(s0, Got(off, result), buf, pos);
        ReadingFull(s0, Got(off, result), buf, pos);
      }
    }

    // The loop of uv__fs_preadv.
    method ReadLoop(off: nat, ghost s0: seq<byte>) returns (result: int, ghost buf': nat, ghost pos': nat)
      requires mem != [] && Reading(s0, [], 0, 0)
      modifies this
      ensures result < 0 ==> mem == old(mem)
      ensures result > 0 ==> off + result <= |file|
      ensures result >= 0 ==> Reading(s0, Got(off, result), buf', pos')
      ensures refusals == old(refusals) ==> result >= 0 && buf' == |mem| && pos' == 0
    {
      hide Over, Filled, Flat, Reading;
      result := 0;
      var pos: nat, buf: nat := 0, 0;
      buf', pos' := 0, 0;
      while true
        invariant buf < |mem| && pos <= |mem[buf]| && result >= 0 && (result == 0 ==> mem == old(mem))
        invariant refusals == old(refusals)
        invariant (result == 0 || off + result <= |file|) && Reading(s0, Got(off, result), buf, pos)
        decreases |mem| - buf, |mem[buf]| - pos
      {
        var rc := Chunk(buf, pos, off, result, s0);
        if rc <= 0 {
          if rc < 0 && result == 0 {
            return rc, buf, pos;
          }
          return result, buf, pos;
        }
        result := result + rc;
        buf, pos := Advance(buf, pos + rc, s0, Got(off, result));
        if buf == |mem| {
          return result, buf, pos;
        }
      }
    }
  }

  lemma {:induction false} FillNone(s: seq<byte>)
    ensures Filled(s, s, [])
  {
  }

  lemma {:induction false} FlatNone(mem: seq<seq<byte>>)
    ensures mem[..0] == [] && Flat(mem[..0]) == []
  {
  }

  lemma {:induction false} Continued(file: seq<byte>, off: nat, i: nat, k: nat)
    requires off + i + k <= |file|
    ensures (if i == 0 then [] else file[off..off + i]) + file[off + i..off + i + k] == file[off..off + i + k]
  {
  }

  lemma {:induction false} NextBuffer(mem: seq<seq<byte>>, k: nat)
    requires k < |mem|
    ensures |Flat(mem[..k + 1])| == |Flat(mem[..k])| + |mem[k]|
  {
    assert mem[..k + 1] == mem[..k] + [mem[k]];
    FlatCat(mem[..k], [mem[k]]);
    assert Flat([mem[k]]) == mem[k] + Flat([mem[k]][1..]);
  }
}
