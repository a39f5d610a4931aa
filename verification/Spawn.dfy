/** The descriptor shuffle of uv__process_child_init: a parallel move by two sequential loops. */
module Spawn {

  /** An entry of the descriptor table: an open file description and the close-on-exec flag. */
  datatype Desc = Desc(file: nat, cloexec: bool)

  /** The open file description of /dev/null; different calls of open() share the number. */
  const DEV_NULL: nat := 0

  predicate IsOpen(t: map<nat, Desc>, fd: int) {
    fd >= 0 && var n: nat := fd; n in t
  }

  function FileOf(t: map<nat, Desc>, fd: int): nat
    requires IsOpen(t, fd)
  {
    var n: nat := fd;
    t[n].file
  }

  /** Every requested source is open. */
  ghost predicate SourcesOpen(t: map<nat, Desc>, pipes: seq<int>) {
    forall i :: 0 <= i < |pipes| && pipes[i] >= 0 ==> IsOpen(t, pipes[i])
  }

  /** The descriptor table of the child.  All calls succeed. */
  class Table {
    var fds: map<nat, Desc>

    constructor (t: map<nat, Desc>)
      ensures fds == t
    {
      fds := t;
    }

    /** The lowest free number from `least` on. */
    method LowestFree(least: nat) returns (n: nat)
      ensures n >= least && n !in fds && forall k: nat :: least <= k < n ==> k in fds
    {
      n := least;
      while n in fds
        invariant n >= least && forall k: nat :: least <= k < n ==> k in fds
        decreases |set k: nat | k in fds && k >= n|
      {
        ghost var before, after := set k: nat | k in fds && k >= n, set k: nat | k in fds && k >= n + 1;
        assert after == before - {n};
        n := n + 1;
      }
    }

    /** fcntl(F_DUPFD_CLOEXEC) */
    method DupCloexec(fd: nat, least: nat) returns (n: nat)
      requires fd in fds
      modifies this
      ensures n >= least && n !in old(fds) && fds == old(fds)[n := Desc(old(fds)[fd].file, true)]
    {
      n := LowestFree(least);
      fds := fds[n := Desc(fds[fd].file, true)];
    }

    /** dup2; the flag is clear on the new descriptor. */
    method Dup2(from: nat, fd: nat)
      requires from in fds && from != fd
      modifies this
      ensures fds == old(fds)[fd := Desc(old(fds)[from].file, false)]
    {
      fds := fds[fd := Desc(fds[from].file, false)];
    }

    method ClearCloexec(fd: nat)
      requires fd in fds
      modifies this
      ensures fds == old(fds)[fd := Desc(old(fds)[fd].file, false)]
    {
      fds := fds[fd := Desc(fds[fd].file, false)];
    }

    /** close; nothing happens if the descriptor is not open. */
    method Close(fd: nat)
      modifies this
      ensures fds == old(fds) - {fd}
    {
      fds := fds - {fd};
    }

    /** open("/dev/null") takes the lowest free number. */
    method OpenNull() returns (n: nat)
      modifies this
      ensures n !in old(fds) && (forall k: nat :: k < n ==> k in old(fds))
      ensures fds == old(fds)[n := Desc(DEV_NULL, false)]
    {
      n := LowestFree(0);
      fds := fds[n := Desc(DEV_NULL, false)];
    }

    /** The first loop: sources that a later step could overwrite move out of the way. */
    method MoveLowSources(pipes: array<int>)
      requires SourcesOpen(fds, pipes[..])
      modifies this, pipes
      ensures forall fd :: 0 <= fd < pipes.Length ==>
        (pipes[fd] < 0 <==> old(pipes[fd]) < 0) &&
        (pipes[fd] >= 0 ==> pipes[fd] >= fd && IsOpen(fds, pipes[fd]) && FileOf(fds, pipes[fd]) == FileOf(old(fds), old(pipes[fd])))
      ensures forall fd: nat :: fd in old(fds) ==> fd in fds && fds[fd] == old(fds)[fd]
      ensures forall fd: nat :: fd in fds && fd !in old(fds) ==> fd >= pipes.Length && fds[fd].cloexec
    {
      ghost var t := fds;
      assert forall i :: 0 <= i < pipes.Length && pipes[i] >= 0 ==> IsOpen(t, pipes[..][i]);
      var fd := 0;
      while fd < pipes.Length
        invariant fd <= pipes.Length
        invariant forall i :: fd <= i < pipes.Length ==> pipes[i] == old(pipes[i])
        invariant forall i :: 0 <= i < fd ==>
          (pipes[i] < 0 <==> old(pipes[i]) < 0) &&
          (pipes[i] >= 0 ==> pipes[i] >= i && IsOpen(fds, pipes[i]) && FileOf(fds, pipes[i]) == FileOf(t, old(pipes[i])))
        invariant forall k: nat :: k in t ==> k in fds && fds[k] == t[k]
        invariant forall k: nat :: k in fds && k !in t ==> k >= pipes.Length && fds[k].cloexec
      {
        var useFd := pipes[fd];
        if useFd >= 0 && useFd < fd {
          var n := DupCloexec(useFd, pipes.Length);
          pipes[fd] := n;
        }
        fd := fd + 1;
      }
    }

    /** One turn of the second loop.  With the lower standard streams open, open() gives back
        the number that close() has freed. */
    method Place(fd: nat, useFd0: int, stdioCount: nat)
      requires fd < stdioCount && (useFd0 >= 0 ==> useFd0 >= fd && IsOpen(fds, useFd0))
      requires fd < 3 ==> forall i: nat :: i < fd ==> i in fds
      modifies this
      ensures fds == Placed(old(fds), fd, useFd0)
    {
      var closeFd, useFd := -1, useFd0;
      if useFd < 0 {
        if fd >= 3 {
          return;
        }
        Close(fd);
        useFd := OpenNull();
        closeFd := useFd;
      }
      if fd == useFd {
        if closeFd == -1 {
          ClearCloexec(useFd);
        }
      } else {
        Dup2(useFd, fd);
      }
      // The spare descriptor is never above stdio_count, so there is nothing to close.
      assert closeFd < stdioCount;
    }

    /** Both loops: a parallel move, for any sources, swaps and cycles included. */
    method ChildInit(pipes: array<int>)
      requires SourcesOpen(fds, pipes[..])
      modifies this, pipes
      ensures Shuffled(fds, old(fds), old(pipes[..]))
    {
      ghost var t, src := fds, pipes[..];
      assert forall i :: 0 <= i < |src| && src[i] >= 0 ==> IsOpen(t, src[i]);
      MoveLowSources(pipes);
      var fd := 0;
      HalfStart(fds, t, src, pipes[..]);
      hide Half, IsOpen, FileOf, Placed;
      while fd < pipes.Length
        invariant fd <= pipes.Length && Half(fds, t, src, pipes[..], fd)
      {
        HalfStep(fds, t, src, pipes[..], fd);
        Place(fd, pipes[fd], pipes.Length);
        fd := fd + 1;
      }
      HalfEnd(fds, t, src, pipes[..]);
    }
  }

  /** What one turn of the second loop makes of the table. */
  ghost function Placed(fds: map<nat, Desc>, fd: nat, useFd: int): map<nat, Desc>
    requires useFd >= 0 ==> IsOpen(fds, useFd)
  {
    if useFd >= 0 then fds[fd := Desc(FileOf(fds, useFd), false)]
    else if fd < 3 then fds[fd := Desc(DEV_NULL, false)]
    else fds
  }

  /** The state before turn `fd` of the second loop: lower descriptors are final, and the
      sources of the others are still in place, at `fd` or above. */
  ghost predicate Half(fds: map<nat, Desc>, t: map<nat, Desc>, src: seq<int>, cur: seq<int>, fd: nat)
    requires SourcesOpen(t, src)
  {
    && |cur| == |src| && fd <= |src|
    && (forall i :: 0 <= i < |src| ==> (cur[i] < 0 <==> src[i] < 0))
    && (forall i :: fd <= i < |src| && cur[i] >= 0 ==>
          cur[i] >= i && IsOpen(fds, cur[i]) && FileOf(fds, cur[i]) == FileOf(t, src[i]))
    && (forall i: nat :: i < fd && src[i] >= 0 ==> i in fds && fds[i] == Desc(FileOf(t, src[i]), false))
    && (forall i: nat :: i < fd && src[i] < 0 && i < 3 ==> i in fds && fds[i] == Desc(DEV_NULL, false))
    && (forall i: nat :: i < fd && src[i] < 0 && i >= 3 ==> (i in fds <==> i in t) && (i in t ==> fds[i] == t[i]))
    && (forall i: nat :: i >= fd && i in t ==> i in fds && fds[i] == t[i])
    && (forall i: nat :: i >= fd && i in fds && i !in t ==> i >= |src| && fds[i].cloexec)
  }

  lemma {:induction false} HalfStart(fds: map<nat, Desc>, t: map<nat, Desc>, src: seq<int>, cur: seq<int>)
    requires SourcesOpen(t, src) && |cur| == |src|
    requires forall i :: 0 <= i < |src| ==>
      (cur[i] < 0 <==> src[i] < 0) &&
      (cur[i] >= 0 ==> cur[i] >= i && IsOpen(fds, cur[i]) && FileOf(fds, cur[i]) == FileOf(t, src[i]))
    requires forall k: nat :: k in t ==> k in fds && fds[k] == t[k]
    requires forall k: nat :: k in fds && k !in t ==> k >= |src| && fds[k].cloexec
    ensures Half(fds, t, src, cur, 0)
  {
  }

  lemma {:induction false} HalfStep(fds: map<nat, Desc>, t: map<nat, Desc>, src: seq<int>, cur: seq<int>, fd: nat)
    requires SourcesOpen(t, src) && Half(fds, t, src, cur, fd) && fd < |cur|
    ensures cur[fd] >= 0 ==> cur[fd] >= fd && IsOpen(fds, cur[fd])
    ensures fd < 3 ==> forall i: nat :: i < fd ==> i in fds
    ensures Half(Placed(fds, fd, cur[fd]), t, src, cur, fd + 1)
  {
  }

  lemma {:induction false} HalfEnd(fds: map<nat, Desc>, t: map<nat, Desc>, src: seq<int>, cur: seq<int>)
    requires SourcesOpen(t, src) && Half(fds, t, src, cur, |src|)
    ensures Shuffled(fds, t, src)
  {
  }

  /** What a child must find: its requested files, /dev/null in place of unrequested
      standard streams, and everything else as it was or marked close-on-exec. */
  ghost predicate Shuffled(fds: map<nat, Desc>, t: map<nat, Desc>, pipes: seq<int>)
    requires SourcesOpen(t, pipes)
  {
    && (forall fd: nat :: fd < |pipes| && pipes[fd] >= 0 ==> fd in fds && fds[fd] == Desc(FileOf(t, pipes[fd]), false))
    && (forall fd: nat :: fd < |pipes| && pipes[fd] < 0 && fd < 3 ==> fd in fds && fds[fd] == Desc(DEV_NULL, false))
    && (forall fd: nat :: fd < |pipes| && pipes[fd] < 0 && fd >= 3 ==> (fd in fds <==> fd in t))
    && (forall fd: nat :: fd < |pipes| && pipes[fd] < 0 && fd >= 3 && fd in t ==> fds[fd] == t[fd])
    && (forall fd: nat :: fd >= |pipes| && fd in t ==> fd in fds && fds[fd] == t[fd])
    && (forall fd: nat :: fd >= |pipes| && fd in fds && fd !in t ==> fds[fd].cloexec)
  }
}
