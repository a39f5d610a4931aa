/** The array of pollfd entries of posix-poll.c: a set that shrinks by swapping with its last entry. */
module PollFds {
  import opened IoWatchers

  datatype Entry = Entry(fd: int, events: set<Flag>)

  /** -1 marks an entry whose descriptor was invalidated during a pass. */
  ghost predicate Distinct(s: seq<Entry>) {
    forall i, j :: 0 <= i < j < |s| && s[i].fd == s[j].fd ==> s[i].fd == -1
  }

  /** `s'` holds the entries of `s` except those of `fd`, and `extra`. */
  ghost predicate Swapped(s: seq<Entry>, s': seq<Entry>, fd: int, extra: seq<Entry>) {
    forall e: Entry :: e in s' <==> (e in s && e.fd != fd) || e in extra
  }

  /** What uv__platform_invalidate_fd leaves during a pass: the entries of `fd` are void. */
  function Marked(s: seq<Entry>, fd: int): seq<Entry> {
    seq(|s|, i requires 0 <= i < |s| => if s[i].fd == fd then Entry(-1, {}) else s[i])
  }

  class Table {
    var fds: array<Entry>
    var used: nat
    var iterating: bool

    ghost predicate Valid()
      reads this, fds
    {
      used <= fds.Length && Distinct(fds[..used])
    }

    ghost function Entries(): seq<Entry>
      reads this, fds
      requires used <= fds.Length
    {
      fds[..used]
    }

    constructor ()
      ensures Valid() && Entries() == [] && fresh(fds) && !iterating
    {
      fds := new Entry[0];
      used, iterating := 0, false;
    }

    /** uv__pollfds_maybe_resize */
    method MaybeResize()
      requires Valid()
      modifies `fds
      ensures Valid() && used < fds.Length && Entries() == old(Entries()) && used == old(used)
      ensures fds == old(fds) || fresh(fds)
    {
      if used < fds.Length {
        return;
      }
      var n := if fds.Length != 0 then fds.Length * 2 else 64;
      var p := new Entry[n](_ => Entry(-1, {}));
      var i: nat := 0;
      while i < fds.Length
        invariant fds == old(fds) && used == old(used) && fds[..] == old(fds[..])
        invariant i <= fds.Length <= n && p[..i] == fds[..i]
      {
        p[i] := fds[i];
        i := i + 1;
      }
      fds := p;
    }

    /** uv__pollfds_add: afterwards the descriptor has exactly one entry, with these events. */
    method Add(fd: int, events: set<Flag>)
      requires Valid() && fd >= 0 && !iterating
      modifies `fds, `used, fds
      ensures Valid() && Swapped(old(Entries()), Entries(), fd, [Entry(fd, events)])
      ensures fds == old(fds) || fresh(fds)
    {
      ghost var s := Entries();
      var i: nat := 0;
      while i < used
        invariant i <= used && fds == old(fds) && used == old(used) && Entries() == s
        invariant forall k :: 0 <= k < i ==> fds[k].fd != fd
      {
        if fds[i].fd == fd {
          UpdateEntry(s, i, events);
          fds[i] := Entry(fd, events);
          assert Entries() == s[i := Entry(fd, events)];
          return;
        }
        i := i + 1;
      }
      AppendEntry(s, Entry(fd, events));
      MaybeResize();
      fds[used] := Entry(fd, events);
      used := used + 1;
      assert Entries() == s + [Entry(fd, events)];
    }

    // Swap the entry with the last one and shrink.
    method SwapOut(i: nat)
      requires i < used <= fds.Length
      modifies `used, fds
      ensures used == old(used) - 1 && fds[..used] == Dropped(old(fds[..used]), i) && fds == old(fds)
      ensures i < used ==> fds[i] == old(fds[used - 1])
      ensures forall k :: 0 <= k < i ==> fds[k] == old(fds[k])
    {
      used := used - 1;
      fds[i], fds[used] := fds[used], fds[i];
      fds[used] := Entry(-1, {});
    }

    /** uv__pollfds_del: afterwards the descriptor has no entry; -1 purges all invalidated ones. */
    method Del(fd: int)
      requires Valid() && fd >= -1 && !iterating
      modifies `used, fds
      ensures Valid() && Swapped(old(Entries()), Entries(), fd, []) && fds == old(fds)
    {
      ghost var s := Entries();
      var i: nat := 0;
      while i < used
        invariant i <= used <= fds.Length && Distinct(fds[..used]) && fds == old(fds)
        invariant forall k :: 0 <= k < i ==> fds[k].fd != fd
        invariant forall e: Entry :: e.fd != fd ==> (e in fds[..used] <==> e in s)
        invariant fd != -1 ==> fds[..used] == s
        invariant forall e: Entry :: e in fds[..used] ==> e in s
        decreases used - i
      {
        if fds[i].fd == fd {
          DropEntry(fds[..used], i);
          SwapOut(i);
          if fd != -1 {
            return;
          }
        } else {
          i := i + 1;
        }
      }
    }

    /** uv__platform_invalidate_fd */
    method Invalidate(fd: int)
      requires Valid() && fd >= 0
      modifies `used, fds
      ensures Valid() && fds == old(fds)
      ensures if iterating then used == old(used) && Entries() == Marked(old(Entries()), fd)
              else Swapped(old(Entries()), Entries(), fd, [])
    {
      if iterating {
        ghost var s := Entries();
        var i: nat := 0;
        while i < used
          invariant i <= used <= fds.Length && fds == old(fds) && used == old(used) && |s| == used
          invariant fds[..i] == Marked(s, fd)[..i] && fds[i..used] == s[i..]
        {
          ghost var t := fds[..used];
          assert fds[i] == t[i] == t[i..][0] == s[i];
          if fds[i].fd == fd {
            fds[i] := Entry(-1, {});
          }
          assert fds[i] == Marked(s, fd)[i];
          assert fds[..i + 1] == Marked(s, fd)[..i + 1];
          assert fds[i + 1..used] == t[i + 1..] == s[i + 1..];
          i := i + 1;
        }
        assert Entries() == Marked(s, fd);
        MarkedDistinct(s, fd);
      } else {
        Del(fd);
      }
    }
  }

  lemma {:induction false} MarkedDistinct(s: seq<Entry>, fd: int)
    requires Distinct(s)
    ensures Distinct(Marked(s, fd))
  {
  }

  // A changed entry.
  lemma {:induction false} UpdateEntry(s: seq<Entry>, i: nat, events: set<Flag>)
    requires i < |s| && Distinct(s) && s[i].fd >= 0
    ensures var s' := s[i := Entry(s[i].fd, events)]; Distinct(s') && Swapped(s, s', s[i].fd, [Entry(s[i].fd, events)])
  {
    var fd := s[i].fd;
    var s' := s[i := Entry(fd, events)];
    forall e: Entry
      ensures e in s' <==> (e in s && e.fd != fd) || e == Entry(fd, events)
    {
      if e in s && e.fd != fd {
        var k :| 0 <= k < |s| && s[k] == e;
        assert s'[k] == e;
      }
      assert s'[i] == Entry(fd, events);
    }
  }

  lemma {:induction false} AppendEntry(s: seq<Entry>, e: Entry)
    requires Distinct(s) && forall k :: 0 <= k < |s| ==> s[k].fd != e.fd
    ensures Distinct(s + [e]) && Swapped(s, s + [e], e.fd, [e])
  {
  }

  /** The last entry in the place of entry `i`. */
  ghost function Dropped(s: seq<Entry>, i: nat): seq<Entry>
    requires i < |s|
  {
    s[i := s[|s| - 1]][..|s| - 1]
  }

  lemma {:induction false} DropEntry(s: seq<Entry>, i: nat)
    requires i < |s| && Distinct(s)
    ensures Distinct(Dropped(s, i))
    ensures forall e: Entry :: e in Dropped(s, i) ==> e in s
    ensures forall e: Entry :: e in s && e.fd != s[i].fd ==> e in Dropped(s, i)
    ensures s[i].fd != -1 ==> forall e: Entry :: e in Dropped(s, i) ==> e.fd != s[i].fd
  {
    var t, n := Dropped(s, i), |s| - 1;
    forall e: Entry | e in s && e.fd != s[i].fd
      ensures e in t
    {
      var k :| 0 <= k < |s| && s[k] == e;
      assert t[if k == n then i else k] == e;
    }
  }
}
