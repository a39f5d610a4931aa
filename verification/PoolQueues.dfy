/** The shared data of the thread pool, and what the critical sections of
    `post`, `worker` and `uv__work_cancel` do to it. */
module PoolQueues {
  /** An entry of `wq`: a work item, or the marker `run_slow_work_message`. */
  datatype Entry = Item(id: nat) | Slow

  /** Everything the pool mutex protects.  The marker is linked exactly when it is in `wq`. */
  datatype Shared = Shared(wq: seq<Entry>, slow: seq<nat>, idle: nat, slowRunning: nat)

  /** What a worker gets out of its critical section. */
  datatype Outcome =
    | Sleep(s: Shared)                                       // uv_cond_wait
    | Run(s: Shared, id: nat, isSlow: bool, signal: bool)    // mutex released to run `id`

  /** The work items of `wq`, in order. */
  function Items(wq: seq<Entry>): (r: seq<nat>)
    ensures |r| <= |wq|
  {
    if wq == [] then []
    else if wq[0].Item? then [wq[0].id] + Items(wq[1..]) else Items(wq[1..])
  }

  /** How many times the marker is in `wq`. */
  function Markers(wq: seq<Entry>): nat {
    if wq == [] then 0
    else (if wq[0].Slow? then 1 else 0) + Markers(wq[1..])
  }

  predicate Blocked(s: Shared, threshold: nat) {
    s.wq == [] || (s.wq == [Slow] && s.slowRunning >= threshold)
  }

  /** The pick-a-task loop of `worker`, up to the wait or to the unlock. */
  function Pick(s: Shared, threshold: nat): Outcome
    requires Markers(s.wq) <= 1
    decreases |s.wq|, if s.wq != [] && s.wq[0].Slow? then 1 else 0
  {
    if Blocked(s, threshold) then Sleep(s.(idle := s.idle + 1))
    else
      var rest := s.wq[1..];
      if s.wq[0].Item? then Run(s.(wq := rest), s.wq[0].id, false, false)
      else if s.slowRunning >= threshold then
        RotateMarker(rest);
        Pick(s.(wq := rest + [Slow]), threshold)
      else if s.slow == [] then Pick(s.(wq := rest), threshold)
      else
        var more := s.slow[1..] != [];
        Run(Shared(if more then rest + [Slow] else rest, s.slow[1..], s.idle, s.slowRunning + 1),
            s.slow[0], true, more && s.idle > 0)
  }

  /** The critical section of `post`: the new data, and whether to signal. */
  function Post(s: Shared, id: nat, isSlow: bool): (Shared, bool) {
    if isSlow then
      var s1 := s.(slow := s.slow + [id]);
      if Slow in s.wq then (s1, false)
      else (s1.(wq := s.wq + [Slow]), s.idle > 0)
    else (s.(wq := s.wq + [Item(id)]), s.idle > 0)
  }

  // ---------- facts about the queues ----------

  lemma {:induction false} ItemsAppend(a: seq<Entry>, b: seq<Entry>)
    ensures Items(a + b) == Items(a) + Items(b) && Markers(a + b) == Markers(a) + Markers(b)
  {
    if a == [] {
      assert a + b == b;
    } else {
      assert (a + b)[1..] == a[1..] + b;
      ItemsAppend(a[1..], b);
    }
  }

  lemma {:induction false} MarkersIn(wq: seq<Entry>)
    ensures Markers(wq) > 0 <==> Slow in wq
  {
    if wq != [] {
      MarkersIn(wq[1..]);
    }
  }

  lemma {:induction false} RotateMarker(rest: seq<Entry>)
    requires Markers([Slow] + rest) <= 1
    ensures Markers(rest) == 0 && Markers(rest + [Slow]) == 1 && Items(rest + [Slow]) == Items(rest)
    ensures rest != [] ==> rest[0].Item?
  {
    assert ([Slow] + rest)[1..] == rest;
    ItemsAppend(rest, [Slow]);
  }

  /** What a worker that goes to sleep leaves behind. */
  lemma {:induction false} PickSleeps(s: Shared, threshold: nat)
    requires Markers(s.wq) <= 1 && Pick(s, threshold).Sleep?
    ensures var s' := Pick(s, threshold).s;
      && Blocked(s', threshold) && Items(s.wq) == [] == Items(s'.wq)
      && s'.slow == s.slow && s'.slowRunning == s.slowRunning && s'.idle == s.idle + 1
      && Markers(s'.wq) <= Markers(s.wq)
      && (s.slow != [] ==> Markers(s'.wq) == Markers(s.wq))
    decreases |s.wq|, if s.wq != [] && s.wq[0].Slow? then 1 else 0
  {
    if !Blocked(s, threshold) {
      var rest := s.wq[1..];
      if s.slowRunning >= threshold {
        RotateMarker(rest);  // so the next round finds an item
        assert false;
      } else {
        PickSleeps(s.(wq := rest), threshold);
      }
    }
  }

  /** A fast item is always the first one queued; no slow work is forgotten. */
  lemma {:induction false} PickRunsFast(s: Shared, threshold: nat)
    requires Markers(s.wq) <= 1 && Pick(s, threshold).Run? && !Pick(s, threshold).isSlow
    ensures var r := Pick(s, threshold); var s' := r.s;
      && Items(s.wq) == [r.id] + Items(s'.wq) && !r.signal
      && s'.slow == s.slow && s'.slowRunning == s.slowRunning && s'.idle == s.idle
      && Markers(s'.wq) <= Markers(s.wq)
      && (s.slow != [] ==> Markers(s'.wq) == Markers(s.wq))
    decreases |s.wq|, if s.wq != [] && s.wq[0].Slow? then 1 else 0
  {
    var rest := s.wq[1..];
    if s.wq[0].Slow? {
      if s.slowRunning >= threshold {
        RotateMarker(rest);
        PickRunsFast(s.(wq := rest + [Slow]), threshold);
      } else {
        PickRunsFast(s.(wq := rest), threshold);
      }
    }
  }

  /** A slow item is always the first one pending, and only below the threshold. */
  lemma {:induction false} PickRunsSlow(s: Shared, threshold: nat)
    requires Markers(s.wq) <= 1 && Pick(s, threshold).Run? && Pick(s, threshold).isSlow
    ensures var r := Pick(s, threshold); var s' := r.s;
      && s.slow == [r.id] + s'.slow && Items(s'.wq) == Items(s.wq)
      && s.slowRunning < threshold && s'.slowRunning == s.slowRunning + 1 && s'.idle == s.idle
      && Markers(s.wq) == 1 && Markers(s'.wq) == (if s'.slow != [] then 1 else 0)
      && r.signal == (s'.slow != [] && s.idle > 0)
    decreases |s.wq|
  {
    var rest := s.wq[1..];
    if s.wq[0].Slow? {
      assert [Slow] + rest == s.wq;
      RotateMarker(rest);
      if s.slowRunning >= threshold {
        assert false;
      }
    }
  }

  /** The static variables of the pool and its critical sections as they run. */
  class Pool {
    const nthreads: nat
    var wq: seq<Entry>
    var slow: seq<nat>
    var idle: nat
    var slowRunning: nat

    constructor (nthreads: nat)
      ensures this.nthreads == nthreads && Data() == Shared([], [], 0, 0)
    {
      this.nthreads := nthreads;
      wq, slow, idle, slowRunning := [], [], 0, 0;
    }

    function Data(): Shared
      reads this
    {
      Shared(wq, slow, idle, slowRunning)
    }

    /** slow_work_thread_threshold */
    function Threshold(): nat {
      (nthreads + 1) / 2
    }

    method PostWork(id: nat, isSlow: bool) returns (signal: bool)
      modifies this
      ensures (Data(), signal) == Post(old(Data()), id, isSlow)
    {
      var q := Item(id);
      if isSlow {
        slow := slow + [id];
        if Slow in wq {
          return false;
        }
        q := Slow;
      }
      wq := wq + [q];
      signal := idle > 0;
    }

    /** The loop of `worker` from the lock to the wait or the unlock. */
    method PickTask() returns (sleeps: bool, id: nat, isSlow: bool, signal: bool)
      requires Markers(wq) <= 1
      modifies this
      ensures Pick(old(Data()), Threshold()) == if sleeps then Sleep(Data()) else Run(Data(), id, isSlow, signal)
    {
      sleeps, id, isSlow, signal := true, 0, false, false;
      while true
        invariant Markers(wq) <= 1 && !signal && !isSlow
        invariant Pick(Data(), Threshold()) == Pick(old(Data()), Threshold())
        decreases |wq|, if wq != [] && wq[0].Slow? then 1 else 0
      {
        if wq == [] || (wq[0] == Slow && |wq| == 1 && slowRunning >= Threshold()) {
          idle := idle + 1;
          return;
        }
        var q := wq[0];
        assert wq == [q] + wq[1..];
        wq := wq[1..];
        if q.Item? {
          return false, q.id, false, false;
        }
        RotateMarker(wq);
        if slowRunning >= Threshold() {
          wq := wq + [Slow];
        } else if slow != [] {
          isSlow := true;
          slowRunning := slowRunning + 1;
          id := slow[0];
          slow := slow[1..];
          if slow != [] {
            wq := wq + [Slow];
            signal := idle > 0;
          }
          sleeps := false;
          return;
        }
      }
    }
  }
}
