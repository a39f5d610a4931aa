/** timer.c on the pointer heap: the heap of a loop holds exactly its active timers. */
module TimerLoop {
  import opened HeapShape
  import opened TimerHeap
  import opened Timers

  const INT_MAX := 0x7FFF_FFFF

  ghost function ActiveNodes(timers: map<Node, Timer>): set<Node> {
    set x | x in timers && timers[x].active
  }

  /** The timer fields of uv_loop_t; the ghost map repeats the fields of its timers. */
  class Loop {
    const heap: Heap
    var time: nat
    var counter: nat
    ghost var timers: map<Node, Timer>

    ghost function View(): State
      reads this
    {
      State(time, counter, timers)
    }

    ghost predicate Mirrors()
      reads `timers
      reads timers.Keys`timeout, timers.Keys`startId, timers.Keys`repeat
      reads timers.Keys`active, timers.Keys`closing, timers.Keys`hasCb
    {
      forall x :: x in timers ==>
        timers[x] == Timer(Key(x.timeout, x.startId), x.repeat, x.active, x.closing, x.hasCb)
    }

    ghost predicate Base()
      reads this, heap, heap.m.Keys, timers.Keys
    {
      heap.Valid() && Mirrors() && heap.m.Keys <= timers.Keys
    }

    ghost predicate Valid()
      reads this, heap, heap.m.Keys, timers.Keys
    {
      Base() && heap.m.Keys == ActiveNodes(timers) && Ok(View())
    }

    constructor (now: nat)
      requires now <= MAX64
      ensures Valid() && fresh(heap) && View() == State(now, 0, map[])
    {
      heap := new Heap();
      time, counter, timers := now, 0, map[];
    }

    /** uv_timer_init */
    method InitTimer(x: Node)
      requires Valid() && x !in timers
      modifies `timers, x`timeout, x`repeat, x`active, x`closing, x`hasCb
      ensures Valid()
      ensures timers == old(timers)[x := Timer(Key(0, x.startId), 0, false, false, false)]
    {
      InitPlan(View(), x, Timer(Key(0, x.startId), 0, false, false, false));
      hide Base, Ok, ActiveNodes;
      SetAll(x);
    }

    // The fields of a timer, and their copy.
    method WriteAll(x: Node)
      requires Mirrors() && x !in timers
      modifies `timers, x`timeout, x`repeat, x`active, x`closing, x`hasCb
      ensures Mirrors() && timers == old(timers)[x := Timer(Key(0, x.startId), 0, false, false, false)]
    {
      x.active, x.closing := false, false;
      x.hasCb, x.timeout, x.repeat := false, 0, 0;
      timers := timers[x := Timer(Key(0, x.startId), 0, false, false, false)];
    }

    method WriteActive(x: Node, active: bool)
      requires Mirrors() && x in timers
      modifies `timers, x`active
      ensures Mirrors() && timers == old(timers)[x := old(timers)[x].(active := active)]
    {
      x.active := active;
      timers := timers[x := timers[x].(active := active)];
    }

    method WriteClosing(x: Node)
      requires Mirrors() && x in timers
      modifies `timers, x`closing
      ensures Mirrors() && timers == old(timers)[x := old(timers)[x].(closing := true)]
    {
      x.closing := true;
      timers := timers[x := timers[x].(closing := true)];
    }

    method WriteRepeat(x: Node, repeat: nat)
      requires Mirrors() && x in timers
      modifies `timers, x`repeat
      ensures Mirrors() && timers == old(timers)[x := old(timers)[x].(repeat := repeat)]
    {
      x.repeat := repeat;
      timers := timers[x := timers[x].(repeat := repeat)];
    }

    method WriteTimes(x: Node, timeout: nat, repeat: nat)
      requires Mirrors() && x in timers
      modifies `timers, `counter, x`timeout, x`startId, x`repeat, x`hasCb
      ensures Mirrors() && counter == old(counter) + 1
      ensures timers == old(timers)[x := old(timers)[x].(key := Key(timeout, old(counter)), repeat := repeat, hasCb := true)]
    {
      x.hasCb := true;
      x.timeout, x.repeat := timeout, repeat;
      x.startId := counter;
      counter := counter + 1;
      timers := timers[x := timers[x].(key := Key(timeout, x.startId), repeat := repeat, hasCb := true)];
    }

    // The same on a loop: the heap does not read what is written.
    method SetAll(x: Node)
      requires Base() && x !in timers
      modifies `timers, x`timeout, x`repeat, x`active, x`closing, x`hasCb
      ensures Base() && timers == old(timers)[x := Timer(Key(0, x.startId), 0, false, false, false)]
    {
      hide Mirrors;
      WriteAll(x);
    }

    method SetActive(x: Node, active: bool)
      requires Base() && x in timers
      modifies `timers, x`active
      ensures Base() && timers == old(timers)[x := old(timers)[x].(active := active)]
    {
      hide Mirrors;
      WriteActive(x, active);
    }

    method SetClosing(x: Node)
      requires Base() && x in timers
      modifies `timers, x`closing
      ensures Base() && timers == old(timers)[x := old(timers)[x].(closing := true)]
    {
      hide Mirrors;
      WriteClosing(x);
    }

    method SetRepeat(x: Node, repeat: nat)
      requires Base() && x in timers
      modifies `timers, x`repeat
      ensures Base() && timers == old(timers)[x := old(timers)[x].(repeat := repeat)]
    {
      hide Mirrors;
      WriteRepeat(x, repeat);
    }

    method SetTimes(x: Node, timeout: nat, repeat: nat)
      requires Base() && x in timers && x !in heap.m
      modifies `timers, `counter, x`timeout, x`startId, x`repeat, x`hasCb
      ensures Base() && counter == old(counter) + 1
      ensures timers == old(timers)[x := old(timers)[x].(key := Key(timeout, old(counter)), repeat := repeat, hasCb := true)]
    {
      hide Mirrors;
      WriteTimes(x, timeout, repeat);
    }

    method HeapRemove(x: Node)
      requires Base() && x in heap.m
      modifies heap, timers.Keys`left, timers.Keys`right, timers.Keys`parent
      ensures Base() && heap.m.Keys == old(heap.m.Keys) - {x}
    {
      heap.Remove(x);
    }

    method HeapInsert(x: Node)
      requires Base() && x in timers && x !in heap.m
      modifies heap, timers.Keys`left, timers.Keys`right, timers.Keys`parent
      ensures Base() && heap.m.Keys == old(heap.m.Keys) + {x}
    {
      heap.Insert(x);
    }

    method Deactivate(x: Node)
      requires Base() && x in heap.m
      modifies `timers, heap, timers.Keys`left, timers.Keys`right, timers.Keys`parent, x`active
      ensures Base() && heap.m.Keys == old(heap.m.Keys) - {x}
      ensures timers == old(timers)[x := old(timers)[x].(active := false)]
    {
      hide Base;
      BaseKeys();
      HeapRemove(x);
      SetActive(x, false);
    }

    lemma {:induction false} BaseKeys()
      requires Base()
      ensures heap.m.Keys <= timers.Keys
    {
    }

    lemma {:induction false} BaseFacts()
      requires Base()
      ensures heap.m.Keys <= timers.Keys
      ensures forall x :: x in timers ==> timers[x] == Timer(Key(x.timeout, x.startId), x.repeat, x.active, x.closing, x.hasCb)
    {
    }

    /** uv_timer_stop */
    method StopTimer(x: Node)
      requires Valid() && x in timers
      modifies `timers, heap, timers.Keys`left, timers.Keys`right, timers.Keys`parent, x`active
      ensures Valid() && View() == DoStop(old(View()), x) && timers.Keys == old(timers.Keys)
      ensures !timers[x].active && x !in heap.m
    {
      StopPlan(View(), x);
      BaseFacts();
      hide Base, Ok, ActiveNodes;
      if x.active {
        Deactivate(x);
      }
    }

    // uv_timer_start: set the fields, insert the node, set the flag.
    method Arm(x: Node, timeout: nat, repeat: nat)
      requires Base() && x in timers && x !in heap.m
      modifies `timers, `counter, heap, timers.Keys`left, timers.Keys`right, timers.Keys`parent
      modifies x`timeout, x`startId, x`repeat, x`hasCb, x`active
      ensures Base() && heap.m.Keys == old(heap.m.Keys) + {x}
      ensures View() == Armed(old(View()), x, timeout, repeat)
    {
      hide Base;
      BaseKeys();
      SetTimes(x, timeout, repeat);
      HeapInsert(x);
      SetActive(x, true);
    }

    /** uv_timer_start; `hasCb` is `cb != NULL`, and `ok` is 0 rather than UV_EINVAL. */
    method StartTimer(x: Node, hasCb: bool, timeout: nat, repeat: nat) returns (ok: bool)
      requires Valid() && x in timers && timeout <= MAX64 && repeat <= MAX64
      modifies `timers, `counter, heap, timers.Keys`left, timers.Keys`right, timers.Keys`parent
      modifies x`timeout, x`startId, x`repeat, x`hasCb, x`active
      ensures Valid() && timers.Keys == old(timers.Keys)
      ensures View() == DoStart(old(View()), x, hasCb, timeout, repeat)
      ensures ok <==> !old(timers)[x].closing && hasCb
    {
      BaseFacts();
      hide Base, Ok, ActiveNodes, Deadline;
      if x.closing || !hasCb {
        return false;
      }
      Restart(x, timeout, repeat);
      return true;
    }

    // uv_timer_start after its checks.
    method Restart(x: Node, timeout: nat, repeat: nat)
      requires Valid() && x in timers && timeout <= MAX64 && repeat <= MAX64 && !timers[x].closing
      modifies `timers, `counter, heap, timers.Keys`left, timers.Keys`right, timers.Keys`parent
      modifies x`timeout, x`startId, x`repeat, x`hasCb, x`active
      ensures Valid() && timers.Keys == old(timers.Keys)
      ensures View() == DoStart(old(View()), x, true, timeout, repeat)
    {
      StartAfterStop(View(), x, timeout, repeat);
      BaseFacts();
      hide Base, Ok, ActiveNodes, Deadline, DoStart, DoStop;
      if x.active {
        StopTimer(x);
      }
      ArmStopped(x, timeout, repeat);
    }

    method ArmStopped(x: Node, timeout: nat, repeat: nat)
      requires Valid() && x in timers && timeout <= MAX64 && repeat <= MAX64
      requires !timers[x].closing && !timers[x].active
      modifies `timers, `counter, heap, timers.Keys`left, timers.Keys`right, timers.Keys`parent
      modifies x`timeout, x`startId, x`repeat, x`hasCb, x`active
      ensures Valid() && timers.Keys == old(timers.Keys)
      ensures View() == DoStart(old(View()), x, true, timeout, repeat)
    {
      StartPlan(View(), x, timeout, repeat);
      hide Base, Ok, ActiveNodes, Deadline, DoStart, Armed;
      var clamped := Clamp(timeout);
      Arm(x, clamped, repeat);
    }

    method Clamp(timeout: nat) returns (clamped: nat)
      ensures clamped == Deadline(time, timeout)
    {
      clamped := (time + timeout) % (MAX64 + 1);
      if clamped < timeout {
        clamped := MAX64;
      }
    }

    /** uv_timer_again; `ok` is 0 rather than UV_EINVAL. */
    method AgainTimer(x: Node) returns (ok: bool)
      requires Valid() && x in timers
      modifies `timers, `counter, heap, timers.Keys`left, timers.Keys`right, timers.Keys`parent
      modifies x`timeout, x`startId, x`repeat, x`hasCb, x`active
      ensures Valid() && timers.Keys == old(timers.Keys) && View() == DoAgain(old(View()), x)
      ensures ok <==> old(timers)[x].hasCb
    {
      BaseFacts();
      assert TimerOk(View(), x);
      hide Base, Ok, ActiveNodes, DoStart;
      if !x.hasCb {
        return false;
      }
      if x.repeat != 0 {
        var repeat := x.repeat;
        StopTimer(x);
        var _ := StartTimer(x, true, repeat, repeat);
      }
      return true;
    }

    /** uv_close, as far as the timer is concerned: uv__timer_close, and the flag. */
    method CloseTimer(x: Node)
      requires Valid() && x in timers
      modifies `timers, heap, timers.Keys`left, timers.Keys`right, timers.Keys`parent, x`active, x`closing
      ensures Valid() && timers.Keys == old(timers.Keys) && View() == DoClose(old(View()), x)
    {
      ClosePlan(View(), x);
      hide Base, Ok, ActiveNodes, DoStop;
      StopTimer(x);
      SetClosing(x);
    }

    /** uv_timer_set_repeat */
    method ChangeRepeat(x: Node, repeat: nat)
      requires Valid() && x in timers && repeat <= MAX64
      modifies `timers, x`repeat
      ensures Valid() && timers.Keys == old(timers.Keys)
      ensures View() == Do(old(View()), Op.SetRepeat(x, repeat))
    {
      RepeatPlan(View(), x, repeat);
      hide Base, Ok, ActiveNodes;
      SetRepeat(x, repeat);
    }

    method AdvanceTo(now: nat)
      requires Base()
      modifies `time
      ensures Base() && time == if now > old(time) then now else old(time)
    {
      if now > time {
        time := now;
      }
    }

    /** One thing that a callback may do. */
    method Apply(op: Op)
      requires Valid() && OpOk(op, timers.Keys)
      modifies this, heap, timers.Keys
      ensures Valid() && timers.Keys == old(timers.Keys)
      ensures View() == Do(old(View()), op)
    {
      hide Base, Ok, ActiveNodes, DoStart, DoStop, DoAgain, DoClose;
      match op {
        case Start(x, hasCb, timeout, repeat) => var _ := StartTimer(x, hasCb, timeout, repeat);
        case Stop(x) => StopTimer(x);
        case Again(x) => var _ := AgainTimer(x);
        case SetRepeat(x, repeat) => ChangeRepeat(x, repeat);
        case Close(x) => CloseTimer(x);
        case UpdateTime(now) =>
          DoOk(View(), op);
          AdvanceTo(now);
      }
    }

    /** What a callback does. */
    method Run(ops: seq<Op>)
      requires Valid() && OpsOk(ops, timers.Keys)
      modifies this, heap, timers.Keys
      ensures Valid() && timers.Keys == old(timers.Keys)
      ensures View() == DoAll(old(View()), ops)
    {
      hide Valid, Base, Do;
      var i := 0;
      while i < |ops|
        invariant i <= |ops| && Valid() && timers.Keys == old(timers.Keys)
        invariant OpsOk(ops[i..], timers.Keys) && DoAll(View(), ops[i..]) == DoAll(old(View()), ops)
      {
        assert ops[i..][0] == ops[i] && ops[i..][1..] == ops[i + 1..];
        Apply(ops[i]);
        i := i + 1;
      }
    }

    // heap_min(timer_heap(loop)) is the least active timer.
    method Earliest() returns (x: Node?)
      requires Valid()
      ensures x == null ==> forall y :: y in timers ==> !timers[y].active
      ensures x != null ==> x in timers && timers[x].key == Key(x.timeout, x.startId) && IsLeast(View(), x)
    {
      x := heap.Min();
    }

    /** uv__next_timeout: -1 with no active timer, else how long the loop may block: never
        past the earliest deadline, and up to it unless that is over INT_MAX away. */
    method NextTimeout() returns (r: int)
      requires Valid()
      ensures -1 <= r <= INT_MAX
      ensures r == -1 <==> forall x :: x in timers ==> !timers[x].active
      ensures r == 0 <==> Due(View()) != {}
      ensures r > 0 ==> forall x :: x in timers && timers[x].active ==> time + r <= timers[x].key.timeout
      ensures 0 < r < INT_MAX ==> exists x :: x in timers && timers[x].active && time + r == timers[x].key.timeout
    {
      var x := Earliest();
      if x == null {
        return -1;
      }
      if x.timeout <= time {
        assert x in Due(View());
        return 0;
      }
      var diff := x.timeout - time;
      if diff > INT_MAX {
        diff := INT_MAX;
      }
      return diff;
    }

    /** uv__run_timers; `script[k]` is what the k-th callback does.  The pass stops when no
        timer is due, or when the script ends. */
    method RunTimers(script: seq<seq<Op>>) returns (shots: seq<Shot>)
      requires Valid() && ScriptOk(script, timers.Keys)
      modifies this, heap, timers.Keys
      ensures Valid() && timers.Keys == old(timers.Keys)
      ensures IsPass(old(View()), script, Outcome(shots, View()))
    {
      hide Base, Fire, IsPass, OpsOk, ActiveNodes;
      shots := [];
      ghost var s := View();
      var k := 0;
      PassStart(s);
      while true
        invariant Valid() && timers.Keys == s.timers.Keys && k == |shots| <= |script|
        invariant IsPass(s, script[..k], Outcome(shots, View()))
        decreases |script| - k
      {
        var x := Earliest();
        if x == null || x.timeout > time || k == |script| {
          if k == |script| {
            assert script[..k] == script;
          } else {
            assert script[..k] + script[k..] == script;
            NothingDue(View(), x);
            PassStops(s, script[..k], script[k..], Outcome(shots, View()));
          }
          return;
        }
        assert script[..k] + [script[k]] == script[..k + 1];
        PassSnoc(s, script[..k], script[k], Outcome(shots, View()), x);
        var shot := Shot(x, Key(x.timeout, x.startId));
        Shoot(x, script[k]);
        shots := shots + [shot];
        k := k + 1;
      }
    }

    /** One turn of the loop of uv__run_timers. */
    method Shoot(x: Node, ops: seq<Op>)
      requires Valid() && x in timers && OpsOk(ops, timers.Keys)
      modifies this, heap, timers.Keys
      ensures Valid() && timers.Keys == old(timers.Keys) && View() == Fire(old(View()), x, ops)
    {
      hide Base, DoStop, DoAgain, DoAll, Ok, OpsOk;
      StopTimer(x);
      var _ := AgainTimer(x);
      Run(ops);
    }
  }

  lemma {:induction false} InitPlan(s: State, x: Node, t: Timer)
    requires Ok(s) && x !in s.timers && !t.active && t.repeat == 0 == t.key.timeout
    ensures Ok(s.(timers := s.timers[x := t])) && ActiveNodes(s.timers[x := t]) == ActiveNodes(s.timers)
  {
    var s' := s.(timers := s.timers[x := t]);
    forall y | y in s'.timers
      ensures TimerOk(s', y)
    {
      assert y != x ==> TimerOk(s, y);
    }
  }

  lemma {:induction false} StopPlan(s: State, x: Node)
    requires Ok(s) && x in s.timers
    ensures Ok(DoStop(s, x)) && (x in ActiveNodes(s.timers) <==> s.timers[x].active)
    ensures ActiveNodes(s.timers[x := s.timers[x].(active := false)]) == ActiveNodes(s.timers) - {x}
  {
    DoOk(s, Op.Stop(x));
  }

  ghost function Armed(s: State, x: Node, timeout: nat, repeat: nat): State
    requires x in s.timers
  {
    State(s.time, s.counter + 1, s.timers[x := Timer(Key(timeout, s.counter), repeat, true, s.timers[x].closing, true)])
  }

  lemma {:induction false} StartPlan(s: State, x: Node, timeout: nat, repeat: nat)
    requires Ok(s) && x in s.timers && timeout <= MAX64 && repeat <= MAX64
    ensures Ok(DoStart(s, x, true, timeout, repeat))
    ensures x in ActiveNodes(s.timers) <==> s.timers[x].active
    ensures var s' := Armed(s, x, Deadline(s.time, timeout), repeat);
      && s'.timers.Keys == s.timers.Keys && ActiveNodes(s'.timers) == ActiveNodes(s.timers) + {x}
      && (!s.timers[x].closing ==> DoStart(s, x, true, timeout, repeat) == s')
  {
    DoOk(s, Op.Start(x, true, timeout, repeat));
    hide Deadline;
  }

  lemma {:induction false} StartAfterStop(s: State, x: Node, timeout: nat, repeat: nat)
    requires x in s.timers && !s.timers[x].closing
    ensures DoStop(s, x).timers[x] == s.timers[x].(active := false)
    ensures s.timers[x].active || DoStop(s, x) == s
    ensures DoStart(DoStop(s, x), x, true, timeout, repeat) == DoStart(s, x, true, timeout, repeat)
  {
    hide Deadline;
    if s.timers[x].active {
      var t := Timer(Key(Deadline(s.time, timeout), s.counter), repeat, true, false, true);
      assert DoStop(s, x).timers[x := t] == s.timers[x := t];
    }
  }

  lemma {:induction false} ClosePlan(s: State, x: Node)
    requires Ok(s) && x in s.timers
    ensures Ok(DoClose(s, x))
    ensures var s1 := DoStop(s, x); ActiveNodes(s1.timers[x := s1.timers[x].(closing := true)]) == ActiveNodes(s1.timers)
  {
    DoOk(s, Op.Close(x));
  }

  lemma {:induction false} RepeatPlan(s: State, x: Node, repeat: nat)
    requires Ok(s) && x in s.timers && repeat <= MAX64
    ensures Ok(s.(timers := s.timers[x := s.timers[x].(repeat := repeat)]))
    ensures ActiveNodes(s.timers[x := s.timers[x].(repeat := repeat)]) == ActiveNodes(s.timers)
  {
    DoOk(s, Op.SetRepeat(x, repeat));
  }

  lemma {:induction false} PassStart(s: State)
    ensures IsPass(s, [], Outcome([], s))
  {
  }

  lemma {:induction false} NothingDue(s: State, x: Node?)
    requires x == null ==> forall y :: y in s.timers ==> !s.timers[y].active
    requires x != null ==> IsLeast(s, x) && s.timers[x].key.timeout > s.time
    ensures Due(s) == {}
  {
  }
}
