/** Timers as values: start, stop, again and one pass of uv__run_timers, with
    callbacks that may do anything a callback can do to timers. */
module Timers {
  import opened HeapShape

  const MAX64 := 0xFFFF_FFFF_FFFF_FFFF

  datatype Timer = Timer(key: Key, repeat: nat, active: bool, closing: bool, hasCb: bool)
  datatype State = State(time: nat, counter: nat, timers: map<Node, Timer>)

  /** What a callback does; `UpdateTime` is uv_update_time, and `now` what the clock says. */
  datatype Op =
    | Start(x: Node, hasCb: bool, timeout: nat, repeat: nat)
    | Stop(x: Node)
    | Again(x: Node)
    | SetRepeat(x: Node, repeat: nat)
    | Close(x: Node)
    | UpdateTime(now: nat)

  /** The 64-bit sum of uv_timer_start, clamped when it wraps. */
  function Deadline(time: nat, timeout: nat): nat {
    var clamped := (time + timeout) % (MAX64 + 1);
    if clamped < timeout then MAX64 else clamped
  }

  /** The wrap is always noticed: the deadline is the sum, or the largest value if the sum does not fit. */
  lemma {:induction false} DeadlineClamps(time: nat, timeout: nat)
    requires time <= MAX64 && timeout <= MAX64
    ensures Deadline(time, timeout) == if time + timeout <= MAX64 then time + timeout else MAX64
  {
    if time + timeout > MAX64 {
      assert (time + timeout) % (MAX64 + 1) == time + timeout - (MAX64 + 1);
    }
  }

  function DoStop(s: State, x: Node): State
    requires x in s.timers
  {
    if !s.timers[x].active then s else s.(timers := s.timers[x := s.timers[x].(active := false)])
  }

  function DoStart(s: State, x: Node, hasCb: bool, timeout: nat, repeat: nat): State
    requires x in s.timers
  {
    if s.timers[x].closing || !hasCb then s
    else
      s.(timers := s.timers[x := Timer(Key(Deadline(s.time, timeout), s.counter), repeat, true, false, true)],
         counter := s.counter + 1)
  }

  function DoAgain(s: State, x: Node): State
    requires x in s.timers
  {
    var t := s.timers[x];
    if !t.hasCb || t.repeat == 0 then s else DoStart(DoStop(s, x), x, true, t.repeat, t.repeat)
  }

  /** uv_close: uv__timer_close stops the timer; it can never be started again. */
  function DoClose(s: State, x: Node): State
    requires x in s.timers
  {
    var s1 := DoStop(s, x);
    s1.(timers := s1.timers[x := s1.timers[x].(closing := true)])
  }

  predicate OpOk(op: Op, nodes: set<Node>) {
    if op.UpdateTime? then op.now <= MAX64
    else op.x in nodes && (op.Start? ==> op.timeout <= MAX64 && op.repeat <= MAX64) && (op.SetRepeat? ==> op.repeat <= MAX64)
  }

  function Do(s: State, op: Op): (s': State)
    requires OpOk(op, s.timers.Keys)
    ensures s'.timers.Keys == s.timers.Keys
  {
    match op
    case Start(x, hasCb, timeout, repeat) => DoStart(s, x, hasCb, timeout, repeat)
    case Stop(x) => DoStop(s, x)
    case Again(x) => DoAgain(s, x)
    case SetRepeat(x, repeat) => s.(timers := s.timers[x := s.timers[x].(repeat := repeat)])
    case Close(x) => DoClose(s, x)
    case UpdateTime(now) => s.(time := if now > s.time then now else s.time)
  }

  /** A start arms the timer for `timeout` from now, or for the end of time, behind every timer
      with the same deadline; a running timer is re-armed, and no other one changes. */
  lemma {:induction false} StartMeans(s: State, x: Node, timeout: nat, repeat: nat)
    requires Ok(s) && x in s.timers && timeout <= MAX64 && repeat <= MAX64 && !s.timers[x].closing
    ensures var s' := DoStart(s, x, true, timeout, repeat); var t := s'.timers[x];
      && t.active && t.repeat == repeat
      && t.key.timeout == (if s.time + timeout <= MAX64 then s.time + timeout else MAX64)
      && (forall y :: y in s'.timers && y != x && s'.timers[y].active && s'.timers[y].key.timeout == t.key.timeout ==>
            Less(s'.timers[y].key, t.key))
      && (forall y :: y in s'.timers && y != x ==> y in s.timers && s'.timers[y] == s.timers[y])
  {
    DeadlineClamps(s.time, timeout);
    hide Deadline;
    forall y | y in s.timers && y != x && s.timers[y].active
      ensures s.timers[y].key.startId < s.counter
    {
      assert TimerOk(s, y);
    }
  }

  /** uv_timer_again re-arms a repeating timer by its interval and does nothing to another one;
      a timer that is closing is not armed, since the start inside is refused. */
  lemma {:induction false} AgainMeans(s: State, x: Node)
    requires Ok(s) && x in s.timers
    ensures var s', t := DoAgain(s, x), s.timers[x];
      if !t.hasCb || t.repeat == 0 || t.closing then s' == s && (t.closing ==> !s'.timers[x].active)
      else
        && s'.timers[x].active && s'.timers[x].repeat == t.repeat && s'.timers[x].key.startId == s.counter
        && s'.timers[x].key.timeout == (if s.time + t.repeat <= MAX64 then s.time + t.repeat else MAX64)
        && (forall y :: y in s.timers && y != x ==> s'.timers[y] == s.timers[y])
  {
    assert TimerOk(s, x);
    DeadlineClamps(s.time, s.timers[x].repeat);
    hide Deadline;
  }

  /** The operation arms the timer: a start with a callback or a restart with an interval, unless
      the timer is closing. */
  predicate Arms(s: State, op: Op, x: Node)
    requires x in s.timers
  {
    && !s.timers[x].closing
    && ((op.Start? && op.x == x && op.hasCb) || (op == Again(x) && s.timers[x].hasCb && s.timers[x].repeat > 0))
  }

  /** What any operation leaves of a timer: whether it is armed, its deadline, its interval, and
      whether it is closing; and of the clock. */
  lemma {:induction false} OpMeans(s: State, op: Op, x: Node)
    requires Ok(s) && OpOk(op, s.timers.Keys) && x in s.timers
    ensures var s' := Do(s, op); var t, t' := s.timers[x], s'.timers[x];
      && (t'.active <==> Arms(s, op, x) || (t.active && op != Op.Stop(x) && op != Close(x)))
      && (t'.closing <==> t.closing || op == Close(x))
      && t'.repeat == (if op.Start? && Arms(s, op, x) then op.repeat
                       else if op.SetRepeat? && op.x == x then op.repeat else t.repeat)
      && (t'.hasCb <==> t.hasCb || (op.Start? && Arms(s, op, x)))
      && (!Arms(s, op, x) ==> t'.key == t.key)
      && (Arms(s, op, x) ==>
            var delay := if op.Start? then op.timeout else t.repeat;
            t'.key == Key(if s.time + delay <= MAX64 then s.time + delay else MAX64, s.counter))
      && s'.time == (if op.UpdateTime? && op.now > s.time then op.now else s.time)
  {
    hide Deadline;
    assert TimerOk(s, x);
    if op.Start? {
      DeadlineClamps(s.time, op.timeout);
    } else if op.Again? {
      assert TimerOk(s, op.x);
      DeadlineClamps(s.time, s.timers[op.x].repeat);
    }
  }

  predicate OpsOk(ops: seq<Op>, nodes: set<Node>) {
    forall k :: 0 <= k < |ops| ==> OpOk(ops[k], nodes)
  }

  function DoAll(s: State, ops: seq<Op>): (s': State)
    requires OpsOk(ops, s.timers.Keys)
    ensures s'.timers.Keys == s.timers.Keys
    decreases |ops|
  {
    if ops == [] then s else DoAll(Do(s, ops[0]), ops[1..])
  }

  // ---------- what always holds ----------

  predicate TimerOk(s: State, x: Node)
    requires x in s.timers
  {
    var t := s.timers[x];
    && t.repeat <= MAX64 && t.key.timeout <= MAX64
    && (t.active ==> t.key.startId < s.counter && t.hasCb && !t.closing)
  }

  predicate Active(s: State, x: Node) {
    x in s.timers && s.timers[x].active
  }

  ghost predicate Ok(s: State) {
    && s.time <= MAX64
    && (forall x :: x in s.timers ==> TimerOk(s, x))
    && (forall x, y :: x in s.timers && y in s.timers && Active(s, x) && Active(s, y) && x != y ==> s.timers[x].key.startId != s.timers[y].key.startId)
  }

  lemma {:induction false} DoTimersOk(s: State, op: Op)
    requires Ok(s) && OpOk(op, s.timers.Keys)
    ensures Do(s, op).time <= MAX64 && forall x :: x in Do(s, op).timers ==> TimerOk(Do(s, op), x)
  {
    hide Deadline;
    var s' := Do(s, op);
    if op.Start? {
      DeadlineClamps(s.time, op.timeout);
    } else if op.Again? {
      assert TimerOk(s, op.x);
      DeadlineClamps(s.time, s.timers[op.x].repeat);
    }
    forall x | x in s'.timers
      ensures TimerOk(s', x)
    {
      assert TimerOk(s, x);
    }
  }

  lemma {:induction false} DoOk(s: State, op: Op)
    requires Ok(s) && OpOk(op, s.timers.Keys)
    ensures Ok(Do(s, op))
  {
    DoTimersOk(s, op);
    hide Deadline;
    var s' := Do(s, op);
    forall x, y | x in s'.timers && y in s'.timers && Active(s', x) && Active(s', y) && x != y
      ensures s'.timers[x].key.startId != s'.timers[y].key.startId
    {
      assert TimerOk(s, x) && TimerOk(s, y);
    }
  }

  /** What has changed since `s`: time and counter have not gone back, and every active
      timer is as it was, or was armed since, not for a time before `s.time`. */
  ghost predicate Since(s: State, s': State) {
    && s'.timers.Keys == s.timers.Keys && s'.time >= s.time && s'.counter >= s.counter
    && forall x :: x in s'.timers && Active(s', x) ==> Kept(s, s', x) || ArmedSince(s, s', x)
  }

  predicate Kept(s: State, s': State, x: Node)
    requires Active(s', x)
  {
    Active(s, x) && s.timers[x].key == s'.timers[x].key
  }

  predicate ArmedSince(s: State, s': State, x: Node)
    requires Active(s', x)
  {
    s'.timers[x].key.startId >= s.counter && s'.timers[x].key.timeout >= s.time
  }

  lemma {:induction false} DoSince(s: State, op: Op)
    requires Ok(s) && OpOk(op, s.timers.Keys)
    ensures Since(s, Do(s, op))
  {
    hide Deadline;
    if op.Start? {
      DeadlineClamps(s.time, op.timeout);
    } else if op.Again? {
      assert TimerOk(s, op.x);
      DeadlineClamps(s.time, s.timers[op.x].repeat);
    }
  }

  lemma {:induction false} SinceTrans(a: State, b: State, c: State)
    requires Since(a, b) && Since(b, c)
    ensures Since(a, c)
  {
    forall x | x in c.timers && Active(c, x)
      ensures Kept(a, c, x) || ArmedSince(a, c, x)
    {
      assert Kept(b, c, x) || ArmedSince(b, c, x);
    }
  }

  lemma {:induction false} DoAllSince(s: State, ops: seq<Op>)
    requires Ok(s) && OpsOk(ops, s.timers.Keys)
    ensures Ok(DoAll(s, ops)) && Since(s, DoAll(s, ops))
    decreases |ops|
  {
    if ops != [] {
      var s1 := Do(s, ops[0]);
      DoOk(s, ops[0]);
      DoSince(s, ops[0]);
      DoAllSince(s1, ops[1..]);
      SinceTrans(s, s1, DoAll(s, ops));
    }
  }

  // ---------- one pass of uv__run_timers ----------

  /** Active, and no active timer is less. */
  ghost predicate IsLeast(s: State, x: Node) {
    Active(s, x) && forall y :: y in s.timers && Active(s, y) ==> !Less(s.timers[y].key, s.timers[x].key)
  }

  predicate IsDue(s: State, x: Node) {
    Active(s, x) && s.timers[x].key.timeout <= s.time
  }

  ghost function Due(s: State): set<Node> {
    set x | x in s.timers && IsDue(s, x)
  }

  /** A timer fired: the timer and the deadline and id that it had. */
  datatype Shot = Shot(x: Node, key: Key)

  /** `script[k]` is what the k-th callback of the pass does; the shots are in firing order. */
  datatype Outcome = Outcome(shots: seq<Shot>, end: State)

  /** Stop the timer, re-arm it if it repeats, run its callback. */
  function Fire(s: State, x: Node, ops: seq<Op>): (s': State)
    requires x in s.timers && OpsOk(ops, s.timers.Keys)
    ensures s'.timers.Keys == s.timers.Keys
  {
    DoAll(DoAgain(DoStop(s, x), x), ops)
  }

  predicate ScriptOk(script: seq<seq<Op>>, nodes: set<Node>) {
    forall k :: 0 <= k < |script| ==> OpsOk(script[k], nodes)
  }

  /** `o` is what the loop of uv__run_timers does from `s` on, as far as `script` goes. */
  ghost predicate IsPass(s: State, script: seq<seq<Op>>, o: Outcome)
    requires ScriptOk(script, s.timers.Keys)
    decreases |script|
  {
    if o.shots == [] then
      o.end == s && (script == [] || forall x :: x in s.timers && IsLeast(s, x) ==> !IsDue(s, x))
    else
      && script != []
      && var x := o.shots[0].x;
      && IsLeast(s, x) && IsDue(s, x) && o.shots[0].key == s.timers[x].key
      && IsPass(Fire(s, x, script[0]), script[1..], Outcome(o.shots[1..], o.end))
  }

  lemma {:induction false} FireOk(s: State, x: Node, ops: seq<Op>)
    requires Ok(s) && Active(s, x) && OpsOk(ops, s.timers.Keys)
    ensures Ok(Fire(s, x, ops)) && Since(s, Fire(s, x, ops))
  {
    var s1 := DoStop(s, x);
    var s2 := DoAgain(s1, x);
    DoOk(s, Op.Stop(x));
    DoSince(s, Op.Stop(x));
    DoOk(s1, Again(x));
    DoSince(s1, Again(x));
    SinceTrans(s, s1, s2);
    DoAllSince(s2, ops);
    SinceTrans(s, s2, Fire(s, x, ops));
  }

  /** Every active timer comes after `k`. */
  ghost predicate Above(s: State, k: Key) {
    k.startId < s.counter && forall y :: y in s.timers && Active(s, y) ==> Less(k, s.timers[y].key)
  }

  // After a shot nothing that is still or again armed comes before it.
  lemma {:induction false} FireAbove(s: State, x: Node, ops: seq<Op>)
    requires Ok(s) && IsLeast(s, x) && IsDue(s, x) && OpsOk(ops, s.timers.Keys)
    ensures Above(Fire(s, x, ops), s.timers[x].key)
  {
    var s' := Fire(s, x, ops);
    var k := s.timers[x].key;
    StoppedSince(s, x, ops);
    assert TimerOk(s, x);
    FireOk(s, x, ops);
    forall y | y in s'.timers && Active(s', y)
      ensures Less(k, s'.timers[y].key)
    {
      if Kept(s, s', y) {
        assert y != x;
        assert TimerOk(s, y);
      }
    }
    hide Fire;
  }

  // The timer that fired is active only if it was armed again.
  lemma {:induction false} StoppedSince(s: State, x: Node, ops: seq<Op>)
    requires Ok(s) && Active(s, x) && OpsOk(ops, s.timers.Keys)
    ensures Active(Fire(s, x, ops), x) ==> Fire(s, x, ops).timers[x].key.startId >= s.counter
  {
    var s1 := DoStop(s, x);
    DoOk(s, Op.Stop(x));
    var s2 := DoAgain(s1, x);
    DoOk(s1, Again(x));
    DoSince(s1, Again(x));
    DoAllSince(s2, ops);
    SinceTrans(s1, s2, Fire(s, x, ops));
  }

  lemma {:induction false} AboveSince(s: State, s': State, k: Key)
    requires Ok(s) && Above(s, k) && Since(s, s') && k.timeout <= s.time
    ensures Above(s', k)
  {
  }

  lemma {:induction false} ShotsOrdered(s: State, script: seq<seq<Op>>, o: Outcome, i: nat, j: nat)
    requires Ok(s) && ScriptOk(script, s.timers.Keys) && IsPass(s, script, o) && i < j < |o.shots|
    ensures Less(o.shots[i].key, o.shots[j].key)
    decreases |script|
  {
    var x := o.shots[0].x;
    var s' := Fire(s, x, script[0]);
    FireOk(s, x, script[0]);
    var o' := Outcome(o.shots[1..], o.end);
    if i == 0 {
      FireAbove(s, x, script[0]);
      ShotsAbove(s', script[1..], o', s.timers[x].key, j - 1);
    } else {
      ShotsOrdered(s', script[1..], o', i - 1, j - 1);
    }
  }

  /** Timers fire in strictly increasing order of deadline and start id, whatever the
      callbacks do, and only when they are due. */
  lemma {:induction false} FiringOrder(s: State, script: seq<seq<Op>>, o: Outcome, i: nat, j: nat)
    requires Ok(s) && ScriptOk(script, s.timers.Keys) && IsPass(s, script, o) && i < j < |o.shots|
    ensures var a, b := o.shots[i].key, o.shots[j].key;
      a.timeout < b.timeout || (a.timeout == b.timeout && a.startId < b.startId)
    ensures Less(o.shots[i].key, o.shots[j].key)
  {
    ShotsOrdered(s, script, o, i, j);
    hide IsPass, Ok, ScriptOk;
  }

  lemma {:induction false} ShotsAbove(s: State, script: seq<seq<Op>>, o: Outcome, k: Key, j: nat)
    requires Ok(s) && ScriptOk(script, s.timers.Keys) && IsPass(s, script, o) && j < |o.shots|
    requires Above(s, k) && k.timeout <= s.time
    ensures Less(k, o.shots[j].key)
    decreases |script|
  {
    if j > 0 {
      var x := o.shots[0].x;
      FireOk(s, x, script[0]);
      AboveSince(s, Fire(s, x, script[0]), k);
      ShotsAbove(Fire(s, x, script[0]), script[1..], Outcome(o.shots[1..], o.end), k, j - 1);
    }
  }

  // ---------- every due timer fires ----------

  /** The callback starts, stops, re-arms or closes `x`. */
  predicate Touches(ops: seq<Op>, x: Node) {
    exists k :: 0 <= k < |ops| && !ops[k].UpdateTime? && !ops[k].SetRepeat? && ops[k].x == x
  }

  lemma {:induction false} DoAllKeeps(s: State, ops: seq<Op>, x: Node)
    requires OpsOk(ops, s.timers.Keys) && Active(s, x) && !Touches(ops, x)
    ensures Active(DoAll(s, ops), x) && DoAll(s, ops).timers[x].key == s.timers[x].key
    decreases |ops|
  {
    if ops != [] {
      assert ops[0].UpdateTime? || ops[0].SetRepeat? || ops[0].x != x;
      forall k | 0 <= k < |ops[1..]|
        ensures ops[1..][k].UpdateTime? || ops[1..][k].SetRepeat? || ops[1..][k].x != x
      {
        assert ops[1..][k] == ops[k + 1];
      }
      assert Active(Do(s, ops[0]), x) && Do(s, ops[0]).timers[x].key == s.timers[x].key;
      DoAllKeeps(Do(s, ops[0]), ops[1..], x);
    }
  }

  // A shot of another timer leaves an untouched timer due.
  lemma {:induction false} FireKeeps(s: State, y: Node, ops: seq<Op>, x: Node)
    requires Ok(s) && Active(s, y) && IsDue(s, x) && x != y && OpsOk(ops, s.timers.Keys) && !Touches(ops, x)
    ensures IsDue(Fire(s, y, ops), x) && Fire(s, y, ops).timers[x].key == s.timers[x].key
  {
    FireOk(s, y, ops);
    DoAllKeeps(DoAgain(DoStop(s, y), y), ops, x);
  }

  /** No callback touches `x` before the shot `shot` of `x`. */
  ghost predicate Spared(script: seq<seq<Op>>, shots: seq<Shot>, shot: Shot) {
    forall k :: 0 <= k < |shots| && k < |script| && Touches(script[k], shot.x) ==> shot in shots[..k + 1]
  }

  lemma {:induction false} SparedTail(script: seq<seq<Op>>, shots: seq<Shot>, shot: Shot)
    requires script != [] && shots != [] && Spared(script, shots, shot) && shots[0] != shot
    ensures !Touches(script[0], shot.x) && Spared(script[1..], shots[1..], shot)
  {
    assert shots[..1] == [shots[0]];
    var rest, script' := shots[1..], script[1..];
    hide Touches;
    forall j | 0 <= j < |rest| && j < |script'| && Touches(script'[j], shot.x)
      ensures shot in rest[..j + 1]
    {
      assert script'[j] == script[j + 1];
      assert shots[..j + 2] == [shots[0]] + rest[..j + 1];
    }
  }

  /** In a pass that has ended, a timer that was due at its start and that no earlier
      callback touched has fired. */
  lemma {:induction false} DueFires(s: State, script: seq<seq<Op>>, o: Outcome, x: Node) returns (i: nat)
    requires Ok(s) && ScriptOk(script, s.timers.Keys) && IsPass(s, script, o) && |o.shots| <= |script|
    requires IsDue(s, x) && o.end.timers.Keys == s.timers.Keys && !IsDue(o.end, x)
    requires Spared(script, o.shots, Shot(x, s.timers[x].key))
    ensures i < |o.shots| && o.shots[i] == Shot(x, s.timers[x].key)
    decreases |script|
  {
    var y := o.shots[0].x;
    if y == x {
      return 0;
    }
    var s' := Fire(s, y, script[0]);
    FireOk(s, y, script[0]);
    SparedTail(script, o.shots, Shot(x, s.timers[x].key));
    FireKeeps(s, y, script[0], x);
    i := DueFires(s', script[1..], Outcome(o.shots[1..], o.end), x);
    i := i + 1;
  }

  // ---------- what makes a timer due ----------

  /** The timers due in `s'` that were not due in `s` with the same deadline and start id. */
  ghost function Fresh(s: State, s': State): set<Node>
    requires s'.timers.Keys == s.timers.Keys
  {
    set x | x in s'.timers && IsDue(s', x) && !(IsDue(s, x) && s.timers[x].key == s'.timers[x].key)
  }

  /** Due timers come and go: those that stay are due on both sides. */
  lemma {:induction false} DueBalance(s: State, s': State)
    requires s'.timers.Keys == s.timers.Keys
    ensures |Due(s')| + |Fresh(s', s)| == |Due(s)| + |Fresh(s, s')|
  {
    var stay := Due(s) - Fresh(s', s);
    assert Due(s) == stay + Fresh(s', s) && stay !! Fresh(s', s);
    assert Due(s') == stay + Fresh(s, s') && stay !! Fresh(s, s');
  }

  /** The timers that an operation makes due: a start that is not refused, with delay zero; at
      the end of time also a start or a restart with any delay; and when the clock moves on,
      those whose deadline it passes. */
  ghost function MadeDue(s: State, op: Op): set<Node>
    requires OpOk(op, s.timers.Keys)
  {
    match op
    case Start(x, hasCb, timeout, _) =>
      if hasCb && !s.timers[x].closing && (timeout == 0 || s.time == MAX64) then {x} else {}
    case Again(x) =>
      var t := s.timers[x];
      if t.hasCb && !t.closing && t.repeat > 0 && s.time == MAX64 then {x} else {}
    case UpdateTime(now) => set x | x in s.timers && Active(s, x) && s.time < s.timers[x].key.timeout <= now
    case _ => {}
  }

  /** The due timers that an operation takes off: it stops, closes or re-arms them. */
  ghost function TakenOff(s: State, op: Op): set<Node>
    requires OpOk(op, s.timers.Keys)
  {
    if op.UpdateTime? || op.SetRepeat? || !IsDue(s, op.x) then {}
    else if op.Start? && !op.hasCb then {}
    else if op.Again? && s.timers[op.x].repeat == 0 then {}
    else {op.x}
  }

  lemma {:induction false} OpMakesDue(s: State, op: Op)
    requires Ok(s) && OpOk(op, s.timers.Keys)
    ensures Fresh(s, Do(s, op)) == MadeDue(s, op) && Fresh(Do(s, op), s) == TakenOff(s, op)
  {
    hide Deadline;
    if !op.UpdateTime? {
      assert TimerOk(s, op.x);
      DeadlineClamps(s.time, if op.Start? then op.timeout else s.timers[op.x].repeat);
    }
    var s' := Do(s, op);
    forall x | x in s.timers
      ensures x in Fresh(s, s') <==> x in MadeDue(s, op)
      ensures x in Fresh(s', s) <==> x in TakenOff(s, op)
    {
      assert TimerOk(s, x);
    }
  }

  /** Below the end of time, and while the clock stands still, an operation makes a timer due
      exactly when it is a start with delay zero that is not refused. */
  lemma {:induction false} DueByZeroDelay(s: State, op: Op)
    requires Ok(s) && s.time < MAX64 && OpOk(op, s.timers.Keys) && !op.UpdateTime?
    ensures Fresh(s, Do(s, op)) != {} <==> ZeroDelay(op) && !s.timers[op.x].closing
    ensures |Fresh(s, Do(s, op))| <= 1
  {
    OpMakesDue(s, op);
  }

  predicate ZeroDelay(op: Op) {
    op.Start? && op.hasCb && op.timeout == 0
  }

  /** How many timers a callback makes due, and how many due ones it takes off. */
  ghost function Gain(s: State, ops: seq<Op>): nat
    requires OpsOk(ops, s.timers.Keys)
    decreases |ops|
  {
    if ops == [] then 0 else |MadeDue(s, ops[0])| + Gain(Do(s, ops[0]), ops[1..])
  }

  ghost function Drop(s: State, ops: seq<Op>): nat
    requires OpsOk(ops, s.timers.Keys)
    decreases |ops|
  {
    if ops == [] then 0 else |TakenOff(s, ops[0])| + Drop(Do(s, ops[0]), ops[1..])
  }

  lemma {:induction false} OpsBalance(s: State, ops: seq<Op>)
    requires Ok(s) && OpsOk(ops, s.timers.Keys)
    ensures |Due(DoAll(s, ops))| + Drop(s, ops) == |Due(s)| + Gain(s, ops)
    decreases |ops|
  {
    if ops != [] {
      var s1 := Do(s, ops[0]);
      DoOk(s, ops[0]);
      OpMakesDue(s, ops[0]);
      DueBalance(s, s1);
      OpsBalance(s1, ops[1..]);
      hide Ok, Due, Fresh, MadeDue, TakenOff, Do;
    }
  }

  // ---------- the balance of a pass ----------

  /** The shots are of known timers, and there is a callback for each. */
  predicate ShotsOk(s: State, script: seq<seq<Op>>, shots: seq<Shot>) {
    && |shots| <= |script| && ScriptOk(script, s.timers.Keys)
    && forall k :: 0 <= k < |shots| ==> shots[k].x in s.timers
  }

  /** How many timers become due during a pass: by the re-arming of a timer that fires, and
      by its callback. */
  ghost function PassGain(s: State, script: seq<seq<Op>>, shots: seq<Shot>): nat
    requires ShotsOk(s, script, shots)
    decreases |script|
  {
    if shots == [] then 0
    else
      var x, s1 := shots[0].x, DoStop(s, shots[0].x);
      |MadeDue(s1, Again(x))| + Gain(DoAgain(s1, x), script[0]) + PassGain(Fire(s, x, script[0]), script[1..], shots[1..])
  }

  /** How many due timers the callbacks of a pass stop, close or re-arm. */
  ghost function PassDrop(s: State, script: seq<seq<Op>>, shots: seq<Shot>): nat
    requires ShotsOk(s, script, shots)
    decreases |script|
  {
    if shots == [] then 0
    else
      var x := shots[0].x;
      Drop(DoAgain(DoStop(s, x), x), script[0]) + PassDrop(Fire(s, x, script[0]), script[1..], shots[1..])
  }

  lemma {:induction false} PassShotsOk(s: State, script: seq<seq<Op>>, o: Outcome)
    requires ScriptOk(script, s.timers.Keys) && IsPass(s, script, o)
    ensures ShotsOk(s, script, o.shots) && o.end.timers.Keys == s.timers.Keys
    decreases |script|
  {
    if o.shots != [] {
      PassShotsOk(Fire(s, o.shots[0].x, script[0]), script[1..], Outcome(o.shots[1..], o.end));
      assert forall k :: 0 < k < |o.shots| ==> o.shots[k] == o.shots[1..][k - 1];
    }
  }

  // One shot: its timer is due no more, the rest is up to the re-arming and the callback.
  lemma {:induction false} FireBalance(s: State, x: Node, ops: seq<Op>)
    requires Ok(s) && IsDue(s, x) && OpsOk(ops, s.timers.Keys)
    ensures var s1 := DoStop(s, x); var s2 := DoAgain(s1, x);
      |Due(Fire(s, x, ops))| + 1 + Drop(s2, ops) == |Due(s)| + |MadeDue(s1, Again(x))| + Gain(s2, ops)
  {
    var s1 := DoStop(s, x);
    var s2 := DoAgain(s1, x);
    DoOk(s, Op.Stop(x));
    OpMakesDue(s, Op.Stop(x));
    DueBalance(s, s1);
    DoOk(s1, Again(x));
    OpMakesDue(s1, Again(x));
    DueBalance(s1, s2);
    OpsBalance(s2, ops);
    hide Ok, Due, Fresh, DoAll, Gain, Drop, Deadline;
  }

  /** How many timers a pass fires, exactly, for all callbacks and at all times: those due at
      its start and those that become due in it, except the ones that a callback takes off and
      the ones that are still due at its end.  So a pass goes on for ever only if timers become
      due again and again. */
  lemma {:induction false} PassBalance(s: State, script: seq<seq<Op>>, o: Outcome)
    requires Ok(s) && ScriptOk(script, s.timers.Keys) && IsPass(s, script, o)
    ensures ShotsOk(s, script, o.shots)
    ensures |o.shots| + |Due(o.end)| + PassDrop(s, script, o.shots) == |Due(s)| + PassGain(s, script, o.shots)
    decreases |script|
  {
    PassShotsOk(s, script, o);
    if o.shots != [] {
      var x := o.shots[0].x;
      FireOk(s, x, script[0]);
      FireBalance(s, x, script[0]);
      PassBalance(Fire(s, x, script[0]), script[1..], Outcome(o.shots[1..], o.end));
      hide Ok, Since, Due, Fire, MadeDue, Gain, Drop, IsPass, IsLeast, ShotsOk;
    }
  }

  // ---------- a pass below the end of time, while the clock stands still ----------

  predicate Still(ops: seq<Op>) {
    forall k :: 0 <= k < |ops| ==> !ops[k].UpdateTime?
  }

  function ZeroDelays(ops: seq<Op>): nat {
    if ops == [] then 0 else (if ZeroDelay(ops[0]) then 1 else 0) + ZeroDelays(ops[1..])
  }

  /** The number of starts with delay zero in the callbacks. */
  function AllZeroDelays(script: seq<seq<Op>>): nat {
    if script == [] then 0 else ZeroDelays(script[0]) + AllZeroDelays(script[1..])
  }

  lemma {:induction false} GainStill(s: State, ops: seq<Op>)
    requires Ok(s) && s.time < MAX64 && OpsOk(ops, s.timers.Keys) && Still(ops)
    ensures DoAll(s, ops).time == s.time && Gain(s, ops) <= ZeroDelays(ops)
    decreases |ops|
  {
    if ops != [] {
      DoOk(s, ops[0]);
      GainStill(Do(s, ops[0]), ops[1..]);
    }
  }

  /** A pass fires at most the timers due at its start and one for each start with delay zero. */
  lemma {:induction false} ShotsBound(s: State, script: seq<seq<Op>>, o: Outcome)
    requires Ok(s) && s.time < MAX64 && ScriptOk(script, s.timers.Keys) && IsPass(s, script, o)
    requires forall k :: 0 <= k < |script| ==> Still(script[k])
    ensures |Due(o.end)| + |o.shots| <= |Due(s)| + AllZeroDelays(script)
    decreases |script|
  {
    if o.shots != [] {
      var x := o.shots[0].x;
      FireOk(s, x, script[0]);
      FireBalance(s, x, script[0]);
      DoOk(s, Op.Stop(x));
      DoOk(DoStop(s, x), Again(x));
      GainStill(DoAgain(DoStop(s, x), x), script[0]);
      ShotsBound(Fire(s, x, script[0]), script[1..], Outcome(o.shots[1..], o.end));
      hide Ok, Since, Due, Gain, Drop, IsPass, IsLeast, Deadline, ZeroDelays, DoAll, OpsOk, Still;
    }
  }

  // ---------- the pass ends ----------

  /** The callback leaves the clock alone and arms timers with positive delays only. */
  predicate Positive(ops: seq<Op>) {
    forall k :: 0 <= k < |ops| ==> !ops[k].UpdateTime? && (ops[k].Start? ==> ops[k].timeout > 0)
  }

  /** Nothing has become due. */
  ghost predicate Cools(s: State, s': State) {
    s'.time == s.time && s'.timers.Keys == s.timers.Keys && Fresh(s, s') == {}
  }

  lemma {:induction false} DoCools(s: State, op: Op)
    requires Ok(s) && s.time < MAX64 && OpOk(op, s.timers.Keys)
    requires !op.UpdateTime? && (op.Start? ==> op.timeout > 0)
    ensures Cools(s, Do(s, op))
  {
    OpMakesDue(s, op);
  }

  lemma {:induction false} CoolsTrans(a: State, b: State, c: State)
    requires Cools(a, b) && Cools(b, c)
    ensures Cools(a, c)
  {
    forall x | x in c.timers
      ensures x !in Fresh(a, c)
    {
      assert x !in Fresh(b, c) && x !in Fresh(a, b);
    }
    assert Fresh(a, c) == {};
  }

  lemma {:induction false} DoAllCools(s: State, ops: seq<Op>)
    requires Ok(s) && s.time < MAX64 && OpsOk(ops, s.timers.Keys) && Positive(ops)
    ensures Cools(s, DoAll(s, ops))
    decreases |ops|
  {
    if ops != [] {
      DoOk(s, ops[0]);
      DoCools(s, ops[0]);
      DoAllCools(Do(s, ops[0]), ops[1..]);
      CoolsTrans(s, Do(s, ops[0]), DoAll(s, ops));
    }
  }

  // A shot takes its timer off the due ones and adds none.
  lemma {:induction false} FireCools(s: State, x: Node, ops: seq<Op>)
    requires Ok(s) && s.time < MAX64 && IsDue(s, x) && OpsOk(ops, s.timers.Keys) && Positive(ops)
    ensures Cools(s, Fire(s, x, ops)) && !IsDue(Fire(s, x, ops), x)
  {
    var s1 := DoStop(s, x);
    var s2 := DoAgain(s1, x);
    DoOk(s, Op.Stop(x));
    DoCools(s, Op.Stop(x));
    DoOk(s1, Again(x));
    DoCools(s1, Again(x));
    CoolsTrans(s, s1, s2);
    DoAllCools(s2, ops);
    CoolsTrans(s, s2, Fire(s, x, ops));
    OpMakesDue(s, Op.Stop(x));
    assert !IsDue(s1, x) && !IsDue(s2, x) && !IsDue(Fire(s, x, ops), x) by {
      assert x !in Fresh(s1, s2) && x !in Fresh(s2, Fire(s, x, ops));
    }
    hide DoStop, DoAgain, DoAll, Ok;
  }

  /** The shot is of a timer due in `s`, at its deadline. */
  ghost predicate ShotOf(s: State, shot: Shot) {
    shot.x in s.timers && shot.x in Due(s) && shot.key == s.timers[shot.x].key
  }

  /** With callbacks that stop timers or arm them with positive delays the pass ends: it
      fires timers that were due at its start, each at most once. */
  lemma {:induction false} PassEnds(s: State, script: seq<seq<Op>>, o: Outcome)
    requires Ok(s) && s.time < MAX64 && ScriptOk(script, s.timers.Keys) && IsPass(s, script, o)
    requires forall k :: 0 <= k < |script| ==> Positive(script[k])
    ensures o.end.timers.Keys == s.timers.Keys && Due(o.end) <= Due(s)
    ensures |Due(o.end)| + |o.shots| <= |Due(s)|
    ensures forall i :: 0 <= i < |o.shots| ==> ShotOf(s, o.shots[i])
    decreases |script|
  {
    if o.shots != [] {
      var x := o.shots[0].x;
      var s', rest := Fire(s, x, script[0]), o.shots[1..];
      FireOk(s, x, script[0]);
      FireCools(s, x, script[0]);
      CoolStep(s, s', x);
      PassEnds(s', script[1..], Outcome(rest, o.end));
      hide Fire, Ok, Since, Cools, IsPass, IsDue, Due, Positive, OpsOk;
      forall i | 0 <= i < |o.shots|
        ensures ShotOf(s, o.shots[i])
      {
        assert i > 0 ==> ShotOf(s', rest[i - 1]) && o.shots[i] == rest[i - 1];
      }
    }
  }

  lemma {:induction false} CoolStep(s: State, s': State, x: Node)
    requires Cools(s, s') && x in s.timers && IsDue(s, x) && !IsDue(s', x)
    ensures x in Due(s) && s'.time == s.time && Due(s') <= Due(s) && |Due(s')| + 1 <= |Due(s)|
    ensures forall y :: y in Due(s') ==> y in s.timers && y in s'.timers && s'.timers[y].key == s.timers[y].key
  {
    forall y | y in Due(s')
      ensures y in Due(s) - {x} && s'.timers[y].key == s.timers[y].key
    {
      assert y !in Fresh(s, s');
    }
    SubsetSize(Due(s'), Due(s) - {x});
  }

  lemma {:induction false} SubsetSize(a: set<Node>, b: set<Node>)
    requires a <= b
    ensures |a| <= |b|
  {
    if a != {} {
      var x :| x in a;
      SubsetSize(a - {x}, b - {x});
    }
  }

  // Some timer of a set of active timers is least in it.
  lemma {:induction false} SomeLeast(s: State, d: set<Node>) returns (x: Node)
    requires d != {} && d <= s.timers.Keys && forall y :: y in d ==> Active(s, y)
    ensures x in d && forall y :: y in d ==> !Less(s.timers[y].key, s.timers[x].key)
    decreases d
  {
    x :| x in d;
    if d != {x} {
      var y := SomeLeast(s, d - {x});
      if Less(s.timers[y].key, s.timers[x].key) {
        x := y;
      }
    }
  }

  // The pass stops when nothing is due.
  lemma {:induction false} LeastNotDue(s: State)
    requires forall x :: x in s.timers && IsLeast(s, x) ==> !IsDue(s, x)
    ensures Due(s) == {}
  {
    var d := set x | x in s.timers && Active(s, x);
    if d != {} {
      var x := SomeLeast(s, d);
      assert IsLeast(s, x);
    }
  }

  lemma {:induction false} EndsDry(s: State, script: seq<seq<Op>>, o: Outcome)
    requires ScriptOk(script, s.timers.Keys) && IsPass(s, script, o)
    ensures |o.shots| <= |script| && (|o.shots| < |script| ==> Due(o.end) == {})
    decreases |script|
  {
    if o.shots == [] {
      if script != [] {
        LeastNotDue(s);
      }
    } else {
      EndsDry(Fire(s, o.shots[0].x, script[0]), script[1..], Outcome(o.shots[1..], o.end));
    }
  }

  /** One pass with such callbacks leaves nothing due and fires every timer that was due at
      its start exactly once, except those that an earlier callback touched. */
  lemma {:induction false} FiresExactlyOnce(s: State, script: seq<seq<Op>>, o: Outcome, x: Node) returns (i: nat)
    requires Ok(s) && s.time < MAX64 && ScriptOk(script, s.timers.Keys) && IsPass(s, script, o)
    requires (forall k :: 0 <= k < |script| ==> Positive(script[k])) && |script| > |Due(s)|
    requires IsDue(s, x)
    requires Spared(script, o.shots, Shot(x, s.timers[x].key))
    ensures Due(o.end) == {}
    ensures i < |o.shots| && o.shots[i] == Shot(x, s.timers[x].key)
    ensures forall j :: 0 <= j < |o.shots| && o.shots[j].x == x ==> j == i
  {
    PassEnds(s, script, o);
    EndsDry(s, script, o);
    assert x !in Due(o.end);
    i := DueFires(s, script, o, x);
    forall j | 0 <= j < |o.shots| && o.shots[j].x == x
      ensures j == i
    {
      if j < i {
        FiringOrder(s, script, o, j, i);
      } else if i < j {
        FiringOrder(s, script, o, i, j);
      }
    }
  }

  // ---------- three ways to keep a pass going for ever ----------

  // While something is due, the pass goes on.
  lemma {:induction false} NextShot(s: State) returns (x: Node)
    requires Due(s) != {}
    ensures IsLeast(s, x) && IsDue(s, x)
  {
    var y :| y in Due(s);
    x := SomeLeast(s, set z | z in s.timers && Active(s, z));
    assert !Less(s.timers[y].key, s.timers[x].key);
  }

  lemma {:induction false} ConsPass(s: State, x: Node, ops: seq<Op>, script: seq<seq<Op>>, o: Outcome)
    returns (script': seq<seq<Op>>, o': Outcome)
    requires IsLeast(s, x) && IsDue(s, x) && OpsOk(ops, s.timers.Keys) && ScriptOk(script, s.timers.Keys)
    requires IsPass(Fire(s, x, ops), script, o)
    ensures script' == [ops] + script && o'.shots == [Shot(x, s.timers[x].key)] + o.shots && o'.end == o.end
    ensures ScriptOk(script', s.timers.Keys) && IsPass(s, script', o')
  {
    script', o' := [ops] + script, Outcome([Shot(x, s.timers[x].key)] + o.shots, o.end);
    assert script'[1..] == script && o'.shots[1..] == o.shots;
  }

  lemma {:induction false} FireOne(s: State, x: Node, op: Op)
    requires x in s.timers && OpOk(op, s.timers.Keys)
    ensures OpsOk([op], s.timers.Keys) && Fire(s, x, [op]) == Do(DoAgain(DoStop(s, x), x), op)
  {
    var t := DoAgain(DoStop(s, x), x);
    assert DoAll(t, [op]) == DoAll(Do(t, op), [op][1..]) && [op][1..] == [];
  }

  lemma {:induction false} ZeroDelayTurn(s: State) returns (x: Node)
    requires Ok(s) && Due(s) != {}
    ensures IsLeast(s, x) && IsDue(s, x) && OpsOk([Start(x, true, 0, 0)], s.timers.Keys)
    ensures var s' := Fire(s, x, [Start(x, true, 0, 0)]); Ok(s') && Due(s') != {}
  {
    x := NextShot(s);
    assert TimerOk(s, x);
    var op := Start(x, true, 0, 0);
    FireOne(s, x, op);
    FireOk(s, x, [op]);
    DeadlineClamps(s.time, 0);
    hide Deadline;
    assert x in Due(Fire(s, x, [op]));
  }

  /** From any state with something due: callbacks that re-arm their timer with delay zero. */
  lemma {:induction false} ZeroDelaySpins(s: State, n: nat) returns (script: seq<seq<Op>>, o: Outcome)
    requires Ok(s) && Due(s) != {}
    ensures |script| == n == |o.shots| && ScriptOk(script, s.timers.Keys) && IsPass(s, script, o)
    ensures forall k :: 0 <= k < n ==> script[k] == [Start(o.shots[k].x, true, 0, 0)]
    decreases n
  {
    script, o := [], Outcome([], s);
    if n > 0 {
      hide Fire, Ok, Due, IsLeast, IsDue, OpsOk, IsPass, ScriptOk;
      var x := ZeroDelayTurn(s);
      var op := Start(x, true, 0, 0);
      var script', o' := ZeroDelaySpins(Fire(s, x, [op]), n - 1);
      script, o := ConsPass(s, x, [op], script', o');
      forall k | 0 <= k < n
        ensures script[k] == [Start(o.shots[k].x, true, 0, 0)]
      {
        assert k > 0 ==> script[k] == script'[k - 1] && o.shots[k] == o'.shots[k - 1];
      }
    }
  }

  lemma {:induction false} EndOfTimeTurn(s: State, x: Node) returns (y: Node)
    requires Ok(s) && s.time == MAX64 && Active(s, x) && s.timers[x].repeat > 0
    ensures IsLeast(s, y) && IsDue(s, y) && OpsOk([], s.timers.Keys)
    ensures var s' := Fire(s, y, []); Ok(s') && s'.time == MAX64 && Active(s', x) && s'.timers[x].repeat > 0
  {
    assert TimerOk(s, x);
    assert x in Due(s);
    y := NextShot(s);
    assert TimerOk(s, y);
    FireOk(s, y, []);
    assert Fire(s, y, []) == DoAgain(DoStop(s, y), y);
    hide Deadline, Ok;
  }

  /** From any state at the end of time with a repeating timer: callbacks that do nothing. */
  lemma {:induction false} EndOfTimeSpins(s: State, x: Node, n: nat) returns (script: seq<seq<Op>>, o: Outcome)
    requires Ok(s) && s.time == MAX64 && Active(s, x) && s.timers[x].repeat > 0
    ensures |script| == n == |o.shots| && ScriptOk(script, s.timers.Keys) && IsPass(s, script, o)
    ensures forall k :: 0 <= k < n ==> script[k] == []
    decreases n
  {
    script, o := [], Outcome([], s);
    if n > 0 {
      hide Fire, Ok, IsLeast, IsDue, OpsOk, IsPass, ScriptOk;
      var y := EndOfTimeTurn(s, x);
      var script', o' := EndOfTimeSpins(Fire(s, y, []), x, n - 1);
      script, o := ConsPass(s, y, [], script', o');
    }
  }

  /** Callbacks during which the clock moves on by `interval` each. */
  function Slow(time: nat, interval: nat, n: nat): seq<seq<Op>>
    decreases n
  {
    if n == 0 then [] else [[UpdateTime(Deadline(time, interval))]] + Slow(Deadline(time, interval), interval, n - 1)
  }

  lemma {:induction false} SlowTurn(s: State, x: Node) returns (y: Node, now: nat)
    requires Ok(s) && IsDue(s, x) && s.timers[x].repeat > 0
    ensures now == Deadline(s.time, s.timers[x].repeat)
    ensures IsLeast(s, y) && IsDue(s, y) && OpsOk([UpdateTime(now)], s.timers.Keys)
    ensures var s' := Fire(s, y, [UpdateTime(now)]);
      Ok(s') && s'.time == now && IsDue(s', x) && s'.timers[x].repeat == s.timers[x].repeat
  {
    var r := s.timers[x].repeat;
    assert TimerOk(s, x);
    DeadlineClamps(s.time, r);
    now := Deadline(s.time, r);
    assert x in Due(s);
    y := NextShot(s);
    assert TimerOk(s, y);
    FireOne(s, y, UpdateTime(now));
    FireOk(s, y, [UpdateTime(now)]);
    SlowDue(s, x, y, now);
    hide Deadline, Fire, Ok, Since, IsLeast, Due, DoAgain, DoStop, Do, IsDue;
  }

  // At the later time the timer is due, be it re-armed or not.
  lemma {:induction false} SlowDue(s: State, x: Node, y: Node, now: nat)
    requires IsDue(s, x) && IsDue(s, y) && s.timers[x].repeat > 0 && TimerOk(s, x)
    requires now == Deadline(s.time, s.timers[x].repeat) >= s.time && now <= MAX64
    ensures var s' := Do(DoAgain(DoStop(s, y), y), UpdateTime(now));
      s'.time == now && IsDue(s', x) && s'.timers[x].repeat == s.timers[x].repeat
  {
    hide Deadline;
  }

  /** From any state with a due repeating timer: callbacks that update the time and have taken
      as long as its interval. */
  lemma {:induction false} SlowSpins(s: State, x: Node, n: nat) returns (script: seq<seq<Op>>, o: Outcome)
    requires Ok(s) && IsDue(s, x) && s.timers[x].repeat > 0
    ensures script == Slow(s.time, s.timers[x].repeat, n) && |o.shots| == n
    ensures ScriptOk(script, s.timers.Keys) && IsPass(s, script, o)
    decreases n
  {
    script, o := [], Outcome([], s);
    if n > 0 {
      hide Fire, Ok, IsLeast, OpsOk, IsPass, ScriptOk, Deadline;
      var y, now := SlowTurn(s, x);
      var op := UpdateTime(now);
      var script', o' := SlowSpins(Fire(s, y, [op]), x, n - 1);
      script, o := ConsPass(s, y, [op], script', o');
    }
  }

  // ---------- a pass, one shot at a time ----------

  lemma {:induction false} PassSnoc(s: State, script: seq<seq<Op>>, ops: seq<Op>, o: Outcome, x: Node)
    requires ScriptOk(script, s.timers.Keys) && OpsOk(ops, s.timers.Keys)
    requires IsPass(s, script, o) && |o.shots| == |script| && o.end.timers.Keys == s.timers.Keys
    requires IsLeast(o.end, x) && IsDue(o.end, x)
    ensures ScriptOk(script + [ops], s.timers.Keys)
    ensures IsPass(s, script + [ops], Outcome(o.shots + [Shot(x, o.end.timers[x].key)], Fire(o.end, x, ops)))
    decreases |script|
  {
    var shot := Shot(x, o.end.timers[x].key);
    var o' := Outcome(o.shots + [shot], Fire(o.end, x, ops));
    var more := script + [ops];
    if script == [] {
      assert more[1..] == [] && o'.shots[1..] == [];
      hide Fire, OpsOk, IsLeast, IsDue;
    } else {
      var y, s1 := o.shots[0].x, Fire(s, o.shots[0].x, script[0]);
      PassSnoc(s1, script[1..], ops, Outcome(o.shots[1..], o.end), x);
      hide Fire, OpsOk, IsLeast, IsDue, IsPass, ScriptOk;
      var more', o'' := ConsPass(s, y, script[0], script[1..] + [ops], Outcome(o.shots[1..] + [shot], o'.end));
      assert more' == more && o''.shots == o'.shots;
    }
  }

  lemma {:induction false} PassStops(s: State, script: seq<seq<Op>>, more: seq<seq<Op>>, o: Outcome)
    requires ScriptOk(script + more, s.timers.Keys) && ScriptOk(script, s.timers.Keys)
    requires IsPass(s, script, o) && |o.shots| == |script| && o.end.timers.Keys == s.timers.Keys
    requires Due(o.end) == {}
    ensures IsPass(s, script + more, o)
    decreases |script|
  {
    if script == [] {
      forall x | x in s.timers && IsLeast(s, x)
        ensures !IsDue(s, x)
      {
        assert x !in Due(o.end);
      }
    } else {
      assert (script + more)[1..] == script[1..] + more;
      forall k | 0 <= k < |script[1..] + more|
        ensures OpsOk((script[1..] + more)[k], s.timers.Keys)
      {
        assert (script[1..] + more)[k] == (script + more)[k + 1];
      }
      PassStops(Fire(s, o.shots[0].x, script[0]), script[1..], more, Outcome(o.shots[1..], o.end));
    }
  }
}
