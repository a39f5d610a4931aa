/** Handle flags, the count of active referenced handles, and the closing list. */
module Handles {
  import opened Seqs

  /** uv_handle_t: its flags, whether it is in loop->handle_queue, and how often its
      close_cb has run. */
  datatype Handle = Handle(active: bool, ref: bool, closing: bool, closed: bool, inQueue: bool, closeCbs: nat)

  /** The loop: `closing` is loop->closing_handles, and `local` what uv__run_closing_handles
      still has to finish. */
  datatype State = State(handles: seq<Handle>, activeHandles: int, closing: seq<nat>, local: seq<nat>)

  datatype Op = Init | Start(h: nat) | Stop(h: nat) | Ref(h: nat) | Unref(h: nat) | Close(h: nat)

  predicate Counts(x: Handle) {
    x.active && x.ref
  }

  /** The number of handles that are active and referenced. */
  function Count(hs: seq<Handle>): nat {
    if hs == [] then 0 else Count(hs[..|hs| - 1]) + if Counts(hs[|hs| - 1]) then 1 else 0
  }

  lemma {:induction false} CountUpdate(hs: seq<Handle>, i: nat, x: Handle)
    requires i < |hs|
    ensures Count(hs[i := x]) == Count(hs) - (if Counts(hs[i]) then 1 else 0) + (if Counts(x) then 1 else 0)
    decreases |hs|
  {
    var n := |hs| - 1;
    if i == n {
      assert hs[i := x][..n] == hs[..n];
    } else {
      assert hs[i := x][..n] == hs[..n][i := x];
      CountUpdate(hs[..n], i, x);
    }
  }

  lemma {:induction false} CountZero(hs: seq<Handle>)
    ensures Count(hs) == 0 <==> forall i :: 0 <= i < |hs| ==> !Counts(hs[i])
    decreases |hs|
  {
    if hs != [] {
      CountZero(hs[..|hs| - 1]);
    }
  }

  // ---------- the macros and uv_close ----------

  /** uv__handle_start */
  function DoStart(s: State, h: nat): State
    requires h < |s.handles|
  {
    var x := s.handles[h];
    if x.active then s
    else s.(handles := s.handles[h := x.(active := true)], activeHandles := s.activeHandles + if x.ref then 1 else 0)
  }

  /** uv__handle_stop */
  function DoStop(s: State, h: nat): State
    requires h < |s.handles|
  {
    var x := s.handles[h];
    if !x.active then s
    else s.(handles := s.handles[h := x.(active := false)], activeHandles := s.activeHandles - if x.ref then 1 else 0)
  }

  /** uv__handle_ref */
  function DoRef(s: State, h: nat): State
    requires h < |s.handles|
  {
    var x := s.handles[h];
    if x.ref then s
    else s.(handles := s.handles[h := x.(ref := true)],
            activeHandles := s.activeHandles + if !x.closing && x.active then 1 else 0)
  }

  /** uv__handle_unref */
  function DoUnref(s: State, h: nat): State
    requires h < |s.handles|
  {
    var x := s.handles[h];
    if !x.ref then s
    else s.(handles := s.handles[h := x.(ref := false)],
            activeHandles := s.activeHandles - if !x.closing && x.active then 1 else 0)
  }

  /** uv_close: the flag, the stop of the handle's own close function, and uv__make_close_pending. */
  function DoClose(s: State, h: nat): State
    requires h < |s.handles|
  {
    var s1 := DoStop(s.(handles := s.handles[h := s.handles[h].(closing := true)]), h);
    s1.(closing := [h] + s1.closing)
  }

  /** What the caller of an operation owes: uv_close asserts that the handle is not closing. */
  predicate OpOk(s: State, op: Op) {
    match op
    case Init => true
    case Close(h) => h < |s.handles| && !s.handles[h].closing
    case _ => op.h < |s.handles|
  }

  function Do(s: State, op: Op): State
    requires OpOk(s, op)
  {
    match op
    case Init => s.(handles := s.handles + [Handle(false, true, false, false, true, 0)])
    case Start(h) => DoStart(s, h)
    case Stop(h) => DoStop(s, h)
    case Ref(h) => DoRef(s, h)
    case Unref(h) => DoUnref(s, h)
    case Close(h) => DoClose(s, h)
  }

  // ---------- the invariant ----------

  /** A closing handle is inactive and listed until it is finished; its close_cb runs once,
      when it has left the handle queue. */
  predicate HandleOk(s: State, h: nat)
    requires h < |s.handles|
  {
    var x := s.handles[h];
    && (x.closing ==> !x.active)
    && (x.closed ==> x.closing)
    && (x.closing && !x.closed <==> h in s.closing || h in s.local)
    && (x.inQueue <==> !x.closed)
    && x.closeCbs == if x.closed then 1 else 0
  }

  ghost predicate Inv(s: State) {
    && s.activeHandles == Count(s.handles)
    && NoDup(s.local + s.closing)
    && (forall h :: h in s.closing || h in s.local ==> h < |s.handles|)
    && forall h {:trigger HandleOk(s, h)} :: 0 <= h < |s.handles| ==> HandleOk(s, h)
  }

  /** Starting a handle that is closing: only uv_timer_start refuses that by itself. */
  predicate LateStart(s: State, op: Op) {
    op.Start? && op.h < |s.handles| && s.handles[op.h].closing
  }

  lemma {:induction false} CloseListed(s: State, h: nat)
    requires Inv(s) && h < |s.handles| && !s.handles[h].closing
    ensures h !in s.closing && h !in s.local && NoDup(s.local + ([h] + s.closing))
  {
    assert HandleOk(s, h);
    var q, q' := s.local + s.closing, s.local + ([h] + s.closing);
    var n := |s.local|;
    forall i, j | 0 <= i < j < |q'|
      ensures q'[i] != q'[j]
    {
      var i', j' := if i > n then i - 1 else i, if j > n then j - 1 else j;
      assert i != n ==> q'[i] == q[i'] && q[i'] in q;
      assert j != n ==> q'[j] == q[j'] && q[j'] in q;
      assert forall x :: x in q ==> x in s.local || x in s.closing;
    }
  }

  // The count and the lists after an operation, late starts included.
  lemma {:induction false} DoLists(s: State, op: Op)
    requires Inv(s) && OpOk(s, op)
    ensures var s' := Do(s, op);
      && s'.activeHandles == Count(s'.handles) && NoDup(s'.local + s'.closing) && |s'.handles| >= |s.handles|
      && forall h :: h in s'.closing || h in s'.local ==> h < |s'.handles|
  {
    var s' := Do(s, op);
    if op.Init? {
      assert s'.handles[..|s.handles|] == s.handles;
    } else {
      assert HandleOk(s, op.h);
      CountUpdate(s.handles, op.h, s'.handles[op.h]);
      assert s'.handles == s.handles[op.h := s'.handles[op.h]];
      if op.Close? {
        CloseListed(s, op.h);
      }
    }
    hide Count, NoDup;
  }

  /** An operation keeps the invariant exactly when it does not start a closing handle. */
  lemma {:induction false} DoInv(s: State, op: Op)
    requires Inv(s) && OpOk(s, op)
    ensures Inv(Do(s, op)) <==> !LateStart(s, op)
  {
    hide Count, NoDup;
    DoLists(s, op);
    var s' := Do(s, op);
    if LateStart(s, op) {
      assert HandleOk(s, op.h) && !HandleOk(s', op.h);
    } else {
      forall h | 0 <= h < |s'.handles|
        ensures HandleOk(s', h)
      {
        assert h < |s.handles| ==> HandleOk(s, h);
      }
    }
  }

  // ---------- the closing pass ----------

  /** One turn of uv__run_closing_handles: `busy` is a signal handle with signals still to
      dispatch, and `ops` what the close_cb does. */
  datatype Turn = Turn(busy: bool, ops: seq<Op>)

  /** uv__finish_close up to the callback. */
  function Finish(s: State, busy: bool): State
    requires s.local != [] && s.local[0] < |s.handles|
  {
    var h := s.local[0];
    var s1 := s.(local := s.local[1..]);
    if busy then s1.(closing := [h] + s.closing)
    else
      var s2 := DoUnref(s1.(handles := s.handles[h := s.handles[h].(closed := true)]), h);
      var x := s2.handles[h];
      s2.(handles := s2.handles[h := x.(inQueue := false, closeCbs := x.closeCbs + 1)])
  }

  // The head of the local list is closing, not finished, and listed once.
  lemma {:induction false} HeadFacts(s: State)
    requires Inv(s) && s.local != []
    ensures s.local[0] < |s.handles| && s.local[0] !in s.local[1..] && s.local[0] !in s.closing
    ensures var x := s.handles[s.local[0]]; x.closing && !x.closed && !x.active && x.closeCbs == 0
    ensures NoDup(s.local[1..] + s.closing) && NoDup(s.local[1..] + ([s.local[0]] + s.closing))
    ensures forall h :: h in s.local <==> h == s.local[0] || h in s.local[1..]
  {
    var q, h := s.local + s.closing, s.local[0];
    assert h in s.local;
    assert HandleOk(s, h);
    assert s.local == [h] + s.local[1..];
    var r := s.local[1..] + s.closing;
    assert q == [h] + r;
    NoDupTail(q);
    assert q[1..] == r;
    assert forall x :: x in r <==> x in s.local[1..] || x in s.closing;
    InsertNoDup(s.local[1..], h, s.closing);
  }

  lemma {:induction false} InsertNoDup(a: seq<nat>, x: nat, b: seq<nat>)
    requires NoDup(a + b) && x !in a && x !in b
    ensures NoDup(a + ([x] + b))
  {
    var q, q', n := a + b, a + ([x] + b), |a|;
    forall i, j | 0 <= i < j < |q'|
      ensures q'[i] != q'[j]
    {
      var i', j' := if i > n then i - 1 else i, if j > n then j - 1 else j;
      assert i != n ==> q'[i] == q[i'] && q[i'] in q;
      assert j != n ==> q'[j] == q[j'] && q[j'] in q;
      assert forall y :: y in q ==> y in a || y in b;
    }
  }

  /** The asserts of uv__finish_close hold, and it keeps the invariant. */
  lemma {:induction false} FinishInv(s: State, busy: bool)
    requires Inv(s) && s.local != []
    ensures s.local[0] < |s.handles| && s.handles[s.local[0]].closing && !s.handles[s.local[0]].closed
    ensures s.handles[s.local[0]].closeCbs == 0
    ensures Inv(Finish(s, busy))
  {
    HeadFacts(s);
    var s', h := Finish(s, busy), s.local[0];
    CountUpdate(s.handles, h, s'.handles[h]);
    assert s'.handles == s.handles[h := s'.handles[h]];
    hide Count, NoDup;
    forall k | 0 <= k < |s'.handles|
      ensures HandleOk(s', k)
    {
      assert HandleOk(s, k);
    }
  }

  /** Every operation is allowed where it happens, and none starts a closing handle. */
  predicate OpsOk(s: State, ops: seq<Op>)
    decreases |ops|
  {
    ops != [] ==> OpOk(s, ops[0]) && !LateStart(s, ops[0]) && OpsOk(Do(s, ops[0]), ops[1..])
  }

  function DoAll(s: State, ops: seq<Op>): State
    requires OpsOk(s, ops)
    decreases |ops|
  {
    if ops == [] then s else DoAll(Do(s, ops[0]), ops[1..])
  }

  /** A closing handle stays one. */
  predicate StillClosing(s: State, s': State) {
    |s.handles| <= |s'.handles| && forall h :: 0 <= h < |s.handles| && s.handles[h].closing ==> s'.handles[h].closing
  }

  lemma {:induction false} StillTrans(a: State, b: State, c: State)
    requires StillClosing(a, b) && StillClosing(b, c)
    ensures StillClosing(a, c)
  {
  }

  lemma {:induction false} DoAllInv(s: State, ops: seq<Op>)
    requires Inv(s) && OpsOk(s, ops)
    ensures Inv(DoAll(s, ops)) && DoAll(s, ops).local == s.local && StillClosing(s, DoAll(s, ops))
    decreases |ops|
  {
    if ops != [] {
      DoInv(s, ops[0]);
      DoAllInv(Do(s, ops[0]), ops[1..]);
    }
  }

  predicate HeadOk(s: State) {
    s.local != [] ==> s.local[0] < |s.handles|
  }

  predicate ScriptOk(s: State, script: seq<Turn>)
    requires HeadOk(s)
    decreases |script|
  {
    s.local == [] ||
    (script != [] &&
     var s1 := Finish(s, script[0].busy);
     && (script[0].busy ==> script[0].ops == []) && OpsOk(s1, script[0].ops)
     && var s2 := DoAll(s1, script[0].ops);
     HeadOk(s2) && ScriptOk(s2, script[1..]))
  }

  /** What the closing pass makes of the state. */
  function CloseAll(s: State, script: seq<Turn>): State
    requires HeadOk(s) && ScriptOk(s, script)
    decreases |script|
  {
    if s.local == [] then s
    else CloseAll(DoAll(Finish(s, script[0].busy), script[0].ops), script[1..])
  }

  // One turn of the closing pass.
  lemma {:induction false} CloseOne(s: State, script: seq<Turn>)
    requires s.local != [] && HeadOk(s) && ScriptOk(s, script)
    ensures script != [] && OpsOk(Finish(s, script[0].busy), script[0].ops) && (script[0].busy ==> script[0].ops == [])
    ensures var s' := DoAll(Finish(s, script[0].busy), script[0].ops);
      && HeadOk(s') && ScriptOk(s', script[1..]) && CloseAll(s, script) == CloseAll(s', script[1..])
      && (script[0].busy ==> s' == Finish(s, true))
  {
  }

  /** The list as uv__run_closing_handles takes it. */
  function Taken(s: State): State {
    s.(closing := [], local := s.closing)
  }

  /** uv__loop_alive */
  predicate Alive(s: State, activeReqs: nat, pending: nat) {
    s.activeHandles > 0 || activeReqs > 0 || pending > 0 || s.closing != []
  }

  /** No request and no pending watcher, no handle that is active and referenced, and none
      that still waits to be closed. */
  ghost predicate Dead(s: State, activeReqs: nat, pending: nat) {
    && activeReqs == 0 && pending == 0
    && forall h :: 0 <= h < |s.handles| ==> !Counts(s.handles[h]) && (s.handles[h].closing ==> s.handles[h].closed)
  }

  /** The counters and lists that uv__loop_alive looks at say whether anything is left to do. */
  lemma {:induction false} DeadLoop(s: State, activeReqs: nat, pending: nat)
    requires Inv(s) && s.local == []
    ensures !Alive(s, activeReqs, pending) <==> Dead(s, activeReqs, pending)
  {
    CountZero(s.handles);
    forall h | 0 <= h < |s.handles|
      ensures s.handles[h].closing && !s.handles[h].closed <==> h in s.closing
    {
      assert HandleOk(s, h);
    }
    ListedHead(s);
  }

  lemma {:induction false} ListedHead(s: State)
    requires Inv(s)
    ensures s.closing != [] ==> s.closing[0] < |s.handles| && s.closing[0] in s.closing
  {
  }

  // ---------- when the count goes wrong ----------

  /** By how much active_handles is above the number of handles that are active and referenced. */
  function Drift(s: State): int {
    s.activeHandles - Count(s.handles)
  }

  /** A step of a run: a call of the interface, or a step of the closing pass. */
  datatype Step = Call(op: Op) | Take | FinishHead(busy: bool)

  predicate StepOk(s: State, e: Step) {
    match e
    case Call(op) => OpOk(s, op)
    case Take => s.local == []
    case FinishHead(_) => s.local != [] && s.local[0] < |s.handles|
  }

  function DoStep(s: State, e: Step): State
    requires StepOk(s, e)
  {
    match e
    case Call(op) => Do(s, op)
    case Take => Taken(s)
    case FinishHead(busy) => Finish(s, busy)
  }

  /** Where the count goes wrong: a handle that is active though it is closing loses or gains
      its reference, and uv__handle_unref and uv__handle_ref do not count that. */
  function Miscount(s: State, e: Step): int
    requires StepOk(s, e)
  {
    match e
    case Call(Unref(h)) => if Counts(s.handles[h]) && s.handles[h].closing then 1 else 0
    case Call(Ref(h)) => if s.handles[h].active && !s.handles[h].ref && s.handles[h].closing then -1 else 0
    case FinishHead(busy) => if !busy && Counts(s.handles[s.local[0]]) && s.handles[s.local[0]].closing then 1 else 0
    case _ => 0
  }

  /** Every step of every state, legal or not, moves the drift by exactly that. */
  lemma {:induction false} StepDrift(s: State, e: Step)
    requires StepOk(s, e)
    ensures Drift(DoStep(s, e)) == Drift(s) + Miscount(s, e)
  {
    var s' := DoStep(s, e);
    if e.Call? && e.op.Init? {
      assert s'.handles[..|s.handles|] == s.handles;
    } else if !e.Take? {
      var h := if e.Call? then e.op.h else s.local[0];
      CountUpdate(s.handles, h, s'.handles[h]);
      assert s'.handles == s.handles[h := s'.handles[h]];
    }
    hide Count;
  }

  predicate StepsOk(s: State, steps: seq<Step>)
    decreases |steps|
  {
    steps != [] ==> StepOk(s, steps[0]) && StepsOk(DoStep(s, steps[0]), steps[1..])
  }

  function RunSteps(s: State, steps: seq<Step>): State
    requires StepsOk(s, steps)
    decreases |steps|
  {
    if steps == [] then s else RunSteps(DoStep(s, steps[0]), steps[1..])
  }

  function Miscounts(s: State, steps: seq<Step>): int
    requires StepsOk(s, steps)
    decreases |steps|
  {
    if steps == [] then 0 else Miscount(s, steps[0]) + Miscounts(DoStep(s, steps[0]), steps[1..])
  }

  const EMPTY := State([], 0, [], [])

  /** After any run of a new loop, late starts included, active_handles is the number of active
      referenced handles plus the miscounts of the run. */
  lemma {:induction false} RunDrift(steps: seq<Step>)
    requires StepsOk(EMPTY, steps)
    ensures var s := RunSteps(EMPTY, steps); s.activeHandles == Count(s.handles) + Miscounts(EMPTY, steps)
  {
    StepsDrift(EMPTY, steps);
  }

  lemma {:induction false} StepsDrift(s: State, steps: seq<Step>)
    requires StepsOk(s, steps)
    ensures Drift(RunSteps(s, steps)) == Drift(s) + Miscounts(s, steps)
    decreases |steps|
  {
    if steps != [] {
      StepDrift(s, steps[0]);
      StepsDrift(DoStep(s, steps[0]), steps[1..]);
    }
  }

  // ---------- the flags ----------

  /** The step finishes the handle `h`. */
  predicate Finishes(s: State, e: Step, h: nat) {
    e == FinishHead(false) && s.local != [] && s.local[0] == h
  }

  /** What a step makes of the handle `h` and its flags. */
  ghost predicate Flagged(s: State, e: Step, h: nat, x: Handle, x': Handle) {
    && (x'.active <==> e == Call(Start(h)) || (x.active && e != Call(Stop(h)) && e != Call(Close(h))))
    && (x'.ref <==> e == Call(Ref(h)) || (x.ref && e != Call(Unref(h)) && !Finishes(s, e, h)))
    && (x'.closing <==> e == Call(Close(h)) || x.closing)
    && (x'.closed <==> Finishes(s, e, h) || x.closed)
    && x'.closeCbs == x.closeCbs + if Finishes(s, e, h) then 1 else 0
  }

  lemma {:induction false} CallFlags(s: State, op: Op)
    requires OpOk(s, op) && !op.Init?
    ensures |Do(s, op).handles| == |s.handles|
    ensures forall h :: 0 <= h < |s.handles| ==> Flagged(s, Call(op), h, s.handles[h], Do(s, op).handles[h])
  {
  }

  lemma {:induction false} FinishFlags(s: State, busy: bool)
    requires s.local != [] && s.local[0] < |s.handles|
    ensures |Finish(s, busy).handles| == |s.handles|
    ensures forall h :: 0 <= h < |s.handles| ==> Flagged(s, FinishHead(busy), h, s.handles[h], Finish(s, busy).handles[h])
  {
  }

  /** What a step does to the flags of the handles there are, and those of a new one. */
  lemma {:induction false} StepFlags(s: State, e: Step)
    requires StepOk(s, e)
    ensures var s' := DoStep(s, e);
      && |s'.handles| == |s.handles| + (if e == Call(Init) then 1 else 0)
      && (e == Call(Init) ==> s'.handles[|s.handles|] == Handle(false, true, false, false, true, 0))
      && forall h :: 0 <= h < |s.handles| ==> Flagged(s, e, h, s.handles[h], s'.handles[h])
  {
    if e.Call? && !e.op.Init? {
      CallFlags(s, e.op);
      hide Do;
    } else if e.FinishHead? {
      FinishFlags(s, e.busy);
      hide Finish;
    }
  }

  /** What the calls of a run say about `h`: whether a uv__handle_start is the last of the
      starts, stops and closes. */
  predicate StartedLast(steps: seq<Step>, h: nat) {
    steps != [] &&
    var rest, e := steps[..|steps| - 1], steps[|steps| - 1];
    e == Call(Start(h)) || (StartedLast(rest, h) && e != Call(Stop(h)) && e != Call(Close(h)))
  }

  function Inits(steps: seq<Step>): nat {
    if steps == [] then 0 else Inits(steps[..|steps| - 1]) + if steps[|steps| - 1] == Call(Init) then 1 else 0
  }

  /** Whether the last of init, ref, unref and the finishing of `h` is an init or a ref. */
  predicate ReferencedLast(steps: seq<Step>, h: nat)
    requires StepsOk(EMPTY, steps)
  {
    steps != [] &&
    var rest, e := steps[..|steps| - 1], steps[|steps| - 1];
    StepsSnoc(EMPTY, steps);
    || e == Call(Ref(h)) || (e == Call(Init) && Inits(rest) == h)
    || (ReferencedLast(rest, h) && e != Call(Unref(h)) && !Finishes(RunSteps(EMPTY, rest), e, h))
  }

  /** The close callback of `h` has been called in the run. */
  predicate FinishedIn(steps: seq<Step>, h: nat)
    requires StepsOk(EMPTY, steps)
  {
    steps != [] &&
    var rest := steps[..|steps| - 1];
    StepsSnoc(EMPTY, steps);
    Finishes(RunSteps(EMPTY, rest), steps[|steps| - 1], h) || FinishedIn(rest, h)
  }

  lemma {:induction false} StepsSnoc(s: State, steps: seq<Step>)
    requires StepsOk(s, steps) && steps != []
    ensures var rest, e := steps[..|steps| - 1], steps[|steps| - 1];
      StepsOk(s, rest) && StepOk(RunSteps(s, rest), e) && RunSteps(s, steps) == DoStep(RunSteps(s, rest), e)
    decreases |steps|
  {
    var n := |steps| - 1;
    if n > 0 {
      var s1, tail := DoStep(s, steps[0]), steps[1..];
      StepsSnoc(s1, tail);
      assert steps[..n][1..] == tail[..n - 1] && steps[..n][0] == steps[0] && tail[n - 1] == steps[n];
    }
  }

  /** The flags after any run of a new loop, late starts included, are what its calls say: a
      handle is active exactly if it was started after its last stop or close, referenced exactly
      if neither unref nor its finishing came after its init or last ref, and closing exactly
      if it was closed. */
  lemma {:induction false} RunFlags(steps: seq<Step>, h: nat)
    requires StepsOk(EMPTY, steps)
    ensures var s := RunSteps(EMPTY, steps);
      && |s.handles| == Inits(steps)
      && (h < |s.handles| ==>
            && (s.handles[h].active <==> StartedLast(steps, h))
            && (s.handles[h].ref <==> ReferencedLast(steps, h))
            && (s.handles[h].closing <==> Call(Close(h)) in steps)
            && (s.handles[h].closed <==> FinishedIn(steps, h)))
      && (h >= |s.handles| ==> Untouched(steps, h))
  {
    if steps != [] {
      var rest, e := steps[..|steps| - 1], steps[|steps| - 1];
      StepsSnoc(EMPTY, steps);
      RunFlags(rest, h);
      var s := RunSteps(EMPTY, rest);
      StepFlags(s, e);
      assert h < |s.handles| ==> Flagged(s, e, h, s.handles[h], DoStep(s, e).handles[h]);
      assert StepOk(s, e) && (e.FinishHead? ==> s.local[0] < |s.handles|);
      hide DoStep, RunSteps, StepsOk;
      assert steps == rest + [e];
    }
  }

  /** Nothing in the run is about `h`. */
  ghost predicate Untouched(steps: seq<Step>, h: nat)
    requires StepsOk(EMPTY, steps)
  {
    !StartedLast(steps, h) && !ReferencedLast(steps, h) && Call(Close(h)) !in steps && !FinishedIn(steps, h)
  }

  /** A late start of the handle that is closed next: by itself it is counted, and a stop takes
      it back; but unless it is taken back, finishing the handle leaves the count one too high
      exactly when the handle is referenced. */
  lemma {:induction false} LateStartCounts(s: State)
    requires Inv(s) && s.local != []
    ensures s.local[0] < |s.handles|
    ensures var s1 := DoStart(s, s.local[0]); var s' := Finish(s1, false);
      && LateStart(s, Start(s.local[0])) && s1.activeHandles == Count(s1.handles)
      && DoStop(s1, s.local[0]) == s
      && s'.activeHandles == Count(s'.handles) + if s.handles[s.local[0]].ref then 1 else 0
  {
    HeadFacts(s);
    var h := s.local[0];
    StepDrift(s, Call(Start(h)));
    StepDrift(DoStart(s, h), FinishHead(false));
    assert s.handles[h := s.handles[h]] == s.handles;
    assert DoStart(s, h).handles[h := s.handles[h]] == s.handles;
    hide Count, Inv;
  }

  lemma {:induction false} Prepend(s: State, e: Step, steps: seq<Step>)
    requires StepOk(s, e) && StepsOk(DoStep(s, e), steps)
    ensures StepsOk(s, [e] + steps) && RunSteps(s, [e] + steps) == RunSteps(DoStep(s, e), steps)
  {
    assert ([e] + steps)[1..] == steps;
  }

  /** A run that goes wrong: a handle is closed, then started, and finished in the next pass. */
  lemma {:induction false} LateStartSticks() returns (steps: seq<Step>)
    ensures steps == [Call(Init), Call(Close(0)), Call(Start(0)), Take, FinishHead(false)]
    ensures StepsOk(EMPTY, steps)
    ensures RunSteps(EMPTY, steps) == State([Handle(true, false, true, true, false, 1)], 1, [], [])
    ensures Count(RunSteps(EMPTY, steps).handles) == 0
  {
    var s1 := State([Handle(false, true, false, false, true, 0)], 0, [], []);
    var s2 := State([Handle(false, true, true, false, true, 0)], 0, [0], []);
    var s3 := State([Handle(true, true, true, false, true, 0)], 1, [0], []);
    var s4 := State([Handle(true, true, true, false, true, 0)], 1, [], [0]);
    var s5 := State([Handle(true, false, true, true, false, 1)], 1, [], []);
    assert DoStep(EMPTY, Call(Init)) == s1 && DoStep(s1, Call(Close(0))) == s2;
    assert DoStep(s2, Call(Start(0))) == s3 && DoStep(s3, Take) == s4 && DoStep(s4, FinishHead(false)) == s5;
    assert StepsOk(s5, []) && RunSteps(s5, []) == s5;
    hide DoStep, Count, Drift;
    steps := [FinishHead(false)];
    Prepend(s4, FinishHead(false), []);
    Prepend(s3, Take, steps);
    steps := [Take] + steps;
    Prepend(s2, Call(Start(0)), steps);
    steps := [Call(Start(0))] + steps;
    Prepend(s1, Call(Close(0)), steps);
    steps := [Call(Close(0))] + steps;
    Prepend(EMPTY, Call(Init), steps);
    steps := [Call(Init)] + steps;
    CountZero(s5.handles);
  }

  // ---------- uv_run ----------

  datatype Mode = Default | Once | NoWait

  /** One turn of the loop of uv_run: `ops` is what the callbacks of timers, pending, idle,
      prepare, polled and check handles do, `turns` the closing pass, `late` the timers of
      UV_RUN_ONCE; then the requests and pending watchers that are left, and whether uv_stop
      was called. */
  datatype Iteration = Iteration(ops: seq<Op>, turns: seq<Turn>, late: seq<Op>, reqs: nat, pending: nat, stop: bool)

  predicate IterOk(s: State, it: Iteration, mode: Mode) {
    && OpsOk(s, it.ops)
    && var s1 := Taken(DoAll(s, it.ops));
    && HeadOk(s1) && ScriptOk(s1, it.turns)
    && (mode == Once ==> OpsOk(CloseAll(s1, it.turns), it.late))
  }

  function Iterate(s: State, it: Iteration, mode: Mode): State
    requires IterOk(s, it, mode)
  {
    var s1 := CloseAll(Taken(DoAll(s, it.ops)), it.turns);
    if mode == Once then DoAll(s1, it.late) else s1
  }

  predicate RunOk(s: State, its: seq<Iteration>, mode: Mode)
    decreases |its|
  {
    its != [] ==> IterOk(s, its[0], mode) && RunOk(Iterate(s, its[0], mode), its[1..], mode)
  }

  /** The requests and pending watchers left after `k` iterations. */
  function ReqsAt(its: seq<Iteration>, k: nat, reqs: nat): nat
    requires k <= |its|
  {
    if k == 0 then reqs else its[k - 1].reqs
  }

  function PendingAt(its: seq<Iteration>, k: nat, pending: nat): nat
    requires k <= |its|
  {
    if k == 0 then pending else its[k - 1].pending
  }

  predicate Stopped(its: seq<Iteration>, k: nat)
    requires k <= |its|
  {
    exists i :: 0 <= i < k && its[i].stop
  }

  // Finished handles stay so, whatever is called.
  lemma {:induction false} DoAllClosed(s: State, ops: seq<Op>, h: nat)
    requires OpsOk(s, ops) && h < |s.handles|
    ensures h < |DoAll(s, ops).handles|
    ensures s.handles[h].closed ==> DoAll(s, ops).handles[h].closed
    ensures s.handles[h].closing ==> DoAll(s, ops).handles[h].closing
    decreases |ops|
  {
    if ops != [] {
      StepFlags(s, Call(ops[0]));
      DoAllClosed(Do(s, ops[0]), ops[1..], h);
    }
  }

  lemma {:induction false} CloseAllCloses(s: State, script: seq<Turn>, h: nat)
    requires Inv(s) && HeadOk(s) && ScriptOk(s, script) && h < |s.handles| && (h in s.local || s.handles[h].closed)
    requires forall turn :: turn in script ==> !turn.busy
    ensures h < |CloseAll(s, script).handles| && CloseAll(s, script).handles[h].closed
    decreases |script|
  {
    if s.local != [] {
      assert script[0] in script && !script[0].busy;
      var s1 := Finish(s, false);
      HeadFacts(s);
      FinishInv(s, false);
      StepFlags(s, FinishHead(false));
      DoAllInv(s1, script[0].ops);
      DoAllClosed(s1, script[0].ops, h);
      hide Inv, Finish;
      CloseAllCloses(DoAll(s1, script[0].ops), script[1..], h);
    }
  }

  /** One turn of uv_run finishes every handle that was closed before it or by its callbacks, unless
      signals keep it busy. */
  lemma {:induction false} TurnCloses(s: State, it: Iteration, mode: Mode, h: nat)
    requires Inv(s) && s.local == [] && IterOk(s, it, mode) && forall turn :: turn in it.turns ==> !turn.busy
    requires h < |DoAll(s, it.ops).handles| && DoAll(s, it.ops).handles[h].closing
    ensures h < |Iterate(s, it, mode).handles| && Iterate(s, it, mode).handles[h].closed
  {
    var s1 := DoAll(s, it.ops);
    DoAllInv(s, it.ops);
    assert HandleOk(s1, h);
    MoveInv(s1);
    hide Inv, DoAll, CloseAll, HandleOk;
    CloseAllCloses(Taken(s1), it.turns, h);
    if mode == Once {
      DoAllClosed(CloseAll(Taken(s1), it.turns), it.late, h);
    }
  }

  /** The operations as steps of a run. */
  function AsCalls(ops: seq<Op>): seq<Step> {
    if ops == [] then [] else [Call(ops[0])] + AsCalls(ops[1..])
  }

  function ClosingSteps(s: State, script: seq<Turn>): seq<Step>
    requires HeadOk(s) && ScriptOk(s, script)
    decreases |script|
  {
    if s.local == [] then []
    else
      [FinishHead(script[0].busy)]
      + (AsCalls(script[0].ops) + ClosingSteps(DoAll(Finish(s, script[0].busy), script[0].ops), script[1..]))
  }

  lemma {:induction false} StepsCat(s: State, a: seq<Step>, b: seq<Step>)
    requires StepsOk(s, a) && StepsOk(RunSteps(s, a), b)
    ensures StepsOk(s, a + b) && RunSteps(s, a + b) == RunSteps(RunSteps(s, a), b)
    decreases |a|
  {
    if a == [] {
      assert a + b == b;
    } else {
      StepsCat(DoStep(s, a[0]), a[1..], b);
      assert (a + b)[1..] == a[1..] + b;
    }
  }

  lemma {:induction false} CallsRun(s: State, ops: seq<Op>)
    requires OpsOk(s, ops)
    ensures StepsOk(s, AsCalls(ops)) && RunSteps(s, AsCalls(ops)) == DoAll(s, ops)
    decreases |ops|
  {
    if ops != [] {
      CallsRun(Do(s, ops[0]), ops[1..]);
      Prepend(s, Call(ops[0]), AsCalls(ops[1..]));
    }
  }

  lemma {:induction false} ClosingRun(s: State, script: seq<Turn>)
    requires HeadOk(s) && ScriptOk(s, script)
    ensures StepsOk(s, ClosingSteps(s, script)) && RunSteps(s, ClosingSteps(s, script)) == CloseAll(s, script)
    decreases |script|
  {
    if s.local != [] {
      var s1 := Finish(s, script[0].busy);
      var s2 := DoAll(s1, script[0].ops);
      CallsRun(s1, script[0].ops);
      ClosingRun(s2, script[1..]);
      hide Finish;
      StepsCat(s1, AsCalls(script[0].ops), ClosingSteps(s2, script[1..]));
      Prepend(s, FinishHead(script[0].busy), AsCalls(script[0].ops) + ClosingSteps(s2, script[1..]));
    }
  }

  /** The steps of one turn of uv_run: what its callbacks call, then the closing pass, and in
      UV_RUN_ONCE mode the timers again. */
  function TurnSteps(s: State, it: Iteration, mode: Mode): seq<Step>
    requires IterOk(s, it, mode)
  {
    AsCalls(it.ops) + ([Take] + (ClosingSteps(Taken(DoAll(s, it.ops)), it.turns) + if mode == Once then AsCalls(it.late) else []))
  }

  /** A turn of uv_run is these steps, so that what holds of runs of steps holds of uv_run. */
  lemma {:induction false} TurnIsRun(s: State, it: Iteration, mode: Mode)
    requires Inv(s) && s.local == [] && IterOk(s, it, mode)
    ensures StepsOk(s, TurnSteps(s, it, mode)) && RunSteps(s, TurnSteps(s, it, mode)) == Iterate(s, it, mode)
  {
    var s1 := DoAll(s, it.ops);
    DoAllInv(s, it.ops);
    var s2 := Taken(s1);
    var closing, late := ClosingSteps(s2, it.turns), if mode == Once then AsCalls(it.late) else [];
    CallsRun(s, it.ops);
    ClosingRun(s2, it.turns);
    if mode == Once {
      CallsRun(CloseAll(s2, it.turns), it.late);
    }
    hide Inv, DoAll, CloseAll, ClosingSteps, AsCalls;
    StepsCat(s2, closing, late);
    Prepend(s1, Take, closing + late);
    StepsCat(s, AsCalls(it.ops), [Take] + (closing + late));
  }

  /** The state after `k` turns of the loop. */
  function RunTo(s: State, its: seq<Iteration>, mode: Mode, k: nat): State
    requires RunOk(s, its, mode) && k <= |its|
    decreases k
  {
    if k == 0 then s else RunTo(Iterate(s, its[0], mode), its[1..], mode, k - 1)
  }

  /** Something is left to do after `k` turns. */
  ghost predicate Goes(s: State, its: seq<Iteration>, mode: Mode, k: nat, reqs: nat, pending: nat)
    requires RunOk(s, its, mode) && k <= |its|
  {
    !Dead(RunTo(s, its, mode, k), ReqsAt(its, k, reqs), PendingAt(its, k, pending))
  }

  /** The loop of uv_run made `k` turns rightly: before each something was left, and nobody had stopped it. */
  ghost predicate Turned(s: State, its: seq<Iteration>, mode: Mode, k: nat, reqs: nat, pending: nat, stop: bool)
    requires RunOk(s, its, mode) && k <= |its|
  {
    forall i :: 0 <= i < k ==> Goes(s, its, mode, i, reqs, pending) && !stop && !Stopped(its, i)
  }

  lemma {:induction false} TurnedNext(s: State, its: seq<Iteration>, mode: Mode, k: nat, reqs: nat, pending: nat, stop: bool)
    requires RunOk(s, its, mode) && k < |its| && Turned(s, its, mode, k, reqs, pending, stop)
    requires !Dead(RunTo(s, its, mode, k), ReqsAt(its, k, reqs), PendingAt(its, k, pending)) && !stop && !Stopped(its, k)
    ensures Turned(s, its, mode, k + 1, reqs, pending, stop)
  {
    hide Dead, RunTo, Stopped;
  }

  lemma {:induction false} RunToStart(s: State, its: seq<Iteration>, mode: Mode)
    requires RunOk(s, its, mode)
    ensures RunTo(s, its, mode, 0) == s && forall reqs, pending, stop :: Turned(s, its, mode, 0, reqs, pending, stop)
  {
  }

  lemma {:induction false} RunToNext(s: State, its: seq<Iteration>, mode: Mode, k: nat)
    requires RunOk(s, its, mode) && k < |its|
    ensures RunOk(RunTo(s, its, mode, k), its[k..], mode)
    ensures RunTo(s, its, mode, k + 1) == Iterate(RunTo(s, its, mode, k), its[k], mode)
    decreases k
  {
    if k > 0 {
      RunToNext(Iterate(s, its[0], mode), its[1..], mode, k - 1);
      assert its[1..][k - 1..] == its[k..];
    } else {
      assert its[0..] == its;
    }
    hide IterOk, Iterate;
  }

  // ---------- the code ----------

  class Loop {
    var handles: seq<Handle>
    var activeHandles: int
    var closing: seq<nat>
    ghost var local: seq<nat>
    var stopFlag: bool

    ghost function View(): State
      reads `handles, `activeHandles, `closing, `local
    {
      State(handles, activeHandles, closing, local)
    }

    method Apply(op: Op)
      requires OpOk(View(), op)
      modifies `handles, `activeHandles, `closing, `local
      ensures View() == Do(old(View()), op)
      ensures op.Init? ==> handles == old(handles) + [Handle(false, true, false, false, true, 0)]
      ensures op.Close? ==>
        && handles == old(handles)[op.h := old(handles)[op.h].(active := false, closing := true)]
        && closing == [op.h] + old(closing)
    {
      match op {
        case Init => handles := handles + [Handle(false, true, false, false, true, 0)];
        case Start(h) => HandleStart(h);
        case Stop(h) => HandleStop(h);
        case Ref(h) => HandleRef(h);
        case Unref(h) => HandleUnref(h);
        case Close(h) =>
          handles := handles[h := handles[h].(closing := true)];
          HandleStop(h);
          closing := [h] + closing;
      }
    }

    method HandleStart(h: nat)
      requires h < |handles|
      modifies `handles, `activeHandles, `closing, `local
      ensures View() == DoStart(old(View()), h)
      ensures handles == old(handles)[h := old(handles)[h].(active := true)] && closing == old(closing)
      ensures activeHandles == old(activeHandles) + if !old(handles)[h].active && handles[h].ref then 1 else 0
    {
      if handles[h].active {
        return;
      }
      handles := handles[h := handles[h].(active := true)];
      if handles[h].ref {
        activeHandles := activeHandles + 1;
      }
    }

    method HandleStop(h: nat)
      requires h < |handles|
      modifies `handles, `activeHandles, `closing, `local
      ensures View() == DoStop(old(View()), h)
      ensures handles == old(handles)[h := old(handles)[h].(active := false)] && closing == old(closing)
      ensures activeHandles == old(activeHandles) - if old(handles)[h].active && handles[h].ref then 1 else 0
    {
      if !handles[h].active {
        return;
      }
      handles := handles[h := handles[h].(active := false)];
      if handles[h].ref {
        activeHandles := activeHandles - 1;
      }
    }

    method HandleRef(h: nat)
      requires h < |handles|
      modifies `handles, `activeHandles, `closing, `local
      ensures View() == DoRef(old(View()), h)
      ensures handles == old(handles)[h := old(handles)[h].(ref := true)] && closing == old(closing)
    {
      if handles[h].ref {
        return;
      }
      handles := handles[h := handles[h].(ref := true)];
      if handles[h].closing {
        return;
      }
      if handles[h].active {
        activeHandles := activeHandles + 1;
      }
    }

    method HandleUnref(h: nat)
      requires h < |handles|
      modifies `handles, `activeHandles, `closing, `local
      ensures View() == DoUnref(old(View()), h)
      ensures handles == old(handles)[h := old(handles)[h].(ref := false)] && closing == old(closing)
    {
      if !handles[h].ref {
        return;
      }
      handles := handles[h := handles[h].(ref := false)];
      if handles[h].closing {
        return;
      }
      if handles[h].active {
        activeHandles := activeHandles - 1;
      }
    }

    method RunOps(ops: seq<Op>)
      requires Inv(View()) && OpsOk(View(), ops)
      modifies `handles, `activeHandles, `closing, `local
      ensures Inv(View()) && View() == DoAll(old(View()), ops) && local == old(local) && StillClosing(old(View()), View())
    {
      DoAllInv(View(), ops);
      hide Inv, Do, OpOk;
      var i := 0;
      while i < |ops|
        invariant i <= |ops| && OpsOk(View(), ops[i..]) && DoAll(View(), ops[i..]) == DoAll(old(View()), ops)
      {
        assert ops[i..][0] == ops[i] && ops[i..][1..] == ops[i + 1..];
        Apply(ops[i]);
        i := i + 1;
      }
      assert ops[i..] == [];
    }

    /** uv__finish_close up to the callback. */
    method FinishClose(h: nat, busy: bool)
      requires Inv(View()) && local != [] && h == local[0] && h < |handles|
      modifies `handles, `activeHandles, `closing, `local
      ensures Inv(View()) && View() == Finish(old(View()), busy) && StillClosing(old(View()), View())
      ensures local == old(local)[1..]
      ensures if busy then h in closing else handles[h].closed && handles[h].closeCbs == 1
    {
      FinishInv(View(), busy);
      hide Inv;
      local := local[1..];
      assert handles[h].closing && !handles[h].closed;
      if busy {
        closing := [h] + closing;
        return;
      }
      handles := handles[h := handles[h].(closed := true)];
      HandleUnref(h);
      handles := handles[h := handles[h].(inQueue := false, closeCbs := handles[h].closeCbs + 1)];
    }

    // One turn of uv__run_closing_handles.
    method CloseTurn(h: nat, turn: Turn)
      requires Inv(View()) && local != [] && h == local[0] && h < |handles|
      requires (turn.busy ==> turn.ops == []) && OpsOk(Finish(View(), turn.busy), turn.ops)
      modifies `handles, `activeHandles, `closing, `local
      ensures Inv(View()) && View() == DoAll(Finish(old(View()), turn.busy), turn.ops)
      ensures local == old(local)[1..] && StillClosing(old(View()), View())
    {
      hide Inv, Finish, OpsOk, HandleOk;
      ghost var s0 := View();
      FinishClose(h, turn.busy);
      if !turn.busy {
        ghost var s1 := View();
        RunOps(turn.ops);
        StillTrans(s0, s1, View());
      }
    }

    /** uv__run_closing_handles: it ends, and every handle that was listed is closed with its
        close_cb called once, or is a busy signal handle that is back on the list. */
    method RunClosingHandles(script: seq<Turn>)
      requires Inv(View()) && local == [] && HeadOk(Taken(View()))
      requires ScriptOk(Taken(View()), script)
      modifies `handles, `activeHandles, `closing, `local
      ensures Inv(View()) && local == [] && |handles| >= |old(handles)|
      ensures View() == CloseAll(Taken(old(View())), script)
      ensures forall h :: h in old(closing) ==>
        h < |handles| && (h in closing || (handles[h].closed && !handles[h].inQueue && handles[h].closeCbs == 1))
    {
      ghost var s0 := View();
      ListedClosing(s0);
      var p := closing;
      closing := [];
      local := p;
      MoveInv(old(View()));
      var k := 0;
      assert script[0..] == script && StillClosing(s0, View());
      while p != []
        invariant Inv(View()) && p == local && k <= |script| && StillClosing(s0, View())
        invariant HeadOk(View()) && ScriptOk(View(), script[k..])
        invariant CloseAll(View(), script[k..]) == CloseAll(Taken(s0), script)
        decreases |script| - k
      {
        ghost var s1 := View();
        CloseOne(s1, script[k..]);
        hide Inv, Finish, OpsOk, ScriptOk, CloseAll, DoAll, HandleOk, StillClosing;
        assert script[k..][0] == script[k] && script[k..][1..] == script[k + 1..];
        CloseTurn(p[0], script[k]);
        StillTrans(s0, s1, View());
        p := p[1..];
        k := k + 1;
      }
      ClosedNow(s0, View());
    }

    predicate LoopAlive(reqs: nat, pending: nat)
      reads `activeHandles, `closing
      ensures LoopAlive(reqs, pending) == Alive(State([], activeHandles, closing, []), reqs, pending)
    {
      activeHandles > 0 || reqs > 0 || pending > 0 || closing != []
    }

    /** uv_run, as far as `its` goes: in default mode and without uv_stop it leaves its loop
        only with result 0, and the result is 0 exactly when nothing is left to do. */
    method Run(mode: Mode, its: seq<Iteration>, reqs: nat, pending: nat) returns (r: bool, k: nat)
      requires Inv(View()) && local == [] && RunOk(View(), its, mode)
      modifies this
      ensures Inv(View()) && local == [] && k <= |its|
      ensures !r <==> Dead(View(), ReqsAt(its, k, reqs), PendingAt(its, k, pending))
      ensures View() == RunTo(old(View()), its, mode, k)
      ensures Turned(old(View()), its, mode, k, reqs, pending, old(stopFlag))
      ensures k < |its| ==> !r || old(stopFlag) || Stopped(its, k) || (mode != Default && k == 1)
      ensures mode != Default ==> k <= 1
      ensures !stopFlag
    {
      hide Inv, IterOk, Iterate, Dead, RunTo, Turned;
      ghost var s0 := View();
      RunToStart(s0, its, mode);
      r := LoopAlive(reqs, pending);
      DeadLoop(View(), reqs, pending);
      k := 0;
      assert its[0..] == its;
      while r && !stopFlag && k < |its|
        invariant k <= |its| && Inv(View()) && local == []
        invariant RunOk(View(), its[k..], mode) && (mode != Default ==> k == 0)
        invariant !r <==> Dead(View(), ReqsAt(its, k, reqs), PendingAt(its, k, pending))
        invariant View() == RunTo(s0, its, mode, k)
        invariant Turned(s0, its, mode, k, reqs, pending, old(stopFlag))
        invariant stopFlag <==> old(stopFlag) || Stopped(its, k)
        decreases |its| - k
      {
        RunToNext(s0, its, mode, k);
        TurnedNext(s0, its, mode, k, reqs, pending, old(stopFlag));
        assert its[k..][0] == its[k] && its[k..][1..] == its[k + 1..];
        RunIteration(its[k], mode);
        if its[k].stop {
          stopFlag := true;
          assert Stopped(its, k + 1);
        }
        r := LoopAlive(its[k].reqs, its[k].pending);
        DeadLoop(View(), its[k].reqs, its[k].pending);
        k := k + 1;
        if mode != Default {
          break;
        }
      }
      stopFlag := false;
    }

    // The body of the loop of uv_run.
    method RunIteration(it: Iteration, mode: Mode)
      requires Inv(View()) && local == [] && IterOk(View(), it, mode)
      modifies `handles, `activeHandles, `closing, `local
      ensures Inv(View()) && local == [] && View() == Iterate(old(View()), it, mode)
    {
      hide Inv, OpsOk, ScriptOk, CloseAll, DoAll;
      RunOps(it.ops);
      RunClosingHandles(it.turns);
      if mode == Once {
        RunOps(it.late);
      }
    }
  }

  lemma {:induction false} ListedClosing(s: State)
    requires Inv(s)
    ensures forall h :: h in s.closing ==> h < |s.handles| && s.handles[h].closing
  {
    forall h | h in s.closing
      ensures h < |s.handles| && s.handles[h].closing
    {
      assert HandleOk(s, h);
    }
  }

  lemma {:induction false} ClosedNow(s: State, s': State)
    requires Inv(s') && s'.local == [] && StillClosing(s, s')
    requires forall h :: h in s.closing ==> h < |s.handles| && s.handles[h].closing
    ensures forall h :: h in s.closing ==>
      h in s'.closing || (s'.handles[h].closed && !s'.handles[h].inQueue && s'.handles[h].closeCbs == 1)
  {
    forall h | h in s.closing
      ensures h in s'.closing || (s'.handles[h].closed && !s'.handles[h].inQueue && s'.handles[h].closeCbs == 1)
    {
      assert HandleOk(s', h);
    }
  }

  lemma {:induction false} MoveInv(s: State)
    requires Inv(s) && s.local == []
    ensures Inv(Taken(s))
  {
    var s' := Taken(s);
    assert s.local + s.closing == s.closing && s'.local + s'.closing == s.closing;
    forall h | 0 <= h < |s'.handles|
      ensures HandleOk(s', h)
    {
      assert HandleOk(s, h);
    }
  }
}
