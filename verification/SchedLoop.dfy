/**
 The carrier loop of the scheduler, driven by a plan of what the dispatched tasks and the event
 loop do. Its contract is a trace of what it did, event by event: what must hold when an
 event happens, in which order the plan is used, and what each outcome means.
 */
module SchedLoop {
  import opened Util
  import opened Sched

  /** What a dispatched task does before it leaves; a task still running at the end completes. */
  datatype Slice = Slice(acts: seq<Move>, throws: bool)

  /** One batch of the event loop: callbacks become tasks, awaited keys settle. */
  datatype Batch = Batch(spawns: nat, settles: seq<Key>)

  datatype Outcome = Quiescent | Threw | Unfinished

  predicate TaskMove(mv: Move) {
    mv.DoSpawn? || mv.DoCancel? || mv.DoShield? || mv.DoSettle? || mv.DoYield? || mv.DoPark?
  }

  /** Runs the current task until it leaves, dropping whatever it would do after that. */
  function RunSlice(s: State, acts: seq<Move>): State
    decreases |acts|
  {
    if s.current == NIL || s.current >= |s.tasks| || s.current < 0 then s
    else if acts == [] || !TaskMove(acts[0]) then Complete(s)
    else RunSlice(Step(s, acts[0]), acts[1..])
  }

  lemma {:induction false} SliceKeeps(s: State, acts: seq<Move>)
    requires Inv(s)
    ensures Inv(RunSlice(s, acts)) && RunSlice(s, acts).current == NIL
    decreases |acts|
  {
    if s.current == NIL {
    } else if acts == [] || !TaskMove(acts[0]) {
      CompleteKeeps(s);
    } else {
      StepKeeps(s, acts[0]);
      SliceKeeps(Step(s, acts[0]), acts[1..]);
    }
  }

  function LoopStep(s: State, b: Batch): State
    decreases b.spawns, |b.settles|
  {
    if b.spawns > 0 then LoopStep(Spawn(s, false), b.(spawns := b.spawns - 1))
    else if b.settles != [] then LoopStep(Settle(s, b.settles[0]), b.(settles := b.settles[1..]))
    else s
  }

  lemma {:induction false} LoopStepKeeps(s: State, b: Batch)
    requires Inv(s)
    ensures Inv(LoopStep(s, b)) && LoopStep(s, b).current == s.current
    decreases b.spawns, |b.settles|
  {
    hide Inv;
    if b.spawns > 0 {
      SpawnKeeps(s, false);
      LoopStepKeeps(Spawn(s, false), b.(spawns := b.spawns - 1));
    } else if b.settles != [] {
      SettleKeeps(s, b.settles[0]);
      LoopStepKeeps(Settle(s, b.settles[0]), b.(settles := b.settles[1..]));
    }
  }

  // ------------------------------------------------------- the loop as a run

  function SliceMoves(s: State, acts: seq<Move>): seq<Move>
    decreases |acts|
  {
    if s.current == NIL || s.current >= |s.tasks| || s.current < 0 then []
    else if acts == [] || !TaskMove(acts[0]) then [DoComplete]
    else [acts[0]] + SliceMoves(Step(s, acts[0]), acts[1..])
  }

  lemma {:induction false} SliceIsRun(s: State, acts: seq<Move>)
    ensures Run(s, SliceMoves(s, acts)) == RunSlice(s, acts)
    decreases |acts|
  {
    hide Complete;
    if s.current == NIL || s.current >= |s.tasks| || s.current < 0 {
    } else if acts == [] || !TaskMove(acts[0]) {
      RunOne(s, DoComplete);
    } else {
      hide Step;
      SliceIsRun(Step(s, acts[0]), acts[1..]);
      assert SliceMoves(s, acts)[1..] == SliceMoves(Step(s, acts[0]), acts[1..]);
    }
  }

  /** The task makes its first k planned moves and leaves by the last of them, or completes after them. */
  ghost predicate Shape(s: State, acts: seq<Move>, k: nat) {
    && k <= |acts| && (forall i :: 0 <= i < k ==> TaskMove(acts[i]) && Run(s, acts[..i]).current != NIL)
    && (Run(s, acts[..k]).current == NIL ==> SliceMoves(s, acts) == acts[..k])
    && (Run(s, acts[..k]).current != NIL ==> SliceMoves(s, acts) == acts[..k] + [DoComplete] && (k == |acts| || !TaskMove(acts[k])))
  }

  lemma ShapeNone(s: State, acts: seq<Move>)
    requires s.current == NIL || 0 <= s.current < |s.tasks|
    requires s.current == NIL || acts == [] || !TaskMove(acts[0])
    ensures Shape(s, acts, 0)
  {
    assert acts[..0] == [];
  }

  lemma ShapeMore(s: State, acts: seq<Move>, r: nat)
    requires 0 <= s.current < |s.tasks| && acts != [] && TaskMove(acts[0]) && Shape(Step(s, acts[0]), acts[1..], r)
    ensures Shape(s, acts, r + 1)
  {
    hide Step;
    var k, s1, rest := r + 1, Step(s, acts[0]), acts[1..];
    assert acts[..0] == [] && SliceMoves(s, acts) == [acts[0]] + SliceMoves(s1, rest);
    hide SliceMoves;
    forall i | 0 <= i < k ensures TaskMove(acts[i]) && Run(s, acts[..i]).current != NIL {
      if i > 0 {
        assert rest[i - 1] == acts[i];
        RunFirst(s, acts, i);
      }
    }
    RunFirst(s, acts, k);
    hide Run;
    assert acts[..k] == [acts[0]] + rest[..r];
    assert r < |rest| ==> rest[r] == acts[k];
  }

  /**
   A slice is the task's planned moves, one after another, up to the one by which it leaves; a task
   that is still running when they end, or at a move that is not a task's, completes.
   */
  lemma {:induction false} SliceShape(s: State, acts: seq<Move>) returns (k: nat)
    requires Inv(s)
    ensures Shape(s, acts, k)
    decreases |acts|
  {
    CurrentInRange(s);
    hide Inv, Step, Shape, Run, SliceMoves;
    if s.current != NIL && acts != [] && TaskMove(acts[0]) {
      StepKeeps(s, acts[0]);
      var r := SliceShape(Step(s, acts[0]), acts[1..]);
      ShapeMore(s, acts, r);
      k := r + 1;
    } else {
      ShapeNone(s, acts);
      k := 0;
    }
  }

  lemma RunFirst(s: State, acts: seq<Move>, i: nat)
    requires 0 < i <= |acts|
    ensures Run(s, acts[..i]) == Run(Step(s, acts[0]), acts[1..][..i - 1])
  {
    hide Step;
    assert acts[..i][1..] == acts[1..][..i - 1];
  }

  lemma RunOne(s: State, mv: Move)
    ensures Run(s, [mv]) == Step(s, mv)
  {
    hide Step;
    assert Run(Step(s, mv), []) == Step(s, mv);
  }

  function BatchMoves(b: Batch): seq<Move>
    decreases b.spawns, |b.settles|
  {
    if b.spawns > 0 then [DoSpawn(false)] + BatchMoves(b.(spawns := b.spawns - 1))
    else if b.settles != [] then [DoSettle(b.settles[0])] + BatchMoves(b.(settles := b.settles[1..]))
    else []
  }

  /** A batch starts its callbacks as tasks and then settles its keys, in order. */
  lemma {:induction false} BatchShape(b: Batch)
    ensures BatchMoves(b) == seq(b.spawns, _ => DoSpawn(false)) + seq(|b.settles|, i requires 0 <= i < |b.settles| => DoSettle(b.settles[i]))
    decreases b.spawns, |b.settles|
  {
    if b.spawns > 0 {
      BatchShape(b.(spawns := b.spawns - 1));
    } else if b.settles != [] {
      BatchShape(b.(settles := b.settles[1..]));
    }
  }

  lemma {:induction false} BatchIsRun(s: State, b: Batch)
    ensures Run(s, BatchMoves(b)) == LoopStep(s, b)
    decreases b.spawns, |b.settles|
  {
    hide Spawn, Settle;
    if b.spawns > 0 {
      BatchIsRun(Spawn(s, false), b.(spawns := b.spawns - 1));
      assert BatchMoves(b)[1..] == BatchMoves(b.(spawns := b.spawns - 1));
    } else if b.settles != [] {
      BatchIsRun(Settle(s, b.settles[0]), b.(settles := b.settles[1..]));
      assert BatchMoves(b)[1..] == BatchMoves(b.(settles := b.settles[1..]));
    }
  }

  lemma {:induction false} RunAppend(s: State, mvs: seq<Move>, more: seq<Move>)
    ensures Run(s, mvs + more) == Run(Run(s, mvs), more)
    decreases |mvs|
  {
    hide Step;
    if mvs == [] {
      assert mvs + more == more;
    } else {
      RunAppend(Step(s, mvs[0]), mvs[1..], more);
      assert (mvs + more)[1..] == mvs[1..] + more;
    }
  }

  /** One turn of a task, as moves of a run. */
  ghost function TurnMoves(s: State, acts: seq<Move>): seq<Move> {
    [DoDispatch] + SliceMoves(Step(s, DoDispatch), acts)
  }

  lemma TurnIsRun(s0: State, mvs: seq<Move>, s: State, acts: seq<Move>)
    requires s == Run(s0, mvs) && Allowed(s, DoDispatch)
    ensures RunSlice(Dispatch(s).0, acts) == Run(s0, mvs + TurnMoves(s, acts))
  {
    hide Run, RunSlice, Dispatch, SliceMoves;
    var d := Step(s, DoDispatch);
    SliceIsRun(d, acts);
    RunOne(s, DoDispatch);
    RunAppend(s, [DoDispatch], SliceMoves(d, acts));
    RunAppend(s0, mvs, TurnMoves(s, acts));
  }

  lemma MoveIsRun(s0: State, mvs: seq<Move>, s: State, mv: Move)
    requires s == Run(s0, mvs)
    ensures Step(s, mv) == Run(s0, mvs + [mv])
  {
    hide Step, Run;
    RunOne(s, mv);
    RunAppend(s0, mvs, [mv]);
  }

  // ------------------------------------------------------------------- the trace

  /** The k-th turn of a task, a poll of the parked list, asking the event loop, a drain wake. */
  datatype Event = Turned(k: nat) | Polled | Asked(b: Option<Batch>) | Drains

  /** The state an event leads to. */
  function Play(s: State, plan: seq<Slice>, e: Event): State {
    match e
    case Turned(k) =>
      if s.runq != [] && s.runq[0] < |s.tasks| && k < |plan| then RunSlice(Dispatch(s).0, plan[k].acts) else s
    case Polled => Poll(s)
    case Asked(b) => if b.Some? then LoopStep(s, b.value) else s
    case Drains => DrainWake(s)
  }

  function PlayAll(s: State, plan: seq<Slice>, trace: seq<Event>): State {
    if trace == [] then s else Play(PlayAll(s, plan, trace[..|trace| - 1]), plan, trace[|trace| - 1])
  }

  function Turns(trace: seq<Event>): nat {
    if trace == [] then 0 else Turns(trace[..|trace| - 1]) + if trace[|trace| - 1].Turned? then 1 else 0
  }

  function Asks(trace: seq<Event>): nat {
    if trace == [] then 0 else Asks(trace[..|trace| - 1]) + if trace[|trace| - 1].Asked? then 1 else 0
  }

  function Reply(batches: seq<Option<Batch>>, k: nat): Option<Batch> {
    if k < |batches| then batches[k] else None
  }

  /** No parked task has what it waits for. */
  predicate NobodyReady(s: State) {
    forall t :: t in s.parked && t < |s.tasks| ==> !KeysSettled(s, s.tasks[t].park)
  }

  /**
   When event `e` may follow the events `past`, which led to `s`. Runnable tasks run first, the
   slices of the plan in order, and none after a throw. With an empty run queue the parked list
   is polled. Only a poll that woke nobody lets the event loop be asked, and only its answer
   that it has no work lets the parked tasks, if any, be drained.
   */
  ghost predicate Due(s: State, plan: seq<Slice>, batches: seq<Option<Batch>>, past: seq<Event>, e: Event) {
    match e
    case Turned(k) =>
      s.runq != [] && k == Turns(past) < |plan| && NotThrown(plan, past)
    case Polled => s.runq == [] && NotThrown(plan, past)
    case Asked(b) => past != [] && past[|past| - 1].Polled? && s.runq == [] && NobodyReady(s) && b == Reply(batches, Asks(past))
    case Drains => past != [] && past[|past| - 1] == Asked(None) && s.runq == [] && NobodyReady(s) && s.parked != []
  }

  predicate NotThrown(plan: seq<Slice>, past: seq<Event>) {
    forall i :: 0 <= i < |past| && past[i].Turned? && past[i].k < |plan| ==> !plan[past[i].k].throws
  }

  ghost predicate AllDue(s: State, plan: seq<Slice>, batches: seq<Option<Batch>>, trace: seq<Event>) {
    forall i :: 0 <= i < |trace| ==> Due(PlayAll(s, plan, trace[..i]), plan, batches, trace[..i], trace[i])
  }

  /** What the outcome says about the end of the trace. */
  ghost predicate EndsAs(s: State, plan: seq<Slice>, trace: seq<Event>, outcome: Outcome) {
    match outcome
    case Quiescent => s.runq == [] && s.parked == [] && trace != [] && trace[|trace| - 1] == Asked(None)
    case Threw => trace != [] && trace[|trace| - 1].Turned? && trace[|trace| - 1].k < |plan| && plan[trace[|trace| - 1].k].throws
    case Unfinished => s.runq != [] && Turns(trace) == |plan| && NotThrown(plan, trace)
  }

  lemma TraceMore(s: State, plan: seq<Slice>, batches: seq<Option<Batch>>, trace: seq<Event>, e: Event)
    requires AllDue(s, plan, batches, trace) && Due(PlayAll(s, plan, trace), plan, batches, trace, e)
    ensures AllDue(s, plan, batches, trace + [e])
    ensures PlayAll(s, plan, trace + [e]) == Play(PlayAll(s, plan, trace), plan, e)
    ensures Turns(trace + [e]) == Turns(trace) + (if e.Turned? then 1 else 0)
    ensures Asks(trace + [e]) == Asks(trace) + (if e.Asked? then 1 else 0)
  {
    hide Due, Play;
    var more := trace + [e];
    assert more[..|trace|] == trace;
    forall i | 0 <= i < |more| ensures Due(PlayAll(s, plan, more[..i]), plan, batches, more[..i], more[i]) {
      assert more[..i] == if i < |trace| then trace[..i] else trace;
    }
  }

  /** How the loop stands. */
  ghost predicate Going(s0: State, plan0: seq<Slice>, batches0: seq<Option<Batch>>, s: State, trace: seq<Event>, mvs: seq<Move>,
                        plan: seq<Slice>, batches: seq<Option<Batch>>) {
    && Inv(s0) && Inv(s) && s.current == NIL && s == Run(s0, mvs)
    && AllDue(Spawn(s0, false), plan0, batches0, trace) && s == PlayAll(Spawn(s0, false), plan0, trace)
    && NotThrown(plan0, trace) && Turns(trace) + |plan| == |plan0| && plan == plan0[Turns(trace)..]
    && batches == if Asks(trace) < |batches0| then batches0[Asks(trace)..] else []
  }

  lemma NotThrownMore(plan: seq<Slice>, trace: seq<Event>, e: Event)
    requires NotThrown(plan, trace) && (e.Turned? && e.k < |plan| ==> !plan[e.k].throws)
    ensures NotThrown(plan, trace + [e])
  {
  }

  lemma Begin(s0: State, plan0: seq<Slice>, batches0: seq<Option<Batch>>)
    requires Inv(s0) && s0.current == NIL
    ensures Going(s0, plan0, batches0, Spawn(s0, false), [], [DoSpawn(false)], plan0, batches0)
  {
    hide Inv, Spawn;
    SpawnKeeps(s0, false);
    SpawnLeavesCurrent(s0);
    RunOne(s0, DoSpawn(false));
  }

  /** One turn of the first runnable task, by the next slice of the plan. */
  lemma TakesTurn(s0: State, plan0: seq<Slice>, batches0: seq<Option<Batch>>, s: State, trace: seq<Event>, mvs: seq<Move>,
                  plan: seq<Slice>, batches: seq<Option<Batch>>)
    requires Going(s0, plan0, batches0, s, trace, mvs, plan, batches) && s.runq != [] && plan != []
    ensures s.runq[0] < |s.tasks|
    ensures var e := Turned(Turns(trace)); var s' := RunSlice(Dispatch(s).0, plan[0].acts);
            && Inv(s') && s'.current == NIL && s' == Run(s0, mvs + TurnMoves(s, plan[0].acts))
            && AllDue(Spawn(s0, false), plan0, batches0, trace + [e]) && s' == PlayAll(Spawn(s0, false), plan0, trace + [e])
            && Turns(trace) < |plan0| && plan0[Turns(trace)] == plan[0]
            && (!plan[0].throws ==> Going(s0, plan0, batches0, s', trace + [e], mvs + TurnMoves(s, plan[0].acts), plan[1..], batches))
  {
    hide Inv, Run, RunSlice, Dispatch, TurnMoves, PlayAll, AllDue;
    FirstInRange(s);
    DispatchKeeps(s);
    TurnIsRun(s0, mvs, s, plan[0].acts);
    SliceKeeps(Dispatch(s).0, plan[0].acts);
    var e := Turned(Turns(trace));
    TraceMore(Spawn(s0, false), plan0, batches0, trace, e);
    if !plan[0].throws { NotThrownMore(plan0, trace, e); }
  }

  lemma TakesPoll(s0: State, plan0: seq<Slice>, batches0: seq<Option<Batch>>, s: State, trace: seq<Event>, mvs: seq<Move>,
                  plan: seq<Slice>, batches: seq<Option<Batch>>)
    requires Going(s0, plan0, batches0, s, trace, mvs, plan, batches) && s.runq == []
    ensures Going(s0, plan0, batches0, Poll(s), trace + [Polled], mvs + [DoPoll], plan, batches)
    ensures Poll(s).runq == s.runq ==> Poll(s) == s && NobodyReady(s)
    ensures Poll(s).runq != s.runq ==> |Poll(s).parked| < |s.parked|
  {
    hide Inv, Run, Poll, PlayAll, AllDue, NobodyReady;
    PollKeeps(s);
    PollEffect(s);
    PollNobody(s);
    MoveIsRun(s0, mvs, s, DoPoll);
    TraceMore(Spawn(s0, false), plan0, batches0, trace, Polled);
    NotThrownMore(plan0, trace, Polled);
  }

  lemma PollNobody(s: State)
    requires Inv(s)
    ensures Poll(s).runq == s.runq ==> Poll(s) == s && NobodyReady(s)
  {
    if Poll(s).runq == s.runq {
      assert ReadyOf(s, s.parked) == [];
      WaitingAll(s, s.parked);
      forall t | t in s.parked && t < |s.tasks| ensures !KeysSettled(s, s.tasks[t].park) {
        assert !Ready(s, t);
      }
      assert Woken(s, [], Settled) == s.tasks;
    }
  }

  lemma {:induction false} WaitingAll(s: State, q: seq<nat>)
    requires ReadyOf(s, q) == []
    ensures WaitingOf(s, q) == q
  {
    if q != [] {
      assert !Ready(s, q[0]);
      WaitingAll(s, q[1..]);
    }
  }

  lemma AsksLoop(s0: State, plan0: seq<Slice>, batches0: seq<Option<Batch>>, s: State, trace: seq<Event>, mvs: seq<Move>,
                 plan: seq<Slice>, batches: seq<Option<Batch>>)
    requires Going(s0, plan0, batches0, s, trace, mvs, plan, batches)
    requires trace != [] && trace[|trace| - 1].Polled? && s.runq == [] && NobodyReady(s)
    ensures var b := if batches == [] then None else batches[0]; var rest := if batches == [] then [] else batches[1..];
            Going(s0, plan0, batches0, if b.Some? then LoopStep(s, b.value) else s, trace + [Asked(b)],
                  if b.Some? then mvs + BatchMoves(b.value) else mvs, plan, rest)
  {
    hide Inv, Run, LoopStep, BatchMoves, PlayAll, AllDue, NobodyReady;
    var b := if batches == [] then None else batches[0];
    var e := Asked(b);
    assert b == Reply(batches0, Asks(trace));
    TraceMore(Spawn(s0, false), plan0, batches0, trace, e);
    NotThrownMore(plan0, trace, e);
    if b.Some? {
      LoopStepKeeps(s, b.value);
      BatchIsRun(s, b.value);
      RunAppend(s0, mvs, BatchMoves(b.value));
    }
  }

  lemma TakesDrain(s0: State, plan0: seq<Slice>, batches0: seq<Option<Batch>>, s: State, trace: seq<Event>, mvs: seq<Move>,
                   plan: seq<Slice>, batches: seq<Option<Batch>>)
    requires Going(s0, plan0, batches0, s, trace, mvs, plan, batches)
    requires trace != [] && trace[|trace| - 1] == Asked(None) && s.runq == [] && NobodyReady(s) && s.parked != []
    ensures Going(s0, plan0, batches0, DrainWake(s), trace + [Drains], mvs + [DoDrain], plan, batches)
    ensures DrainWake(s).parked == []
  {
    hide Inv, Run, DrainWake, PlayAll, AllDue, NobodyReady;
    DrainKeeps(s);
    DrainEffect(s);
    MoveIsRun(s0, mvs, s, DoDrain);
    TraceMore(Spawn(s0, false), plan0, batches0, trace, Drains);
    NotThrownMore(plan0, trace, Drains);
  }

  /**
   The carrier loop: run everything runnable, poll the parked tasks, let the event loop
   work, and when it has no work left wake whoever is still parked. `plan` says what each
   dispatched task does and `batches` what the event loop delivers each time it is asked, `None`
   for no work, also once the list is used up; a program that outlives the plan is reported as
   unfinished. The trace says what the loop did and is a run `mvs` of the state machine.
   */
  method SchedRun(s0: State, plan0: seq<Slice>, batches0: seq<Option<Batch>>)
    returns (s: State, outcome: Outcome, ghost trace: seq<Event>, ghost mvs: seq<Move>)
    requires Inv(s0) && s0.current == NIL
    ensures Inv(s) && s.current == NIL && s == Run(s0, mvs)
    ensures AllDue(Spawn(s0, false), plan0, batches0, trace) && s == PlayAll(Spawn(s0, false), plan0, trace)
    ensures EndsAs(s, plan0, trace, outcome)
    ensures outcome.Quiescent? ==> s.completed == s.spawned
  {
    hide Inv, Spawn, Poll, DrainWake, RunSlice, LoopStep, Dispatch, Run, TurnMoves, Conserved, PlayAll, AllDue, NobodyReady, NotThrown;
    var plan, batches := plan0, batches0;
    Begin(s0, plan0, batches0);
    s, trace, mvs := Spawn(s0, false), [], [DoSpawn(false)];
    while true
      invariant Going(s0, plan0, batches0, s, trace, mvs, plan, batches)
      decreases |plan| + |batches|, |s.parked|
    {
      ghost var s1, n := s, |plan|;
      while s.runq != []
        invariant Going(s0, plan0, batches0, s, trace, mvs, plan, batches)
        invariant |plan| <= n && (|plan| == n ==> s == s1)
        decreases |plan|
      {
        if plan == [] { return s, Unfinished, trace, mvs; }
        TakesTurn(s0, plan0, batches0, s, trace, mvs, plan, batches);
        trace, mvs := trace + [Turned(Turns(trace))], mvs + TurnMoves(s, plan[0].acts);
        s := RunSlice(Dispatch(s).0, plan[0].acts);
        var throws := plan[0].throws;
        plan := plan[1..];
        if throws { return s, Threw, trace, mvs; }
      }
      TakesPoll(s0, plan0, batches0, s, trace, mvs, plan, batches);
      trace, mvs := trace + [Polled], mvs + [DoPoll];
      var polled := Poll(s);
      if polled.runq != s.runq {
        s := polled;
        continue;
      }
      s := polled;
      AsksLoop(s0, plan0, batches0, s, trace, mvs, plan, batches);
      var batch := if batches == [] then None else batches[0];
      if batches != [] { batches := batches[1..]; }
      trace := trace + [Asked(batch)];
      if batch.None? {
        if s.parked == [] {
          QuiescentMeansDone(s);
          return s, Quiescent, trace, mvs;
        }
        TakesDrain(s0, plan0, batches0, s, trace, mvs, plan, batches);
        s, trace, mvs := DrainWake(s), trace + [Drains], mvs + [DoDrain];
      } else {
        s, mvs := LoopStep(s, batch.value), mvs + BatchMoves(batch.value);
      }
    }
  }

  lemma SpawnLeavesCurrent(s: State)
    ensures Spawn(s, false).current == s.current
  {}

  lemma FirstInRange(s: State)
    requires Inv(s) && s.runq != []
    ensures s.runq[0] < |s.tasks|
  {
    assert s.runq[0] in s.runq;
  }

  lemma PollEffect(s: State)
    requires Inv(s)
    ensures Poll(s).current == s.current
    ensures Poll(s).runq != s.runq ==> |Poll(s).parked| < |s.parked|
    ensures Poll(s).runq == s.runq ==> |Poll(s).parked| == |s.parked|
  {
    ReadySplit(s, s.parked);
  }

  lemma DrainEffect(s: State)
    ensures DrainWake(s).current == s.current && DrainWake(s).parked == []
  {}
}
