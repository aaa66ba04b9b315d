/**
 The stackful task scheduler as a state machine. A context switch is one step: a task
 runs until it yields, parks or completes. Task structures are numbered; a structure
 returned to the pool is reused for a later task under a new id. Parks poll keys of
 the engine; keys never become unsettled again.
 */
module Sched {
  import opened Util
  import TaskQueues

  type Key = int

  datatype Reason = Settled | Drained | Cancelled

  datatype Status = Runnable | Running | Parked | Pooled

  /** What a task waits for: one key, either of two keys, or the end of a set of tasks. */
  datatype Park = NoPark | On(k: Key) | Any2(a: Key, b: Key) | Join(ids: seq<nat>)

  datatype Task = Task(status: Status, park: Park, wake: Reason, wokeIx: nat, wokeAt: nat, cancelled: bool,
                       shield: nat, registered: bool, id: nat)

  // `wokeAt` is a history: how many tasks had been spawned when a wake was decided.

  datatype Entry = Entry(id: nat, t: nat)

  /** `done` and `issued` are histories: the ids of completed tasks and of registered ones. */
  datatype State = State(tasks: seq<Task>, current: int, runq: seq<nat>, parked: seq<nat>, pool: seq<nat>, reg: seq<Entry>,
                         settled: set<Key>, spawned: nat, completed: nat, live: nat, peakLive: nat, mapped: nat, pooled: nat,
                         marked: nat, delivered: nat, drainedWakes: nat, done: set<nat>, issued: set<nat>)

  const NIL: int := -1

  function Init(): State {
    State([], NIL, [], [], [], [], {}, 0, 0, 0, 0, 0, 0, 0, 0, 0, {}, {})
  }

  // --------------------------------------------------------------- operations

  /** The registered task with this id, if it is still live. */
  function RegFind(reg: seq<Entry>, id: nat): (r: Option<nat>)
    ensures r.Some? ==> Entry(id, r.value) in reg
    ensures r.None? ==> forall e :: e in reg ==> e.id != id
  {
    if reg == [] then None else if reg[0].id == id then Some(reg[0].t) else RegFind(reg[1..], id)
  }

  /** Removal by swapping in the last entry. */
  function RegRemove(reg: seq<Entry>, t: nat): seq<Entry> {
    var i := RegIndex(reg, t);
    if i < |reg| then reg[i := reg[|reg| - 1]][..|reg| - 1] else reg
  }

  function RegIndex(reg: seq<Entry>, t: nat): (i: nat)
    ensures i <= |reg| && (i < |reg| ==> reg[i].t == t)
    ensures forall j :: 0 <= j < i ==> reg[j].t != t
  {
    if reg == [] || reg[0].t == t then 0 else 1 + RegIndex(reg[1..], t)
  }

  predicate AllDone(reg: seq<Entry>, ids: seq<nat>) {
    forall i :: 0 <= i < |ids| ==> RegFind(reg, ids[i]).None?
  }

  /** Does some key of the park poll settled now? */
  predicate KeysSettled(s: State, p: Park) {
    match p
    case NoPark => false
    case On(k) => k in s.settled
    case Any2(a, b) => a in s.settled || b in s.settled
    case Join(ids) => AllDone(s.reg, ids)
  }

  /** Which key of a two-key park fired; the first-declared wins. */
  function WhichKey(s: State, p: Park): nat {
    if p.Any2? && p.a !in s.settled then 1 else 0
  }

  const FRESH: Task := Task(Runnable, NoPark, Settled, 0, 0, false, 0, false, 0)

  /** Starts a task on a pooled structure, or on a new one when the pool is empty. */
  function Spawn(s: State, registered: bool): State {
    var id := s.spawned + 1;
    var task := FRESH.(id := id, registered := registered);
    var t := if s.pool != [] then s.pool[0] else |s.tasks|;
    var s1 :=
      if s.pool != [] then
        s.(tasks := if t < |s.tasks| then s.tasks[t := task] else s.tasks, pool := s.pool[1..], pooled := if s.pooled > 0 then s.pooled - 1 else 0)
      else s.(tasks := s.tasks + [task], mapped := s.mapped + 1);
    s1.(spawned := id, live := s.live + 1, runq := s.runq + [t],
        peakLive := if s.live + 1 > s.peakLive then s.live + 1 else s.peakLive,
        reg := if registered then s.reg + [Entry(id, t)] else s.reg,
        issued := if registered then s.issued + {id} else s.issued)
  }

  /** Switches to the first runnable task; a task resumed from a park learns why it woke. */
  function Dispatch(s: State): (State, Option<Reason>)
    requires s.runq != [] && s.runq[0] < |s.tasks|
  {
    var t := s.runq[0];
    var task := s.tasks[t];
    var resumed := task.(status := Running, park := NoPark,
                         cancelled := task.cancelled && !(task.park != NoPark && task.wake.Cancelled?));
    (s.(runq := s.runq[1..], current := t, tasks := s.tasks[t := resumed]),
     if task.park != NoPark then Some(task.wake) else None)
  }

  function Cur(s: State): Task
    requires 0 <= s.current < |s.tasks|
  {
    s.tasks[s.current]
  }

  function Yield(s: State): State
    requires 0 <= s.current < |s.tasks|
  {
    s.(tasks := s.tasks[s.current := Cur(s).(status := Runnable)], runq := s.runq + [s.current as nat], current := NIL)
  }

  /**
   The current task parks. A pending unshielded mark is delivered on the spot, and a join
   with nothing left to wait for returns at once; otherwise the task leaves (no reason yet).
   */
  function ParkOn(s: State, p: Park): (State, Option<Reason>)
    requires 0 <= s.current < |s.tasks| && p != NoPark
  {
    var t := s.current;
    if p.Join? && AllDone(s.reg, p.ids) then (s, Some(Settled))
    else if Cur(s).cancelled && Cur(s).shield == 0 then
      (s.(tasks := s.tasks[t := Cur(s).(cancelled := false)], delivered := s.delivered + 1), Some(Cancelled))
    else
      (s.(tasks := s.tasks[t := Cur(s).(status := Parked, park := p, wake := Settled, wokeIx := 0)],
          parked := s.parked + [t as nat], current := NIL), None)
  }

  /** The current task's function returns; its structure goes to the front of the pool. */
  function Complete(s: State): State
    requires 0 <= s.current < |s.tasks|
  {
    var t := s.current;
    s.(tasks := s.tasks[t := Cur(s).(status := Pooled, registered := false)], current := NIL,
       reg := if Cur(s).registered then RegRemove(s.reg, t) else s.reg,
       pool := [t as nat] + s.pool, completed := s.completed + 1, live := if s.live > 0 then s.live - 1 else 0,
       pooled := s.pooled + 1, done := s.done + {Cur(s).id})
  }

  function Cancel(s: State, id: nat): State {
    match RegFind(s.reg, id)
    case None => s
    case Some(t) =>
      if t >= |s.tasks| || s.tasks[t].cancelled then s
      else
        var task := s.tasks[t].(cancelled := true);
        var s1 := s.(marked := s.marked + 1);
        if task.status.Parked? && task.shield == 0 && !KeysSettled(s, task.park) then
          s1.(tasks := s.tasks[t := task.(wake := Cancelled, status := Runnable)],
              parked := Removed(s.parked, t), runq := s.runq + [t], delivered := s.delivered + 1)
        else s1.(tasks := s.tasks[t := task])
  }

  function Removed(q: seq<nat>, t: nat): (r: seq<nat>)
    ensures forall x :: x in r ==> x in q
  {
    if q == [] then [] else if q[0] == t then q[1..] else [q[0]] + Removed(q[1..], t)
  }

  function Shield(s: State, delta: int): State {
    if 0 <= s.current < |s.tasks| && Cur(s).shield + delta >= 0
    then s.(tasks := s.tasks[s.current := Cur(s).(shield := Cur(s).shield + delta)]) else s
  }

  function Settle(s: State, k: Key): State {
    s.(settled := s.settled + {k})
  }

  /** Every parked task in `ts` becomes runnable for the given reason. */
  function Woken(s: State, ts: seq<nat>, why: Reason): seq<Task> {
    seq(|s.tasks|, t requires 0 <= t < |s.tasks| =>
      if t in ts then s.tasks[t].(status := Runnable, wake := why, wokeIx := WhichKey(s, s.tasks[t].park), wokeAt := s.spawned)
      else s.tasks[t])
  }

  predicate Ready(s: State, t: nat) {
    t < |s.tasks| && KeysSettled(s, s.tasks[t].park)
  }

  function ReadyOf(s: State, q: seq<nat>): (r: seq<nat>)
    ensures forall x :: x in r <==> x in q && Ready(s, x)
  {
    if q == [] then [] else (if Ready(s, q[0]) then [q[0]] else []) + ReadyOf(s, q[1..])
  }

  function WaitingOf(s: State, q: seq<nat>): (r: seq<nat>)
    ensures forall x :: x in r <==> x in q && !Ready(s, x)
  {
    if q == [] then [] else (if Ready(s, q[0]) then [] else [q[0]]) + WaitingOf(s, q[1..])
  }

  /** One pass over the parked list in park order. */
  function Poll(s: State): State {
    var ready := ReadyOf(s, s.parked);
    s.(tasks := Woken(s, ready, Settled), runq := s.runq + ready, parked := WaitingOf(s, s.parked))
  }

  /** The loop has no work and nothing settles: every parked task wakes drained, in park order. */
  function DrainWake(s: State): State {
    s.(tasks := Woken(s, s.parked, Drained), runq := s.runq + s.parked, parked := [],
       drainedWakes := s.drainedWakes + |s.parked|)
  }

  // ---------------------------------------------------------------- invariant

  /** The list holds distinct tasks, all with the given status. */
  ghost predicate Holds(s: State, q: seq<nat>, st: Status) {
    Distinct(q) && forall t :: t in q ==> t < |s.tasks| && s.tasks[t].status == st
  }

  /** A task is where its status says. */
  predicate AtHome(s: State, t: nat)
    requires t < |s.tasks|
  {
    match s.tasks[t].status
    case Runnable => t in s.runq
    case Running => s.current == t
    case Parked => t in s.parked
    case Pooled => t in s.pool
  }

  ghost predicate Lists(s: State) {
    && Holds(s, s.runq, Runnable) && Holds(s, s.parked, Parked) && Holds(s, s.pool, Pooled)
    && (s.current != NIL ==> 0 <= s.current < |s.tasks| && s.tasks[s.current].status.Running?)
    && (forall t :: 0 <= t < |s.tasks| ==> AtHome(s, t))
  }

  /** Spawned tasks are completed or live; structures are live or pooled; none was ever made in vain. */
  predicate Counts(s: State) {
    && s.live == |s.runq| + |s.parked| + (if s.current == NIL then 0 else 1)
    && s.mapped == |s.tasks| == s.live + s.pooled && s.pooled == |s.pool|
    && s.spawned == s.completed + s.live
    && s.peakLive == s.mapped
  }

  predicate Live(t: Task) {
    !t.status.Pooled?
  }

  ghost predicate Ids(s: State) {
    && (forall t :: 0 <= t < |s.tasks| && Live(s.tasks[t]) ==> 1 <= s.tasks[t].id <= s.spawned && s.tasks[t].id !in s.done)
    && (forall t, u :: 0 <= t < u < |s.tasks| && Live(s.tasks[t]) && Live(s.tasks[u]) ==> s.tasks[t].id != s.tasks[u].id)
    && (forall id :: id in s.done ==> id <= s.spawned)
  }

  predicate GoodEntry(s: State, e: Entry) {
    e.t < |s.tasks| && Live(s.tasks[e.t]) && s.tasks[e.t].registered && s.tasks[e.t].id == e.id && e.id in s.issued
  }

  ghost predicate Listed(reg: seq<Entry>, id: nat) {
    exists i :: 0 <= i < |reg| && reg[i].id == id
  }

  /** The registry lists exactly the live registered tasks, so a missing issued id is a completed one. */
  ghost predicate Registry(s: State) {
    && (forall i :: 0 <= i < |s.reg| ==> GoodEntry(s, s.reg[i]))
    && (forall i, j :: 0 <= i < j < |s.reg| ==> s.reg[i].t != s.reg[j].t)
    && (forall t :: 0 <= t < |s.tasks| && Live(s.tasks[t]) && s.tasks[t].registered ==> Entry(s.tasks[t].id, t) in s.reg)
    && (forall id :: id in s.issued ==> id <= s.spawned && (id in s.done || Listed(s.reg, id)))
  }

  /** The condition a SETTLED wake reports. */
  predicate Met(s: State, task: Task) {
    match task.park
    case NoPark => true
    case On(k) => k in s.settled
    case Any2(a, b) => if task.wokeIx == 0 then a in s.settled else task.wokeIx == 1 && b in s.settled
    case Join(ids) => forall i :: 0 <= i < |ids| && ids[i] in s.issued && ids[i] <= task.wokeAt ==> ids[i] in s.done
  }

  ghost predicate Wait(s: State, task: Task) {
    match task.status
    case Runnable =>
      task.park != NoPark ==> (task.wake.Settled? ==> task.wokeAt <= s.spawned && Met(s, task)) && (task.wake.Cancelled? ==> task.cancelled && task.shield == 0)
    case Running => task.park == NoPark
    case Parked => task.park != NoPark
    case Pooled => true
  }

  ghost predicate Waits(s: State) {
    forall t :: 0 <= t < |s.tasks| ==> Wait(s, s.tasks[t])
  }

  /** A mark that is set and whose delivery has not been started. */
  predicate PendingMark(t: Task) {
    t.cancelled && Live(t) && !(t.status.Runnable? && t.park != NoPark && t.wake.Cancelled?)
  }

  function Marks(ts: seq<Task>): nat {
    if ts == [] then 0 else Marks(ts[..|ts| - 1]) + (if PendingMark(ts[|ts| - 1]) then 1 else 0)
  }

  predicate Conserved(s: State) {
    s.delivered + Marks(s.tasks) <= s.marked
  }

  ghost predicate Inv(s: State) {
    Lists(s) && Counts(s) && Ids(s) && Registry(s) && Waits(s) && Conserved(s)
  }

  // ------------------------------------------------------------- small lemmas

  lemma {:induction false} MarksUpdate(ts: seq<Task>, t: nat, task: Task)
    requires t < |ts|
    ensures Marks(ts[t := task]) + (if PendingMark(ts[t]) then 1 else 0) == Marks(ts) + (if PendingMark(task) then 1 else 0)
  {
    var last := |ts| - 1;
    if t == last {
      assert ts[t := task][..last] == ts[..last];
    } else {
      assert ts[t := task][..last] == ts[..last][t := task];
      MarksUpdate(ts[..last], t, task);
    }
  }

  lemma {:induction false} MarksSame(ts: seq<Task>, us: seq<Task>)
    requires |ts| == |us| && forall t :: 0 <= t < |ts| ==> PendingMark(ts[t]) == PendingMark(us[t])
    ensures Marks(ts) == Marks(us)
  {
    if ts != [] { MarksSame(ts[..|ts| - 1], us[..|us| - 1]); }
  }

  lemma ListedFound(reg: seq<Entry>, id: nat)
    ensures Listed(reg, id) <==> RegFind(reg, id).Some?
  {
    if Listed(reg, id) {
      var i :| 0 <= i < |reg| && reg[i].id == id;
      assert reg[i] in reg;
    }
    if RegFind(reg, id).Some? {
      var e := Entry(id, RegFind(reg, id).value);
      assert e in reg;
      var i :| 0 <= i < |reg| && reg[i] == e;
    }
  }

  /** A met condition stays met: keys stay settled, tasks stay done, later ids are not its business. */
  lemma MetStays(s: State, s': State, task: Task)
    requires Met(s, task) && task.wokeAt <= s.spawned && s.settled <= s'.settled && s.done <= s'.done
    requires forall id :: id in s'.issued && id !in s.issued ==> id > s.spawned
    ensures Met(s', task)
  {}

  lemma InitInv()
    ensures Inv(Init())
  {
    EmptyInv(Init());
  }

  lemma EmptyInv(s: State)
    requires s.tasks == [] && s.runq == [] && s.parked == [] && s.pool == [] && s.reg == [] && s.current == NIL
    requires s.done == {} && s.issued == {} && s.delivered == 0 && s.live == s.mapped == s.pooled == s.peakLive == 0
    requires s.spawned == s.completed
    ensures Inv(s)
  {
    assert Lists(s);
    assert Ids(s);
    assert Registry(s);
    assert Waits(s);
  }

  // ---------------------------------------------------------------- preservation

  /** The task to run a new spawn on. */
  function Slot(s: State): nat {
    if s.pool != [] then s.pool[0] else |s.tasks|
  }

  lemma SpawnLists(s: State, r: bool)
    requires Lists(s)
    ensures Lists(Spawn(s, r))
  {
    var s', t := Spawn(s, r), Slot(s);
    if s.pool != [] { assert t in s.pool && t !in s.pool[1..]; }
    assert t !in s.runq;
    forall x | x in s'.pool ensures x < |s'.tasks| && s'.tasks[x].status.Pooled? { assert x in s.pool; }
    forall x | 0 <= x < |s'.tasks| ensures AtHome(s', x) {
      if x != t { assert AtHome(s, x); }
    }
  }

  lemma SpawnIds(s: State, r: bool)
    requires Lists(s) && Ids(s)
    ensures Ids(Spawn(s, r))
  {
    var s', t := Spawn(s, r), Slot(s);
    if s.pool != [] { assert t in s.pool; }
    forall x | 0 <= x < |s'.tasks| && Live(s'.tasks[x]) ensures 1 <= s'.tasks[x].id <= s'.spawned && s'.tasks[x].id !in s'.done {
      if x != t { assert Live(s.tasks[x]); }
    }
  }

  lemma SpawnRegistry(s: State, r: bool)
    requires Lists(s) && Registry(s)
    ensures Registry(Spawn(s, r))
  {
    var s', t := Spawn(s, r), Slot(s);
    if s.pool != [] { assert t in s.pool; }
    assert t < |s.tasks| ==> !Live(s.tasks[t]);
    assert t < |s'.tasks| && (forall x :: 0 <= x < |s'.tasks| && x != t ==> x < |s.tasks| && s'.tasks[x] == s.tasks[x]);
    hide Lists;
    forall i | 0 <= i < |s.reg| ensures GoodEntry(s', s.reg[i]) && s.reg[i].t != t { assert GoodEntry(s, s.reg[i]); }
    forall x | 0 <= x < |s'.tasks| && Live(s'.tasks[x]) && s'.tasks[x].registered ensures Entry(s'.tasks[x].id, x) in s'.reg {
      if x != t { assert Entry(s.tasks[x].id, x) in s.reg; }
    }
    forall id | id in s'.issued ensures id <= s'.spawned && (id in s'.done || Listed(s'.reg, id)) {
      if id in s.issued {
        if id !in s.done {
          var i :| 0 <= i < |s.reg| && s.reg[i].id == id;
          assert s'.reg[i].id == id;
        }
      } else {
        assert s'.reg[|s.reg|].id == id;
      }
    }
  }

  lemma SpawnWaits(s: State, r: bool)
    requires Lists(s) && Registry(s) && Waits(s)
    ensures Waits(Spawn(s, r))
  {
    var s', t := Spawn(s, r), Slot(s);
    if s.pool != [] { assert t in s.pool; }
    hide Lists, Registry;
    forall x | 0 <= x < |s'.tasks| ensures Wait(s', s'.tasks[x]) {
      if x != t {
        assert Wait(s, s.tasks[x]);
        if Met(s, s.tasks[x]) && s.tasks[x].wokeAt <= s.spawned { MetStays(s, s', s.tasks[x]); }
      }
    }
  }

  lemma SpawnMarks(s: State, r: bool)
    requires Lists(s) && Conserved(s)
    ensures Conserved(Spawn(s, r))
  {
    var s', t := Spawn(s, r), Slot(s);
    if s.pool != [] {
      assert t in s.pool;
      MarksUpdate(s.tasks, t, s'.tasks[t]);
    } else {
      assert s'.tasks[..|s.tasks|] == s.tasks;
    }
  }

  lemma SpawnKeeps(s: State, r: bool)
    requires Inv(s)
    ensures Inv(Spawn(s, r))
  {
    SpawnLists(s, r); SpawnIds(s, r); SpawnRegistry(s, r); SpawnWaits(s, r); SpawnMarks(s, r);
    hide Lists, Ids, Registry, Waits, Conserved;
  }

  /** A change of tasks that leaves ids, registrations and liveness alone. */
  predicate SameIdentity(s: State, s': State) {
    && |s'.tasks| == |s.tasks| && s'.reg == s.reg && s'.spawned == s.spawned && s'.done == s.done && s'.issued == s.issued
    && s.settled <= s'.settled
    && forall t :: 0 <= t < |s.tasks| ==> SameId(s.tasks[t], s'.tasks[t])
  }

  predicate SameId(a: Task, b: Task) {
    b.id == a.id && b.registered == a.registered && Live(b) == Live(a)
  }

  lemma IdentityKeeps(s: State, s': State)
    requires Ids(s) && Registry(s) && SameIdentity(s, s')
    ensures Ids(s') && Registry(s')
  {
    forall t | 0 <= t < |s.tasks| ensures SameId(s.tasks[t], s'.tasks[t]) {}
    forall i | 0 <= i < |s.reg| ensures GoodEntry(s', s.reg[i]) {
      assert GoodEntry(s, s.reg[i]);
      assert SameId(s.tasks[s.reg[i].t], s'.tasks[s.reg[i].t]);
    }
    forall t | 0 <= t < |s'.tasks| && Live(s'.tasks[t]) && s'.tasks[t].registered ensures Entry(s'.tasks[t].id, t) in s'.reg {
      assert SameId(s.tasks[t], s'.tasks[t]);
      assert Entry(s.tasks[t].id, t) in s.reg;
    }
    IdentityIds(s, s');
  }

  lemma IdentityIds(s: State, s': State)
    requires Ids(s) && SameIdentity(s, s')
    ensures Ids(s')
  {
    forall t | 0 <= t < |s'.tasks| && Live(s'.tasks[t]) ensures 1 <= s'.tasks[t].id <= s'.spawned && s'.tasks[t].id !in s'.done {
      assert SameId(s.tasks[t], s'.tasks[t]);
    }
    forall t, u | 0 <= t < u < |s'.tasks| && Live(s'.tasks[t]) && Live(s'.tasks[u]) ensures s'.tasks[t].id != s'.tasks[u].id {
      assert SameId(s.tasks[t], s'.tasks[t]) && SameId(s.tasks[u], s'.tasks[u]);
    }
  }

  lemma WaitsKept(s: State, s': State, t: nat)
    requires Waits(s) && SameIdentity(s, s') && t < |s.tasks|
    requires s'.tasks == s.tasks[t := s'.tasks[t]] && Wait(s', s'.tasks[t])
    ensures Waits(s')
  {
    forall x | 0 <= x < |s'.tasks| ensures Wait(s', s'.tasks[x]) {
      if x != t {
        assert Wait(s, s.tasks[x]);
        if Met(s, s.tasks[x]) && s.tasks[x].wokeAt <= s.spawned { MetStays(s, s', s.tasks[x]); }
      }
    }
  }

  lemma DispatchKeeps(s: State)
    requires Inv(s) && s.current == NIL && s.runq != [] && s.runq[0] < |s.tasks|
    ensures Inv(Dispatch(s).0)
  {
    var s', t := Dispatch(s).0, s.runq[0];
    assert t in s.runq && t !in s.runq[1..];
    assert Wait(s, s.tasks[t]);
    WaitsKept(s, s', t);
    IdentityKeeps(s, s');
    MarksUpdate(s.tasks, t, s'.tasks[t]);
    DispatchLists(s);
    hide Lists, Ids, Registry, Waits, Wait;
  }

  lemma DispatchLists(s: State)
    requires Lists(s) && s.current == NIL && s.runq != [] && s.runq[0] < |s.tasks|
    ensures Lists(Dispatch(s).0)
  {
    var s', t := Dispatch(s).0, s.runq[0];
    assert t in s.runq && t !in s.runq[1..];
    forall x | x in s'.runq ensures x < |s'.tasks| && s'.tasks[x].status.Runnable? { assert x in s.runq; }
    forall x | 0 <= x < |s'.tasks| ensures AtHome(s', x) {
      if x != t { assert AtHome(s, x); }
    }
  }

  lemma YieldKeeps(s: State)
    requires Inv(s) && s.current != NIL
    ensures Inv(Yield(s))
  {
    var s', t := Yield(s), s.current;
    assert Wait(s, s.tasks[t]);
    WaitsKept(s, s', t);
    IdentityKeeps(s, s');
    MarksUpdate(s.tasks, t, s'.tasks[t]);
    YieldLists(s);
    hide Lists, Ids, Registry, Waits, Wait;
  }

  lemma YieldLists(s: State)
    requires Lists(s) && s.current != NIL
    ensures Lists(Yield(s))
  {
    var s', t := Yield(s), s.current;
    assert t !in s.runq && t !in s.parked && t !in s.pool;
    forall x | 0 <= x < |s'.tasks| ensures AtHome(s', x) {
      if x != t { assert AtHome(s, x); }
    }
  }

  lemma ParkKeeps(s: State, p: Park)
    requires Inv(s) && s.current != NIL && p != NoPark
    ensures Inv(ParkOn(s, p).0)
  {
    hide Lists, Ids, Registry, Waits, Conserved;
    CurrentInRange(s);
    var s', t := ParkOn(s, p).0, s.current;
    if s' != s {
      ParkWait(s, p);
      WaitsKept(s, s', t);
      IdentityKeeps(s, s');
      ParkMarks(s, p);
      ParkLists(s, p);
    }
  }

  lemma CurrentInRange(s: State)
    requires Lists(s)
    ensures s.current != NIL ==> 0 <= s.current < |s.tasks| && s.tasks[s.current].status.Running?
  {
    hide Holds;
  }

  lemma ParkWait(s: State, p: Park)
    requires 0 <= s.current < |s.tasks| && s.tasks[s.current].status.Running? && p != NoPark && Waits(s)
    ensures Wait(ParkOn(s, p).0, ParkOn(s, p).0.tasks[s.current])
  {
    assert Wait(s, s.tasks[s.current]);
    hide Waits;
  }

  lemma ParkMarks(s: State, p: Park)
    requires 0 <= s.current < |s.tasks| && s.tasks[s.current].status.Running? && p != NoPark && Conserved(s)
    ensures Conserved(ParkOn(s, p).0)
  {
    MarksUpdate(s.tasks, s.current, ParkOn(s, p).0.tasks[s.current]);
  }

  lemma ParkLists(s: State, p: Park)
    requires Lists(s) && s.current != NIL && p != NoPark
    ensures Lists(ParkOn(s, p).0)
  {
    var s', t := ParkOn(s, p).0, s.current;
    assert t !in s.runq && t !in s.parked && t !in s.pool;
    forall x | 0 <= x < |s'.tasks| ensures AtHome(s', x) {
      if x != t { assert AtHome(s, x); }
    }
  }

  lemma ShieldKeeps(s: State, delta: int)
    requires Inv(s)
    ensures Inv(Shield(s, delta))
  {
    var s', t := Shield(s, delta), s.current;
    if s' != s {
      assert Wait(s, s.tasks[t]);
      WaitsKept(s, s', t);
      IdentityKeeps(s, s');
      MarksUpdate(s.tasks, t, s'.tasks[t]);
      ShieldLists(s, delta);
      hide Lists, Ids, Registry, Waits, Wait;
    }
  }

  lemma ShieldLists(s: State, delta: int)
    requires Lists(s)
    ensures Lists(Shield(s, delta))
  {
    var s' := Shield(s, delta);
    forall x | 0 <= x < |s'.tasks| ensures AtHome(s', x) { assert AtHome(s, x); }
  }

  lemma SettleKeeps(s: State, k: Key)
    requires Inv(s)
    ensures Inv(Settle(s, k))
  {
    var s' := Settle(s, k);
    IdentityKeeps(s, s');
    forall x | 0 <= x < |s'.tasks| ensures Wait(s', s'.tasks[x]) && AtHome(s', x) {
      assert Wait(s, s.tasks[x]) && AtHome(s, x);
      if Met(s, s.tasks[x]) && s.tasks[x].wokeAt <= s.spawned { MetStays(s, s', s.tasks[x]); }
    }
    hide Ids, Registry;
  }

  // ----------------------------------------------------------------- completion

  lemma RemovedEntries(reg: seq<Entry>, t: nat, e: Entry)
    requires forall i, j :: 0 <= i < j < |reg| ==> reg[i].t != reg[j].t
    ensures e in RegRemove(reg, t) <==> e in reg && e.t != t
  {
    var i, last := RegIndex(reg, t), |reg| - 1;
    if i < |reg| {
      var r := RegRemove(reg, t);
      if e in reg && e.t != t {
        var j :| 0 <= j < |reg| && reg[j] == e;
        assert r[if j == last then i else j] == e;
      }
      if e in r {
        var j :| 0 <= j < |r| && r[j] == e;
        assert e == if j == i then reg[last] else reg[j];
      }
    } else if e in reg {
      var j :| 0 <= j < |reg| && reg[j] == e;
    }
  }

  lemma RemovedDistinct(reg: seq<Entry>, t: nat)
    requires forall i, j :: 0 <= i < j < |reg| ==> reg[i].t != reg[j].t
    ensures var r := RegRemove(reg, t); forall i, j :: 0 <= i < j < |r| ==> r[i].t != r[j].t
  {}

  lemma CompleteLists(s: State)
    requires Lists(s) && s.current != NIL
    ensures Lists(Complete(s))
  {
    var s', t := Complete(s), s.current;
    assert t !in s.runq && t !in s.parked && t !in s.pool;
    forall x | 0 <= x < |s'.tasks| ensures AtHome(s', x) {
      if x != t { assert AtHome(s, x); }
    }
  }

  lemma CompleteIds(s: State)
    requires Ids(s) && Lists(s) && s.current != NIL
    ensures Ids(Complete(s))
  {
    var s', t := Complete(s), s.current;
    forall x | 0 <= x < |s'.tasks| && Live(s'.tasks[x]) ensures s'.tasks[x].id !in s'.done {
      assert x != t && Live(s.tasks[x]) && Live(s.tasks[t]);
    }
  }

  lemma CompleteRegistry(s: State)
    requires Registry(s) && Lists(s) && s.current != NIL
    ensures Registry(Complete(s))
  {
    var s', t := Complete(s), s.current;
    var task := s.tasks[t];
    hide Lists;
    RemovedDistinct(s.reg, t);
    forall e ensures e in s'.reg <==> e in s.reg && e.t != t {
      if task.registered {
        RemovedEntries(s.reg, t, e);
      } else if e in s.reg {
        var i :| 0 <= i < |s.reg| && s.reg[i] == e;
        assert GoodEntry(s, s.reg[i]);
      }
    }
    forall i | 0 <= i < |s'.reg| ensures GoodEntry(s', s'.reg[i]) {
      assert s'.reg[i] in s'.reg && s'.reg[i] in s.reg;
      var j :| 0 <= j < |s.reg| && s.reg[j] == s'.reg[i];
      assert GoodEntry(s, s.reg[j]);
    }
    forall x | 0 <= x < |s'.tasks| && Live(s'.tasks[x]) && s'.tasks[x].registered ensures Entry(s'.tasks[x].id, x) in s'.reg {
      assert Entry(s.tasks[x].id, x) in s.reg;
    }
    forall id | id in s'.issued ensures id <= s'.spawned && (id in s'.done || Listed(s'.reg, id)) {
      if id !in s'.done {
        var i :| 0 <= i < |s.reg| && s.reg[i].id == id;
        assert GoodEntry(s, s.reg[i]) && s.reg[i] in s.reg;
        assert s.reg[i] in s'.reg;
        var j :| 0 <= j < |s'.reg| && s'.reg[j] == s.reg[i];
      }
    }
  }

  lemma CompleteWaits(s: State)
    requires Waits(s) && s.current != NIL && Lists(s)
    ensures Waits(Complete(s))
  {
    var s', t := Complete(s), s.current;
    hide Lists;
    forall x | 0 <= x < |s'.tasks| ensures Wait(s', s'.tasks[x]) {
      if x != t {
        assert Wait(s, s.tasks[x]);
        if Met(s, s.tasks[x]) && s.tasks[x].wokeAt <= s.spawned { MetStays(s, s', s.tasks[x]); }
      }
    }
  }

  lemma CompleteKeeps(s: State)
    requires Inv(s) && s.current != NIL
    ensures Inv(Complete(s))
  {
    CompleteLists(s); CompleteIds(s); CompleteRegistry(s); CompleteWaits(s);
    MarksUpdate(s.tasks, s.current, Complete(s).tasks[s.current]);
    hide Lists, Ids, Registry, Waits;
  }

  // --------------------------------------------------------------- cancellation

  lemma {:induction false} RemovedFacts(q: seq<nat>, t: nat)
    requires Distinct(q) && t in q
    ensures var r := Removed(q, t); Distinct(r) && |r| == |q| - 1 && forall x :: x in r <==> x in q && x != t
  {
    if q[0] == t {
      assert q == [q[0]] + q[1..];
    } else {
      assert q == [q[0]] + q[1..];
      assert Distinct(q[1..]) && t in q[1..];
      RemovedFacts(q[1..], t);
      var r := Removed(q, t);
      forall i, j | 0 <= i < j < |r| ensures r[i] != r[j] {
        assert r[j] == Removed(q[1..], t)[j - 1] && r[j] in q[1..];
        if i > 0 { assert r[i] == Removed(q[1..], t)[i - 1]; }
      }
    }
  }

  /** The task a cancel finds is live and known under that id. */
  lemma FoundTask(s: State, id: nat)
    requires Registry(s) && RegFind(s.reg, id).Some?
    ensures var t := RegFind(s.reg, id).value; t < |s.tasks| && Live(s.tasks[t]) && s.tasks[t].id == id
  {
    var e := Entry(id, RegFind(s.reg, id).value);
    var i :| 0 <= i < |s.reg| && s.reg[i] == e;
    assert GoodEntry(s, s.reg[i]);
  }

  lemma CancelLists(s: State, id: nat)
    requires Lists(s) && Registry(s)
    ensures Lists(Cancel(s, id))
    ensures Cancel(s, id).runq == s.runq || |Cancel(s, id).parked| == |s.parked| - 1
  {
    hide Lists, Registry, KeysSettled, RegFind, Removed;
    var s' := Cancel(s, id);
    if s' != s {
      var t := RegFind(s.reg, id).value;
      FoundTask(s, id);
      if s'.runq != s.runq {
        WokenLists(s, s', t);
      } else {
        MarkedLists(s, s', t);
      }
    }
  }

  /** A parked task moves to the run queue. */
  lemma WokenLists(s: State, s': State, t: nat)
    requires Lists(s) && t < |s.tasks| && s.tasks[t].status.Parked?
    requires |s'.tasks| == |s.tasks| && s'.tasks == s.tasks[t := s'.tasks[t]] && s'.tasks[t].status.Runnable? && s'.runq == s.runq + [t]
    requires s'.parked == Removed(s.parked, t) && s'.pool == s.pool && s'.current == s.current
    ensures Lists(s') && |s'.parked| == |s.parked| - 1
  {
    assert AtHome(s, t) && Distinct([t]);
    RemovedFacts(s.parked, t);
    assert t !in s.runq && t !in s.pool;
    hide Distinct, Removed;
    DistinctJoin(s.runq, [t]);
    forall x | 0 <= x < |s'.tasks| ensures AtHome(s', x) {
      if x != t { assert AtHome(s, x); }
    }
  }

  /** A task changes without changing its place. */
  lemma MarkedLists(s: State, s': State, t: nat)
    requires Lists(s) && t < |s.tasks| == |s'.tasks| && s'.tasks == s.tasks[t := s'.tasks[t]] && s'.tasks[t].status == s.tasks[t].status
    requires s'.runq == s.runq && s'.parked == s.parked && s'.pool == s.pool && s'.current == s.current
    ensures Lists(s')
  {
    hide Distinct;
    forall x | 0 <= x < |s'.tasks| ensures AtHome(s', x) { assert AtHome(s, x); }
  }

  lemma CancelKeeps(s: State, id: nat)
    requires Inv(s)
    ensures Inv(Cancel(s, id))
  {
    hide Lists, Ids, Registry, Waits, Conserved, Counts;
    var s' := Cancel(s, id);
    if s' != s {
      FoundTask(s, id);
      CancelLists(s, id);
      CancelIdentity(s, id);
      CancelWait(s, id);
      CancelMarks(s, id);
      CancelCounts(s, id);
      IdentityKeeps(s, s');
      WaitsKept(s, s', RegFind(s.reg, id).value);
    }
  }

  lemma CancelMarks(s: State, id: nat)
    requires Registry(s) && Waits(s) && Conserved(s) && Cancel(s, id) != s
    ensures Conserved(Cancel(s, id))
  {
    var s', t := Cancel(s, id), RegFind(s.reg, id).value;
    FoundTask(s, id);
    assert Wait(s, s.tasks[t]);
    hide Registry, Waits;
    MarksUpdate(s.tasks, t, s'.tasks[t]);
  }

  lemma CancelCounts(s: State, id: nat)
    requires Lists(s) && Registry(s) && Counts(s) && Cancel(s, id) != s
    ensures Counts(Cancel(s, id))
  {
    CancelLists(s, id);
    FoundTask(s, id);
    hide Lists, Registry;
  }

  lemma CancelIdentity(s: State, id: nat)
    requires Registry(s) && Cancel(s, id) != s
    ensures SameIdentity(s, Cancel(s, id))
  {
    FoundTask(s, id);
  }

  lemma CancelWait(s: State, id: nat)
    requires Registry(s) && Waits(s) && Cancel(s, id) != s
    ensures var t := RegFind(s.reg, id).value; t < |s.tasks| && Wait(Cancel(s, id), Cancel(s, id).tasks[t])
  {
    FoundTask(s, id);
    var s', t := Cancel(s, id), RegFind(s.reg, id).value;
    assert Wait(s, s.tasks[t]);
    hide Registry, Waits;
  }

  // ------------------------------------------------------------ poll and drain

  lemma {:induction false} ReadySplit(s: State, q: seq<nat>)
    requires Distinct(q)
    ensures Distinct(ReadyOf(s, q)) && Distinct(WaitingOf(s, q))
    ensures |ReadyOf(s, q)| + |WaitingOf(s, q)| == |q|
  {
    if q != [] {
      assert q == [q[0]] + q[1..];
      ReadySplit(s, q[1..]);
    }
  }

  lemma WokenKeeps(s: State, s': State, ts: seq<nat>, why: Reason)
    requires Ids(s) && Registry(s) && Waits(s) && Conserved(s)
    requires s' == s.(tasks := Woken(s, ts, why), runq := s'.runq, parked := s'.parked, drainedWakes := s'.drainedWakes)
    requires why == Settled || why == Drained
    requires forall t :: t in ts ==> t < |s.tasks| && s.tasks[t].status.Parked? && (why == Settled ==> Ready(s, t))
    ensures Ids(s') && Registry(s') && Waits(s') && Conserved(s')
  {
    IdentityKeeps(s, s');
    forall x | 0 <= x < |s'.tasks| ensures Wait(s', s'.tasks[x]) && PendingMark(s.tasks[x]) == PendingMark(s'.tasks[x]) {
      assert Wait(s, s.tasks[x]);
      if x in ts {
        if why == Settled { ReadyMeans(s, x); }
      } else if Met(s, s.tasks[x]) && s.tasks[x].wokeAt <= s.spawned {
        MetStays(s, s', s.tasks[x]);
      }
    }
    MarksSame(s.tasks, s'.tasks);
  }

  lemma ReadyMeans(s: State, t: nat)
    requires Registry(s) && Ready(s, t)
    ensures Met(s, s.tasks[t].(wokeIx := WhichKey(s, s.tasks[t].park), wokeAt := s.spawned))
  {
    var p := s.tasks[t].park;
    if p.Join? {
      forall i | 0 <= i < |p.ids| && p.ids[i] in s.issued ensures p.ids[i] in s.done {
        assert RegFind(s.reg, p.ids[i]).None?;
        ListedFound(s.reg, p.ids[i]);
      }
    }
  }

  lemma DistinctJoin(p: seq<nat>, q: seq<nat>)
    requires Distinct(p) && Distinct(q) && forall t :: t in q ==> t !in p
    ensures Distinct(p + q)
  {
    forall i, j | 0 <= i < j < |p + q| ensures (p + q)[i] != (p + q)[j] {
      assert i < |p| ==> p[i] in p;
      assert j >= |p| ==> q[j - |p|] in q;
    }
  }

  lemma PollLists(s: State)
    requires Lists(s)
    ensures Lists(Poll(s))
  {
    var s', ready := Poll(s), ReadyOf(s, s.parked);
    ReadySplit(s, s.parked);
    hide Distinct, ReadyOf, WaitingOf, WhichKey, Ready;
    DistinctJoin(s.runq, ready);
    forall x | 0 <= x < |s'.tasks| ensures AtHome(s', x) { assert AtHome(s, x); }
  }

  lemma PollKeeps(s: State)
    requires Inv(s)
    ensures Inv(Poll(s))
  {
    PollLists(s);
    ReadySplit(s, s.parked);
    WokenKeeps(s, Poll(s), ReadyOf(s, s.parked), Settled);
    hide Lists, Ids, Registry, Waits, Conserved;
  }

  lemma DrainLists(s: State)
    requires Lists(s)
    ensures Lists(DrainWake(s))
  {
    var s' := DrainWake(s);
    assert Distinct<nat>([]);
    hide Distinct, WhichKey;
    DistinctJoin(s.runq, s.parked);
    forall x | 0 <= x < |s'.tasks| ensures AtHome(s', x) { assert AtHome(s, x); }
  }

  lemma DrainKeeps(s: State)
    requires Inv(s)
    ensures Inv(DrainWake(s))
  {
    DrainLists(s);
    WokenKeeps(s, DrainWake(s), s.parked, Drained);
    hide Lists, Ids, Registry, Waits, Conserved;
  }

  // ------------------------------------------------ agreement with the linked queues

  /** The poll of the model and the pass over the linked list pick the same tasks in the same order. */
  lemma {:induction false} PollMatchesScan(s: State, q: seq<nat>, ready: set<nat>)
    requires forall t :: t in q ==> (t in ready <==> Ready(s, t))
    ensures Chosen(q, ready) == ReadyOf(s, q) && TaskQueues.Left(q, ready) == WaitingOf(s, q)
  {
    if q != [] {
      assert q[0] in q && forall t :: t in q[1..] ==> t in q;
      PollMatchesScan(s, q[1..], ready);
    }
  }

  lemma {:induction false} RemovedAt(q: seq<nat>, t: nat, i: nat)
    requires i < |q| && q[i] == t && forall j :: 0 <= j < i ==> q[j] != t
    ensures Removed(q, t) == q[..i] + q[i + 1..]
    decreases i
  {
    if i > 0 {
      var r := q[1..];
      RemovedAt(r, t, i - 1);
      assert [q[0]] + r[..i - 1] == q[..i] && r[i - 1 + 1..] == q[i + 1..];
    }
  }

  /** Taking a task out of the model's list is unlinking it from the linked one. */
  lemma RemovedMatchesUnlink(q: seq<nat>, k: nat)
    requires Distinct(q) && k < |q|
    ensures Removed(q, q[k]) == TaskQueues.Without(q, k)
  {
    hide Removed;
    RemovedAt(q, q[k], k);
  }

  // --------------------------------------------------------------------- runs

  /** Steps of the running task, of the scheduler, and of the engine that settles keys. */
  datatype Move =
    | DoSpawn(registered: bool) | DoCancel(id: nat) | DoShield(delta: int) | DoSettle(k: Key)
    | DoYield | DoPark(p: Park) | DoComplete | DoDispatch | DoPoll | DoDrain

  predicate Allowed(s: State, mv: Move) {
    match mv
    case DoYield => 0 <= s.current < |s.tasks|
    case DoPark(p) => 0 <= s.current < |s.tasks| && p != NoPark
    case DoComplete => 0 <= s.current < |s.tasks|
    case DoDispatch => s.current == NIL && s.runq != [] && s.runq[0] < |s.tasks|
    case DoPoll => s.current == NIL
    case DoDrain => s.current == NIL
    case _ => true
  }

  function Step(s: State, mv: Move): State {
    if !Allowed(s, mv) then s else
    match mv
    case DoSpawn(r) => Spawn(s, r)
    case DoCancel(id) => Cancel(s, id)
    case DoShield(d) => Shield(s, d)
    case DoSettle(k) => Settle(s, k)
    case DoYield => Yield(s)
    case DoPark(p) => ParkOn(s, p).0
    case DoComplete => Complete(s)
    case DoDispatch => Dispatch(s).0
    case DoPoll => Poll(s)
    case DoDrain => DrainWake(s)
  }

  function Run(s: State, mvs: seq<Move>): State
    decreases |mvs|
  {
    if mvs == [] then s else Run(Step(s, mvs[0]), mvs[1..])
  }

  lemma StepKeeps(s: State, mv: Move)
    requires Inv(s)
    ensures Inv(Step(s, mv))
  {
    hide Lists, Ids, Registry, Waits, Conserved, Counts;
    if Allowed(s, mv) {
      match mv
      case DoSpawn(r) => SpawnKeeps(s, r);
      case DoCancel(id) => CancelKeeps(s, id);
      case DoShield(d) => ShieldKeeps(s, d);
      case DoSettle(k) => SettleKeeps(s, k);
      case DoYield => YieldKeeps(s);
      case DoPark(p) => ParkKeeps(s, p);
      case DoComplete => CompleteKeeps(s);
      case DoDispatch => DispatchKeeps(s);
      case DoPoll => PollKeeps(s);
      case DoDrain => DrainKeeps(s);
    }
  }

  /** The invariant holds in every state of every run. */
  lemma {:induction false} RunKeeps(s: State, mvs: seq<Move>)
    requires Inv(s)
    ensures Inv(Run(s, mvs))
    decreases |mvs|
  {
    hide Inv;
    if mvs != [] {
      StepKeeps(s, mvs[0]);
      RunKeeps(Step(s, mvs[0]), mvs[1..]);
    }
  }

  /** The state a fresh scheduler reaches by the given steps. */
  function Reached(mvs: seq<Move>): State {
    Run(Init(), mvs)
  }

  lemma ReachedInv(mvs: seq<Move>)
    ensures Inv(Reached(mvs))
  {
    hide Inv, Run;
    InitInv();
    RunKeeps(Init(), mvs);
  }

  /** In every reachable state a live task is on exactly one of run queue, parked list, current. */
  lemma OnePlace(mvs: seq<Move>, t: nat)
    requires t < |Reached(mvs).tasks| && Live(Reached(mvs).tasks[t])
    ensures var s := Reached(mvs);
            (if t in s.runq then 1 else 0) + (if t in s.parked then 1 else 0) + (if s.current == t then 1 else 0) == 1
    ensures t !in Reached(mvs).pool
  {
    hide Reached;
    ReachedInv(mvs);
    assert AtHome(Reached(mvs), t);
  }

  /** The counters of every reachable state balance. */
  lemma CountersBalance(mvs: seq<Move>)
    ensures var s := Reached(mvs);
            s.spawned == s.completed + s.live && s.mapped == s.live + s.pooled && s.mapped == s.peakLive && s.delivered <= s.marked
  {
    hide Reached;
    ReachedInv(mvs);
  }

  /** Nothing runnable, parked or running: every spawned task has completed. */
  lemma QuiescentMeansDone(s: State)
    requires Inv(s) && s.runq == [] && s.parked == [] && s.current == NIL
    ensures s.completed == s.spawned && s.live == 0
  {}

  /** What the reason a park returns tells its task. */
  lemma WakeReasons(s: State)
    requires Inv(s) && s.current == NIL && s.runq != [] && s.runq[0] < |s.tasks|
    ensures var t := s.runq[0]; var (s', why) := Dispatch(s);
            && (why.Some? <==> s.tasks[t].park != NoPark)
            && (why == Some(Cancelled) ==> s.tasks[t].cancelled && s.tasks[t].shield == 0 && !s'.tasks[t].cancelled)
            && (why == Some(Settled) ==> Met(s, s.tasks[t]))
            && (why != Some(Cancelled) ==> s'.tasks[t].cancelled == s.tasks[t].cancelled)
  {
    assert s.runq[0] in s.runq;
    assert Wait(s, s.tasks[s.runq[0]]);
  }

  /** A join returns SETTLED, at once or later, only if every id issued before has completed. */
  lemma JoinMeansCompleted(s: State, ids: seq<nat>, i: nat)
    requires Inv(s) && i < |ids| && ids[i] in s.issued
    requires (0 <= s.current < |s.tasks| && ParkOn(s, Join(ids)).1 == Some(Settled)) ||
             (exists t :: 0 <= t < |s.tasks| && s.tasks[t].status.Runnable? && s.tasks[t].park == Join(ids) &&
                          s.tasks[t].wake.Settled? && ids[i] <= s.tasks[t].wokeAt)
    ensures ids[i] in s.done
  {
    if t :| 0 <= t < |s.tasks| && s.tasks[t].status.Runnable? && s.tasks[t].park == Join(ids) &&
            s.tasks[t].wake.Settled? && ids[i] <= s.tasks[t].wokeAt {
      assert Wait(s, s.tasks[t]);
    } else {
      assert RegFind(s.reg, ids[i]).None?;
      ListedFound(s.reg, ids[i]);
    }
  }

  // ----------------------------------------------------------------- settle wins

  /** A runnable task that already carries its mark is not changed by anything but its own dispatch. */
  lemma WokenStays(s: State, mv: Move, t: nat)
    requires Inv(s) && t < |s.tasks| && s.tasks[t].status.Runnable? && s.tasks[t].cancelled
    requires mv.DoDispatch? && s.runq != [] ==> s.runq[0] != t
    ensures t < |Step(s, mv).tasks| && Step(s, mv).tasks[t] == s.tasks[t]
  {
    assert AtHome(s, t);
    assert t !in s.pool && t !in s.parked && s.current != t;
    if mv.DoSpawn? && s.pool != [] { assert s.pool[0] in s.pool; }
  }

  /** `t` is not dispatched during the run. */
  predicate Undispatched(s: State, mvs: seq<Move>, t: nat)
    decreases |mvs|
  {
    mvs == [] ||
    (!(mvs[0].DoDispatch? && Allowed(s, mvs[0]) && s.runq[0] == t) && Undispatched(Step(s, mvs[0]), mvs[1..], t))
  }

  lemma {:induction false} WokenStaysLong(s: State, mvs: seq<Move>, t: nat)
    requires Inv(s) && t < |s.tasks| && s.tasks[t].status.Runnable? && s.tasks[t].cancelled && Undispatched(s, mvs, t)
    ensures Inv(Run(s, mvs)) && t < |Run(s, mvs).tasks| && Run(s, mvs).tasks[t] == s.tasks[t]
    decreases |mvs|
  {
    hide Inv;
    if mvs != [] {
      if !Allowed(s, mvs[0]) {
        assert Step(s, mvs[0]) == s;
      } else {
        WokenStays(s, mvs[0], t);
      }
      StepKeeps(s, mvs[0]);
      WokenStaysLong(Step(s, mvs[0]), mvs[1..], t);
    }
  }

  /** Parked with its mark set: nothing but a poll or a drain changes it. */
  predicate MarkedParked(s: State, t: nat) {
    t < |s.tasks| && s.tasks[t].status.Parked? && s.tasks[t].cancelled
  }

  predicate Wakes(mv: Move) {
    mv.DoPoll? || mv.DoDrain?
  }

  lemma MarkedStays(s: State, mv: Move, t: nat)
    requires Inv(s) && MarkedParked(s, t) && !Wakes(mv)
    ensures MarkedParked(Step(s, mv), t) && Step(s, mv).tasks[t] == s.tasks[t]
  {
    NotElsewhere(s, t);
    hide Inv;
    if mv.DoCancel? || mv.DoSettle? {
      MarkedLeftAlone(s, mv, t);
    } else {
      MarkedNotCurrent(s, mv, t);
    }
  }

  /** A parked task is not next in line, not in the pool and not running. */
  lemma NotElsewhere(s: State, t: nat)
    requires Inv(s) && t < |s.tasks| && s.tasks[t].status.Parked?
    ensures s.current != t && (s.pool == [] || s.pool[0] != t) && (s.runq == [] || s.runq[0] != t)
  {
    assert AtHome(s, t);
    if s.pool != [] { assert s.pool[0] in s.pool; }
    if s.runq != [] { assert s.runq[0] in s.runq; }
    hide Ids, Registry, Waits, Conserved, Counts;
  }

  lemma MarkedLeftAlone(s: State, mv: Move, t: nat)
    requires MarkedParked(s, t) && (mv.DoCancel? || mv.DoSettle?)
    ensures MarkedParked(Step(s, mv), t) && Step(s, mv).tasks[t] == s.tasks[t]
  {
    hide KeysSettled, RegFind, Removed;
  }

  lemma MarkedNotCurrent(s: State, mv: Move, t: nat)
    requires MarkedParked(s, t) && !Wakes(mv) && !mv.DoCancel? && !mv.DoSettle?
    requires s.current != t && (s.pool == [] || s.pool[0] != t) && (s.runq == [] || s.runq[0] != t)
    ensures MarkedParked(Step(s, mv), t) && Step(s, mv).tasks[t] == s.tasks[t]
  {
    hide AllDone, RegRemove;
  }

  /** The ids of a join are not ahead of the id counter. */
  predicate OldIds(s: State, p: Park) {
    p.Join? ==> forall i :: 0 <= i < |p.ids| ==> p.ids[i] <= s.spawned
  }

  lemma RemoveKeepsMissing(reg: seq<Entry>, t: nat, id: nat)
    requires RegFind(reg, id).None?
    ensures RegFind(RegRemove(reg, t), id).None?
  {
    var r := RegRemove(reg, t);
    forall e | e in r ensures e.id != id {
      var i :| 0 <= i < |r| && r[i] == e;
      assert e == reg[if i == RegIndex(reg, t) < |reg| then |reg| - 1 else i];
      assert e in reg;
    }
  }

  /** Settled keys stay settled, whatever happens. */
  lemma KeysStay(s: State, mv: Move, p: Park)
    requires KeysSettled(s, p) && OldIds(s, p)
    ensures KeysSettled(Step(s, mv), p) && OldIds(Step(s, mv), p)
  {
    if p.Join? {
      JoinStays(s, mv, p.ids);
    }
  }

  lemma JoinStays(s: State, mv: Move, ids: seq<nat>)
    requires AllDone(s.reg, ids) && forall i :: 0 <= i < |ids| ==> ids[i] <= s.spawned
    ensures AllDone(Step(s, mv).reg, ids) && s.spawned <= Step(s, mv).spawned
  {
    forall i | 0 <= i < |ids| ensures RegFind(Step(s, mv).reg, ids[i]).None? {
      if mv.DoComplete? && Allowed(s, mv) && Cur(s).registered {
        RemoveKeepsMissing(s.reg, s.current, ids[i]);
      } else if mv.DoSpawn? {
        assert RegFind(s.reg, ids[i]).None?;
        var r := Step(s, mv).reg;
        forall e | e in r ensures e.id != ids[i] {}
      }
    }
  }

  predicate NoWake(mvs: seq<Move>) {
    forall i :: 0 <= i < |mvs| ==> !Wakes(mvs[i])
  }

  /** Until the next poll or drain the task stays parked and marked, and its keys settled. */
  lemma {:induction false} MarkWaits(s: State, mvs: seq<Move>, t: nat)
    requires Inv(s) && MarkedParked(s, t) && NoWake(mvs)
    ensures Inv(Run(s, mvs)) && MarkedParked(Run(s, mvs), t) && Run(s, mvs).tasks[t] == s.tasks[t]
    ensures KeysSettled(s, s.tasks[t].park) && OldIds(s, s.tasks[t].park) ==> KeysSettled(Run(s, mvs), s.tasks[t].park)
    decreases |mvs|
  {
    hide Inv, Step, KeysSettled, OldIds;
    if mvs != [] {
      MarkedStays(s, mvs[0], t);
      StepKeeps(s, mvs[0]);
      var p := s.tasks[t].park;
      if KeysSettled(s, p) && OldIds(s, p) { KeysStay(s, mvs[0], p); }
      MarkWaits(Step(s, mvs[0]), mvs[1..], t);
    }
  }

  /** Cancelling a parked task whose keys poll settled only marks it. */
  lemma CancelOnlyMarks(s: State, id: nat, t: nat)
    requires Inv(s) && RegFind(s.reg, id) == Some(t) && t < |s.tasks|
    requires s.tasks[t].status.Parked? && !s.tasks[t].cancelled && KeysSettled(s, s.tasks[t].park)
    ensures var s' := Cancel(s, id);
            && Inv(s') && MarkedParked(s', t) && s'.tasks[t] == s.tasks[t].(cancelled := true)
            && KeysSettled(s', s.tasks[t].park) && (OldIds(s, s.tasks[t].park) ==> OldIds(s', s.tasks[t].park))
  {
    hide Inv;
    CancelKeeps(s, id);
  }

  /** A poll wakes a marked task whose keys are settled with SETTLED, and leaves the mark. */
  lemma PollWakesSettled(s: State, t: nat)
    requires Inv(s) && MarkedParked(s, t) && KeysSettled(s, s.tasks[t].park)
    ensures var s' := Poll(s);
            && Inv(s') && t < |s'.tasks| && s'.tasks[t].status.Runnable? && s'.tasks[t].wake.Settled?
            && s'.tasks[t].cancelled && s'.tasks[t].park == s.tasks[t].park != NoPark && s'.tasks[t].id == s.tasks[t].id
  {
    assert AtHome(s, t) && Wait(s, s.tasks[t]);
    assert Ready(s, t) && t in s.parked;
    hide Inv, AtHome, Wait, KeysSettled;
    PollKeeps(s);
    hide ReadyOf, WaitingOf;
    assert t in ReadyOf(s, s.parked);
  }

  predicate NextUp(s: State, t: nat) {
    Allowed(s, DoDispatch) && s.runq[0] == t
  }

  /** The current task t really parks on p: a join with nothing left to wait for does not. */
  predicate ParksNow(s: State, t: nat, p: Park) {
    s.current == t < |s.tasks| && p != NoPark && !(p.Join? && AllDone(s.reg, p.ids))
  }

  /** During the run t neither completes nor parks unshielded. */
  predicate MarkSafe(s: State, mvs: seq<Move>, t: nat)
    decreases |mvs|
  {
    mvs == [] ||
    (SafeMove(s, mvs[0], t) && MarkSafe(Step(s, mvs[0]), mvs[1..], t))
  }

  predicate SafeMove(s: State, mv: Move, t: nat) {
    && !(mv.DoComplete? && s.current == t)
    && !(mv.DoPark? && ParksNow(s, t, mv.p) && s.tasks[t].shield == 0)
  }

  /** A mark is not lost by anything but its delivery or the end of its task. */
  lemma MarkKept(s: State, mv: Move, t: nat)
    requires Inv(s) && t < |s.tasks| && PendingMark(s.tasks[t]) && SafeMove(s, mv, t)
    ensures var s' := Step(s, mv); t < |s'.tasks| && PendingMark(s'.tasks[t]) && s'.tasks[t].id == s.tasks[t].id
  {
    assert AtHome(s, t) && t !in s.pool && Wait(s, s.tasks[t]);
    CurrentInRange(s);
    if s.runq != [] { assert s.runq[0] in s.runq; }
    hide Inv, AtHome;
    if Allowed(s, mv) {
      match mv
      case DoYield => MarkKeptOwn(s, mv, t);
      case DoPark(_) => MarkKeptOwn(s, mv, t);
      case DoComplete => MarkKeptOwn(s, mv, t);
      case DoShield(_) => MarkKeptOwn(s, mv, t);
      case DoSpawn(_) => MarkKeptSpawn(s, mv, t);
      case DoCancel(_) => MarkKeptCancel(s, mv, t);
      case DoSettle(_) =>
      case _ => MarkKeptSched(s, mv, t);
    }
  }

  lemma MarkKeptOwn(s: State, mv: Move, t: nat)
    requires t < |s.tasks| && PendingMark(s.tasks[t]) && SafeMove(s, mv, t)
    requires s.current == t ==> s.tasks[t].status.Running? && s.tasks[t].park == NoPark
    requires mv.DoYield? || mv.DoPark? || mv.DoComplete? || mv.DoShield?
    ensures var s' := Step(s, mv); t < |s'.tasks| && PendingMark(s'.tasks[t]) && s'.tasks[t].id == s.tasks[t].id
  {
    hide AllDone, RegRemove;
  }

  lemma MarkKeptSpawn(s: State, mv: Move, t: nat)
    requires t < |s.tasks| && PendingMark(s.tasks[t]) && t !in s.pool && mv.DoSpawn?
    ensures var s' := Step(s, mv); t < |s'.tasks| && PendingMark(s'.tasks[t]) && s'.tasks[t].id == s.tasks[t].id
  {
    hide PendingMark;
    if s.pool != [] { assert s.pool[0] in s.pool; }
  }

  lemma MarkKeptCancel(s: State, mv: Move, t: nat)
    requires t < |s.tasks| && PendingMark(s.tasks[t]) && mv.DoCancel?
    ensures var s' := Step(s, mv); t < |s'.tasks| && PendingMark(s'.tasks[t]) && s'.tasks[t].id == s.tasks[t].id
  {
    hide KeysSettled, RegFind, Removed;
  }

  lemma MarkKeptSched(s: State, mv: Move, t: nat)
    requires t < |s.tasks| && PendingMark(s.tasks[t]) && (mv.DoDispatch? || mv.DoPoll? || mv.DoDrain?)
    requires s.runq != [] && s.runq[0] == t ==> s.tasks[t].status.Runnable?
    ensures var s' := Step(s, mv); t < |s'.tasks| && PendingMark(s'.tasks[t]) && s'.tasks[t].id == s.tasks[t].id
  {
    hide ReadyOf, WaitingOf, WhichKey;
  }

  lemma {:induction false} MarkKeptLong(s: State, mvs: seq<Move>, t: nat)
    requires Inv(s) && t < |s.tasks| && PendingMark(s.tasks[t]) && MarkSafe(s, mvs, t)
    ensures var s' := Run(s, mvs); Inv(s') && t < |s'.tasks| && PendingMark(s'.tasks[t]) && s'.tasks[t].id == s.tasks[t].id
    decreases |mvs|
  {
    hide Inv, Step, SafeMove, PendingMark;
    if mvs != [] {
      MarkKept(s, mvs[0], t);
      StepKeeps(s, mvs[0]);
      MarkKeptLong(Step(s, mvs[0]), mvs[1..], t);
    }
  }

  predicate ParksUnshielded(s: State, t: nat, p: Park) {
    ParksNow(s, t, p) && s.tasks[t].shield == 0
  }

  /** The park returns CANCELLED and consumes the mark. */
  predicate DeliversMark(s: State, t: nat, p: Park) {
    && ParksUnshielded(s, t, p) && s.tasks[t].cancelled
    && ParkOn(s, p).1 == Some(Cancelled) && ParkOn(s, p).0.tasks == s.tasks[t := s.tasks[t].(cancelled := false)]
  }

  /** The first unshielded park with a mark pending returns CANCELLED and clears the mark. */
  lemma MarkDelivered(s: State, t: nat, p: Park)
    requires t < |s.tasks| && PendingMark(s.tasks[t]) && ParksUnshielded(s, t, p)
    ensures DeliversMark(s, t, p)
  {
  }

  /** The next dispatch resumes t from its park with SETTLED and the mark still set. */
  predicate ResumesSettled(s: State, t: nat) {
    NextUp(s, t) && Dispatch(s).1 == Some(Settled) && Dispatch(s).0.tasks[t].cancelled
  }

  lemma ResumedMarked(s: State, t: nat)
    requires NextUp(s, t) && s.tasks[t].park != NoPark && s.tasks[t].wake.Settled? && s.tasks[t].cancelled
    ensures ResumesSettled(s, t)
    ensures var s' := Step(s, DoDispatch); t < |s'.tasks| && PendingMark(s'.tasks[t]) && s'.tasks[t].id == s.tasks[t].id
  {
  }

  /**
   Settle wins. A parked task is cancelled while its keys poll settled. Whatever happens before
   the next poll (`mvs0`), it stays parked with its mark set; that poll wakes it; however long
   it waits to run (`mvs1`), its park returns SETTLED with the mark still set. Whatever it and
   the others do then (`mvs2`) short of an unshielded park of its own, the mark stays, and its
   first unshielded park returns CANCELLED and clears it.
   */
  lemma SettleWins(s: State, id: nat, t: nat, mvs0: seq<Move>, s1: State, mvs1: seq<Move>, s2: State, mvs2: seq<Move>, s3: State, p: Park)
    requires Inv(s) && RegFind(s.reg, id) == Some(t) && t < |s.tasks|
    requires s.tasks[t].status.Parked? && !s.tasks[t].cancelled && KeysSettled(s, s.tasks[t].park) && OldIds(s, s.tasks[t].park)
    requires s1 == Run(Cancel(s, id), mvs0) && NoWake(mvs0) && Allowed(s1, DoPoll)
    requires s2 == Run(Step(s1, DoPoll), mvs1) && Undispatched(Step(s1, DoPoll), mvs1, t) && NextUp(s2, t)
    requires s3 == Run(Step(s2, DoDispatch), mvs2) && MarkSafe(Step(s2, DoDispatch), mvs2, t) && ParksUnshielded(s3, t, p)
    ensures MarkedParked(s1, t) && ResumesSettled(s2, t)
    ensures DeliversMark(s3, t, p) && s3.tasks[t].id == s.tasks[t].id
  {
    hide Inv, Run, Poll, Cancel, KeysSettled, OldIds, Undispatched, MarkSafe, ParksUnshielded, DeliversMark, ResumesSettled;
    CancelOnlyMarks(s, id, t);
    MarkWaits(Cancel(s, id), mvs0, t);
    PollWakesSettled(s1, t);
    WokenStaysLong(Step(s1, DoPoll), mvs1, t);
    ResumedMarked(s2, t);
    StepKeeps(s2, DoDispatch);
    hide Step;
    MarkKeptLong(Step(s2, DoDispatch), mvs2, t);
    MarkDelivered(s3, t, p);
  }

  // ------------------------------------------------------------------------ FIFO

  predicate NoDispatch(mvs: seq<Move>) {
    forall i :: 0 <= i < |mvs| ==> !mvs[i].DoDispatch?
  }

  /** Between dispatches the run queue only grows at its end. */
  lemma {:induction false} QueueGrows(s: State, mvs: seq<Move>)
    requires NoDispatch(mvs)
    ensures s.runq <= Run(s, mvs).runq
    decreases |mvs|
  {
    if mvs != [] {
      StepGrows(s, mvs[0]);
      QueueGrows(Step(s, mvs[0]), mvs[1..]);
    }
  }

  lemma StepGrows(s: State, mv: Move)
    requires !mv.DoDispatch?
    ensures s.runq <= Step(s, mv).runq
  {}

  /** A turn: the first runnable task is dispatched and does the given steps until it leaves. */
  function Turn(s: State, acts: seq<Move>): State {
    Run(Step(s, DoDispatch), acts)
  }

  function Turns(s: State, ts: seq<seq<Move>>): State
    decreases |ts|
  {
    if ts == [] then s else Turns(Turn(s, ts[0]), ts[1..])
  }

  ghost predicate TurnsPossible(s: State, ts: seq<seq<Move>>)
    decreases |ts|
  {
    ts == [] || (Allowed(s, DoDispatch) && NoDispatch(ts[0]) && TurnsPossible(Turn(s, ts[0]), ts[1..]))
  }

  /** A task at position k of the run queue is first in line after exactly k turns. */
  lemma {:induction false} FifoOrder(s: State, ts: seq<seq<Move>>)
    requires |ts| <= |s.runq| && TurnsPossible(s, ts)
    ensures s.runq[|ts|..] <= Turns(s, ts).runq
    decreases |ts|
  {
    if ts != [] {
      var s1 := Step(s, DoDispatch);
      QueueGrows(s1, ts[0]);
      var s2 := Turn(s, ts[0]);
      assert s.runq[1..] <= s2.runq;
      FifoOrder(s2, ts[1..]);
      assert s.runq[|ts|..] == s.runq[1..][|ts| - 1..];
    }
  }
}
