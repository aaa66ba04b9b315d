/**
 What the operations of the scheduler do to a parked task, and how a park ends: over every run
 the first move that ends it decides what it returns. The conditions are written out on the
 tasks and the settled keys.
 */
module SchedParks {
  import opened Util
  import opened Sched

  /** What the park waits for has come: its key, one of its keys, or the end of all the tasks it joins. */
  ghost predicate Over(s: State, p: Park) {
    match p
    case NoPark => false
    case On(k) => k in s.settled
    case Any2(a, b) => a in s.settled || b in s.settled
    case Join(ids) => forall t :: 0 <= t < |s.tasks| && Live(s.tasks[t]) && s.tasks[t].registered ==> s.tasks[t].id !in ids
  }

  lemma OverIs(s: State, p: Park)
    requires Inv(s)
    ensures KeysSettled(s, p) <==> Over(s, p)
  {
    hide Lists, Counts, Ids, Waits, Conserved;
    if p.Join? {
      if AllDone(s.reg, p.ids) {
        forall t | 0 <= t < |s.tasks| && Live(s.tasks[t]) && s.tasks[t].registered ensures s.tasks[t].id !in p.ids {
          JoinMisses(s, p.ids, t);
        }
      } else {
        var i :| 0 <= i < |p.ids| && RegFind(s.reg, p.ids[i]).Some?;
        FoundLive(s, p.ids[i]);
        assert p.ids[i] in p.ids;
      }
    }
  }

  lemma JoinMisses(s: State, ids: seq<nat>, t: nat)
    requires Registry(s) && AllDone(s.reg, ids) && t < |s.tasks| && Live(s.tasks[t]) && s.tasks[t].registered
    ensures s.tasks[t].id !in ids
  {
    assert Entry(s.tasks[t].id, t) in s.reg;
  }

  /** A lookup finds the live registered task with that id. */
  lemma FoundLive(s: State, id: nat)
    requires Registry(s) && RegFind(s.reg, id).Some?
    ensures var t := RegFind(s.reg, id).value; t < |s.tasks| && Live(s.tasks[t]) && s.tasks[t].registered && s.tasks[t].id == id
  {
    var e := Entry(id, RegFind(s.reg, id).value);
    var i :| 0 <= i < |s.reg| && s.reg[i] == e;
    assert GoodEntry(s, s.reg[i]);
  }

  lemma FoundNames(s: State, id: nat)
    requires Registry(s) && RegFind(s.reg, id).Some?
    ensures Names(s, RegFind(s.reg, id).value, id)
  {
    FoundLive(s, id);
  }

  /** This cancel names the registered live task t. */
  predicate Names(s: State, t: nat, id: nat) {
    t < |s.tasks| && Live(s.tasks[t]) && s.tasks[t].registered && s.tasks[t].id == id
  }

  lemma FoundIs(s: State, t: nat, id: nat)
    requires Inv(s) && t < |s.tasks|
    ensures Names(s, t, id) <==> RegFind(s.reg, id) == Some(t)
  {
    if RegFind(s.reg, id).Some? { FoundLive(s, id); }
    if Names(s, t, id) {
      assert Entry(id, t) in s.reg;
      var u := RegFind(s.reg, id).value;
      assert s.tasks[u].id == s.tasks[t].id;
    }
  }

  // ----------------------------------------------------------------- how a park ends

  /** The reason, if this move ends the park of task t. */
  ghost function Ends(s: State, t: nat, mv: Move): Option<Reason>
    requires t < |s.tasks|
  {
    match mv
    case DoPoll => if s.current == NIL && Over(s, s.tasks[t].park) then Some(Settled) else None
    case DoDrain => if s.current == NIL then Some(Drained) else None
    case DoCancel(id) =>
      if Names(s, t, id) && !s.tasks[t].cancelled && s.tasks[t].shield == 0 && !Over(s, s.tasks[t].park) then Some(Cancelled) else None
    case _ => None
  }

  predicate ParkedOn(s: State, t: nat, p: Park) {
    t < |s.tasks| && s.tasks[t].status.Parked? && s.tasks[t].park == p && t in s.parked
  }

  /** Woken for this reason: runnable, in the run queue and out of the parked list. */
  predicate WokenFor(s: State, t: nat, p: Park, r: Reason) {
    && t < |s.tasks| && s.tasks[t].status.Runnable? && s.tasks[t].park == p && s.tasks[t].wake == r
    && t in s.runq && t !in s.parked && (r.Cancelled? ==> s.tasks[t].cancelled)
  }

  lemma Home(s: State, t: nat)
    requires Inv(s) && t < |s.tasks|
    ensures AtHome(s, t) && Wait(s, s.tasks[t])
    ensures s.tasks[t].status.Runnable? ==> t !in s.parked
  {
    hide Counts, Ids, Registry, Conserved;
  }

  /** A move that does not end the park leaves the task parked where it is; only a mark may be set. */
  lemma ParkLasts(s: State, t: nat, p: Park, mv: Move)
    requires Inv(s) && ParkedOn(s, t, p) && Ends(s, t, mv).None?
    ensures ParkedOn(Step(s, mv), t, p)
    ensures Step(s, mv).tasks[t] == s.tasks[t].(cancelled := s.tasks[t].cancelled || (mv.DoCancel? && Names(s, t, mv.id)))
  {
    OverIs(s, p);
    Home(s, t);
    NotElsewhere(s, t);
    StepKeeps(s, mv);
    hide Inv, Over, Wait;
    match mv {
      case DoCancel(id) => CancelOthers(s, t, id);
      case DoPoll => PollSkips(s, t);
      case DoDrain =>
      case _ => MoveSkips(s, t, mv);
    }
    assert t < |Step(s, mv).tasks|;
    hide Step;
    Home(Step(s, mv), t);
  }

  lemma MoveSkips(s: State, t: nat, mv: Move)
    requires t < |s.tasks| && s.current != t && (s.pool == [] || s.pool[0] != t) && (s.runq == [] || s.runq[0] != t)
    requires !mv.DoCancel? && !mv.DoPoll? && !mv.DoDrain?
    ensures t < |Step(s, mv).tasks| && Step(s, mv).tasks[t] == s.tasks[t]
  {
    hide AllDone, RegRemove;
  }

  lemma PollSkips(s: State, t: nat)
    requires t < |s.tasks| && (s.current == NIL ==> !KeysSettled(s, s.tasks[t].park))
    ensures t < |Step(s, DoPoll).tasks| && Step(s, DoPoll).tasks[t] == s.tasks[t]
  {
    hide KeysSettled;
    assert s.current == NIL ==> t !in ReadyOf(s, s.parked);
    hide ReadyOf, WaitingOf;
  }

  lemma CancelOthers(s: State, t: nat, id: nat)
    requires Inv(s) && t < |s.tasks| && s.tasks[t].status.Parked?
    requires Names(s, t, id) && !s.tasks[t].cancelled && s.tasks[t].shield == 0 ==> KeysSettled(s, s.tasks[t].park)
    ensures t < |Cancel(s, id).tasks| && Cancel(s, id).tasks[t] == s.tasks[t].(cancelled := s.tasks[t].cancelled || Names(s, t, id))
  {
    FoundIs(s, t, id);
    hide Inv, KeysSettled, RegFind, Removed;
  }

  /** A move that ends the park wakes the task, for that reason. */
  lemma ParkEnds(s: State, t: nat, p: Park, mv: Move)
    requires Inv(s) && ParkedOn(s, t, p) && Ends(s, t, mv).Some?
    ensures var s' := Step(s, mv); var r := Ends(s, t, mv).value;
            && Inv(s') && WokenFor(s', t, p, r) && s'.tasks[t].id == s.tasks[t].id
            && (s'.tasks[t].cancelled <==> s.tasks[t].cancelled || r.Cancelled?)
            && (r.Settled? && p.Any2? ==> s'.tasks[t].wokeIx == if p.a in s.settled then 0 else 1)
  {
    OverIs(s, p);
    StepKeeps(s, mv);
    match mv {
      case DoPoll => PollTakes(s, t);
      case DoDrain => DrainTakes(s, t);
      case DoCancel(id) => CancelTakes(s, t, id);
    }
    hide Step;
    Home(Step(s, mv), t);
  }

  lemma PollTakes(s: State, t: nat)
    requires t < |s.tasks| && t in s.parked && s.current == NIL && KeysSettled(s, s.tasks[t].park)
    ensures var s' := Step(s, DoPoll);
            && t < |s'.tasks|
            && s'.tasks[t] == s.tasks[t].(status := Runnable, wake := Settled, wokeIx := s'.tasks[t].wokeIx, wokeAt := s'.tasks[t].wokeAt)
            && (s.tasks[t].park.Any2? ==> s'.tasks[t].wokeIx == if s.tasks[t].park.a in s.settled then 0 else 1)
  {
    hide KeysSettled;
    assert t in ReadyOf(s, s.parked);
    hide ReadyOf, WaitingOf;
  }

  lemma DrainTakes(s: State, t: nat)
    requires t < |s.tasks| && t in s.parked && s.current == NIL
    ensures var s' := Step(s, DoDrain);
            && t < |s'.tasks|
            && s'.tasks[t] == s.tasks[t].(status := Runnable, wake := Drained, wokeIx := s'.tasks[t].wokeIx, wokeAt := s'.tasks[t].wokeAt)
  {
  }

  /** Position i of the list leaves; all others keep their order. */
  predicate Without(q: seq<nat>, q': seq<nat>, t: nat) {
    exists i :: 0 <= i < |q| && q[i] == t && q' == q[..i] + q[i + 1..]
  }

  lemma RemovedIsWithout(q: seq<nat>, t: nat)
    requires t in q
    ensures Without(q, Removed(q, t), t)
  {
    hide Removed;
    var i := 0;
    while q[i] != t
      invariant 0 <= i < |q| && forall j :: 0 <= j < i ==> q[j] != t
      decreases |q| - i
    {
      i := i + 1;
      assert i < |q|;
    }
    RemovedAt(q, t, i);
  }

  /**
   Cancelling a parked, unmarked and unshielded task whose wait is not over: it leaves the parked
   list, where the others keep their order, and becomes the last of the run queue, marked and
   about to learn CANCELLED. No other task changes.
   */
  lemma CancelTakes(s: State, t: nat, id: nat)
    requires Inv(s) && Names(s, t, id) && s.tasks[t].status.Parked? && !s.tasks[t].cancelled && s.tasks[t].shield == 0
    requires !Over(s, s.tasks[t].park)
    ensures var s' := Cancel(s, id);
            && s'.tasks == s.tasks[t := s.tasks[t].(cancelled := true, status := Runnable, wake := Cancelled)]
            && s'.runq == s.runq + [t] && Without(s.parked, s'.parked, t)
            && s'.marked == s.marked + 1 && s'.delivered == s.delivered + 1
  {
    OverIs(s, s.tasks[t].park);
    FoundIs(s, t, id);
    Home(s, t);
    RemovedIsWithout(s.parked, t);
    hide Inv, Over, KeysSettled, RegFind, Removed, Without;
  }

  /** Any other cancel of a live registered task changes nothing but its mark, and that only once. */
  lemma CancelMarks(s: State, t: nat, id: nat)
    requires Inv(s) && Names(s, t, id)
    requires !s.tasks[t].status.Parked? || s.tasks[t].cancelled || s.tasks[t].shield > 0 || Over(s, s.tasks[t].park)
    ensures Cancel(s, id) ==
            if s.tasks[t].cancelled then s else s.(tasks := s.tasks[t := s.tasks[t].(cancelled := true)], marked := s.marked + 1)
  {
    OverIs(s, s.tasks[t].park);
    FoundIs(s, t, id);
    hide Inv, Over, KeysSettled, RegFind, Removed;
  }

  /** An id that names no live registered task does nothing. */
  lemma CancelUnknown(s: State, id: nat)
    requires Inv(s) && forall t: nat :: !Names(s, t, id)
    ensures Cancel(s, id) == s
  {
    if RegFind(s.reg, id).Some? { FoundNames(s, id); }
    hide Inv;
  }

  // ----------------------------------------------------------------------- over runs

  /** No move of the run ends the park of t. */
  ghost predicate Lasts(s: State, t: nat, mvs: seq<Move>)
    decreases |mvs|
  {
    mvs == [] || (t < |s.tasks| && Ends(s, t, mvs[0]).None? && Lasts(Step(s, mvs[0]), t, mvs[1..]))
  }

  lemma {:induction false} ParkLastsLong(s: State, t: nat, p: Park, mvs: seq<Move>)
    requires Inv(s) && ParkedOn(s, t, p) && Lasts(s, t, mvs)
    ensures Inv(Run(s, mvs)) && ParkedOn(Run(s, mvs), t, p) && Run(s, mvs).tasks[t].id == s.tasks[t].id
    ensures s.tasks[t].cancelled ==> Run(s, mvs).tasks[t].cancelled
    decreases |mvs|
  {
    hide Inv, Step, Ends, ParkedOn;
    ParkedInRange(s, t, p);
    if mvs != [] {
      ParkLasts(s, t, p, mvs[0]);
      StepKeeps(s, mvs[0]);
      ParkedInRange(Step(s, mvs[0]), t, p);
      ParkLastsLong(Step(s, mvs[0]), t, p, mvs[1..]);
    }
    ParkedInRange(Run(s, mvs), t, p);
  }

  lemma ParkedInRange(s: State, t: nat, p: Park)
    requires ParkedOn(s, t, p)
    ensures t < |s.tasks|
  {
  }

  /** A woken task keeps its reason until it runs; a cancel can still mark it. */
  lemma WokenKeeps(s: State, t: nat, p: Park, r: Reason, mv: Move)
    requires Inv(s) && WokenFor(s, t, p, r) && !(mv.DoDispatch? && Allowed(s, mv) && s.runq[0] == t)
    ensures WokenFor(Step(s, mv), t, p, r) && Step(s, mv).tasks[t].id == s.tasks[t].id && Step(s, mv).tasks[t].wokeIx == s.tasks[t].wokeIx
    ensures s.tasks[t].cancelled ==> Step(s, mv).tasks[t].cancelled
  {
    Home(s, t);
    assert t !in s.pool && s.current != t;
    if s.pool != [] { assert s.pool[0] in s.pool; }
    StepKeeps(s, mv);
    hide Inv, Wait;
    if Allowed(s, mv) {
      WokenSame(s, t, mv);
      Home(Step(s, mv), t);
    }
  }

  lemma WokenSame(s: State, t: nat, mv: Move)
    requires t < |s.tasks| && s.tasks[t].status.Runnable? && s.current != t && t !in s.parked && (s.pool == [] || s.pool[0] != t)
    requires Allowed(s, mv) && (mv.DoDispatch? ==> s.runq[0] != t)
    ensures t < |Step(s, mv).tasks| && Step(s, mv).tasks[t] == s.tasks[t].(cancelled := Step(s, mv).tasks[t].cancelled)
    ensures s.tasks[t].cancelled ==> Step(s, mv).tasks[t].cancelled
  {
    hide AllDone, RegRemove, KeysSettled, RegFind, Removed, WhichKey;
    if mv.DoPoll? { assert t !in ReadyOf(s, s.parked); }
    hide ReadyOf, WaitingOf;
  }

  lemma {:induction false} WokenKeepsLong(s: State, t: nat, p: Park, r: Reason, mvs: seq<Move>)
    requires Inv(s) && WokenFor(s, t, p, r) && Undispatched(s, mvs, t)
    ensures var s' := Run(s, mvs);
            && Inv(s') && WokenFor(s', t, p, r) && s'.tasks[t].id == s.tasks[t].id && s'.tasks[t].wokeIx == s.tasks[t].wokeIx
            && (s.tasks[t].cancelled ==> s'.tasks[t].cancelled)
    decreases |mvs|
  {
    hide Inv, Step;
    if mvs != [] {
      WokenKeeps(s, t, p, r, mvs[0]);
      StepKeeps(s, mvs[0]);
      WokenKeepsLong(Step(s, mvs[0]), t, p, r, mvs[1..]);
    }
  }

  /**
   What a park returns. A task is parked; no move of `mvs0` ends the park and the task stays parked
   on it; then `mv` ends it; however long the task then waits to run (`mvs1`), its park returns the
   reason of that move: SETTLED from a poll that found its wait over (and, for two keys, the index
   of the first declared one that was settled), DRAINED from a drain, CANCELLED from a cancel of an
   unmarked unshielded task whose wait was not over. CANCELLED consumes the mark, anything else
   keeps it.
   */
  lemma ParkReturns(s: State, t: nat, p: Park, mvs0: seq<Move>, s1: State, mv: Move, mvs1: seq<Move>, s2: State)
    requires Inv(s) && ParkedOn(s, t, p) && Lasts(s, t, mvs0) && s1 == Run(s, mvs0)
    requires t < |s1.tasks| && Ends(s1, t, mv).Some?
    requires Undispatched(Step(s1, mv), mvs1, t) && s2 == Run(Step(s1, mv), mvs1) && NextUp(s2, t)
    ensures ParkedOn(s1, t, p)
    ensures var (s3, why) := Dispatch(s2);
            && why == Ends(s1, t, mv) && s3.tasks[t].id == s.tasks[t].id
            && (why == Some(Cancelled) ==> !s3.tasks[t].cancelled)
            && (why != Some(Cancelled) && s.tasks[t].cancelled ==> s3.tasks[t].cancelled)
            && (why == Some(Settled) && p.Any2? ==> s3.tasks[t].wokeIx == if p.a in s1.settled then 0 else 1)
  {
    hide Inv, Step, Run, Ends, Over, Undispatched, Lasts;
    ParkLastsLong(s, t, p, mvs0);
    ParkEnds(s1, t, p, mv);
    var r := Ends(s1, t, mv).value;
    WokenKeepsLong(Step(s1, mv), t, p, r, mvs1);
    NotNoPark(s, t);
  }

  /** Settled keys stay settled. */
  lemma {:induction false} SettledStays(s: State, mvs: seq<Move>)
    ensures s.settled <= Run(s, mvs).settled
    decreases |mvs|
  {
    if mvs != [] {
      SettledStep(s, mvs[0]);
      hide Step;
      SettledStays(Step(s, mvs[0]), mvs[1..]);
    }
  }

  lemma SettledStep(s: State, mv: Move)
    ensures s.settled <= Step(s, mv).settled
  {
    hide RegFind, Removed, KeysSettled, ReadyOf, WaitingOf, RegRemove, AllDone;
  }

  /**
   Settling a key a task waits for: whatever else happens that does not end its park, the key stays
   settled, and the next poll ends the park with SETTLED.
   */
  lemma SettleWakes(s: State, t: nat, p: Park, k: Key, mvs: seq<Move>)
    requires Inv(s) && ParkedOn(s, t, p) && (p == On(k) || (p.Any2? && (k == p.a || k == p.b)))
    requires Lasts(Step(s, DoSettle(k)), t, mvs)
    ensures var s1 := Run(Step(s, DoSettle(k)), mvs);
            ParkedOn(s1, t, p) && k in s1.settled && (s1.current == NIL ==> Ends(s1, t, DoPoll) == Some(Settled))
  {
    var s0 := Step(s, DoSettle(k));
    assert k in s0.settled && ParkedOn(s0, t, p);
    StepKeeps(s, DoSettle(k));
    hide Inv, Step, Run, Lasts;
    ParkLastsLong(s0, t, p, mvs);
    SettledStays(s0, mvs);
  }

  lemma NotNoPark(s: State, t: nat)
    requires Inv(s) && t < |s.tasks| && s.tasks[t].status.Parked?
    ensures s.tasks[t].park != NoPark
  {
    assert Wait(s, s.tasks[t]);
  }

  // -------------------------------------------------------- what the running task does

  /** No task but t changes. */
  predicate OnlyTask(s: State, s': State, t: nat) {
    t < |s.tasks| == |s'.tasks| && s'.tasks == s.tasks[t := s'.tasks[t]]
  }

  /** Entering a park: a join with nobody left returns at once, then a deliverable mark, else the task joins the parked list last. */
  lemma ParkDoes(s: State, p: Park)
    requires Inv(s) && s.current != NIL && p != NoPark
    ensures 0 <= s.current < |s.tasks|
    ensures var t := s.current; var (s', why) := ParkOn(s, p);
            && OnlyTask(s, s', t) && s'.runq == s.runq && s'.settled == s.settled && s'.tasks[t].id == s.tasks[t].id
            && (why == Some(Settled) <==> p.Join? && Over(s, p))
            && (why == Some(Cancelled) <==> !(p.Join? && Over(s, p)) && s.tasks[t].cancelled && s.tasks[t].shield == 0)
            && why != Some(Drained)
            && (why == Some(Settled) ==> s' == s)
            && (why == Some(Cancelled) ==> !s'.tasks[t].cancelled && s'.current == t && s'.parked == s.parked && s'.delivered == s.delivered + 1)
            && (why.None? ==> ParkedOn(s', t, p) && s'.parked == s.parked + [t] && s'.current == NIL &&
                              s'.tasks[t].cancelled == s.tasks[t].cancelled && s'.tasks[t].shield == s.tasks[t].shield)
  {
    OverIs(s, p);
    CurrentInRange(s);
    hide Inv, Over, AllDone;
  }

  /** The shield of the running task counts up and down and never below zero; nothing else changes. */
  lemma ShieldDoes(s: State, d: int)
    requires Inv(s) && s.current != NIL
    ensures 0 <= s.current < |s.tasks|
    ensures var t := s.current; var s' := Shield(s, d);
            && OnlyTask(s, s', t) && s' == s.(tasks := s'.tasks) && s'.tasks[t] == s.tasks[t].(shield := s'.tasks[t].shield)
            && s'.tasks[t].shield == (if s.tasks[t].shield + d >= 0 then s.tasks[t].shield + d else s.tasks[t].shield)
            && (d >= 0 ==> Shield(s', -d) == s)
  {
    CurrentInRange(s);
    hide Inv;
    if d >= 0 { assert Shield(Shield(s, d), -d).tasks == s.tasks; }
  }

  /** A yield sends the running task to the end of the run queue. */
  lemma YieldDoes(s: State)
    requires Inv(s) && s.current != NIL
    ensures 0 <= s.current < |s.tasks|
    ensures var t := s.current; var s' := Yield(s);
            && OnlyTask(s, s', t) && s'.tasks[t] == s.tasks[t].(status := Runnable)
            && s'.runq == s.runq + [t] && s'.parked == s.parked && s'.current == NIL
  {
    CurrentInRange(s);
    hide Inv;
  }

  /** A new task is last in line, with an id of its own, unmarked and unshielded; no live task changes. */
  lemma SpawnDoes(s: State, registered: bool)
    requires Inv(s)
    ensures var s' := Spawn(s, registered);
            && s'.runq != [] && s'.runq[..|s'.runq| - 1] == s.runq && s'.parked == s.parked && s'.current == s.current
            && var t := s'.runq[|s'.runq| - 1];
               && t < |s'.tasks| && (t < |s.tasks| ==> !Live(s.tasks[t]))
               && s'.tasks[t].status.Runnable? && s'.tasks[t].park == NoPark && !s'.tasks[t].cancelled && s'.tasks[t].shield == 0
               && (forall u :: 0 <= u < |s.tasks| && Live(s.tasks[u]) ==> u < |s'.tasks| && s'.tasks[u] == s.tasks[u] && s'.tasks[u].id < s'.tasks[t].id)
               && (Names(s', t, s'.tasks[t].id) <==> registered) && (s.pool != [] ==> t == s.pool[0] && s'.pool == s.pool[1..])
  {
    if s.pool != [] { assert s.pool[0] in s.pool; }
    hide Registry, Waits, Conserved, Counts;
  }

  /** A completed task is no longer live, and no cancel or join finds its id; no other task changes. */
  lemma CompleteDoes(s: State)
    requires Inv(s) && s.current != NIL
    ensures 0 <= s.current < |s.tasks|
    ensures var t := s.current; var id := s.tasks[t].id; var s' := Complete(s);
            && OnlyTask(s, s', t) && !Live(s'.tasks[t]) && s'.current == NIL && s'.runq == s.runq && s'.parked == s.parked
            && s'.pool == [t] + s.pool && id in s'.done && (forall u: nat :: !Names(s', u, id)) && Over(s', Join([id]))
  {
    CurrentInRange(s);
    hide Registry, Waits, Conserved, Counts;
  }

  /** The first of the run queue runs; a park it comes back from is over. */
  lemma DispatchDoes(s: State)
    requires Inv(s) && s.current == NIL && s.runq != []
    ensures s.runq[0] < |s.tasks|
    ensures var t := s.runq[0]; var s' := Dispatch(s).0;
            && OnlyTask(s, s', t) && s'.current == t && s'.runq == s.runq[1..] && s'.parked == s.parked
            && s'.tasks[t].status.Running? && s'.tasks[t].park == NoPark && s'.tasks[t].shield == s.tasks[t].shield && s'.tasks[t].id == s.tasks[t].id
  {
    assert s.runq[0] in s.runq;
    hide Registry, Waits, Conserved, Counts, Ids;
  }

  // ------------------------------------------------------------ polls and drains, in order

  /** The parked tasks whose wait is over. */
  ghost function OverSet(s: State): set<nat> {
    set t | t in s.parked && t < |s.tasks| && Over(s, s.tasks[t].park)
  }

  lemma {:induction false} ReadyIs(s: State, q: seq<nat>, over: set<nat>)
    requires forall t :: t in q ==> (t in over <==> Ready(s, t))
    ensures ReadyOf(s, q) == Chosen(q, over)
    ensures forall rest: set<nat> :: (forall t :: t in q ==> (t in rest <==> t !in over)) ==> WaitingOf(s, q) == Chosen(q, rest)
  {
    if q != [] {
      assert q[0] in q;
      ReadyIs(s, q[1..], over);
    }
  }

  /** A poll moves the tasks whose wait is over to the end of the run queue, in park order, and leaves the others parked in order. */
  lemma PollDoes(s: State)
    requires Inv(s)
    ensures Poll(s).runq == s.runq + Chosen(s.parked, OverSet(s))
    ensures Poll(s).parked == Chosen(s.parked, (set t | t in s.parked) - OverSet(s))
  {
    OverSetIs(s);
    hide Inv, Over, Ready, OverSet, ReadyOf, WaitingOf;
    ReadyIs(s, s.parked, OverSet(s));
  }

  lemma OverSetIs(s: State)
    requires Inv(s)
    ensures forall t :: t in s.parked ==> (t in OverSet(s) <==> Ready(s, t))
  {
    forall t | t in s.parked ensures t in OverSet(s) <==> Ready(s, t) {
      OverIs(s, s.tasks[t].park);
      hide Over, KeysSettled;
    }
  }

  /** A drain moves them all, in park order. */
  lemma DrainDoes(s: State)
    ensures DrainWake(s).runq == s.runq + s.parked && DrainWake(s).parked == [] && DrainWake(s).drainedWakes == s.drainedWakes + |s.parked|
  {
  }
}
