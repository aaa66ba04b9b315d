/**
 Worker threads and the buffers that cross between threads. Spawners, workers, joiners and
 the endpoints of any number of channels interleave at their shared steps: registry calls
 (one step each, under the lock), eventfd reads and writes, buffer allocation and release,
 thread creation and exit, and unmapping of a worker's heap.
 */
module Workers {
  import opened Util
  import Channel

  /** Progress of the start call. */
  datatype Start = Flattened | Registered | Started | Failed

  /** Progress of the worker thread. */
  datatype Body = NotRunning | Booting | Mapped | BodyRebuilt | Running | Finished | Published | Exited

  /** Progress of the result call that took this worker from the registry. */
  datatype Join = NotTaken | Taken | Drained | ResultRebuilt | BufferFreed | Joined | Unmapped | Closed | Reaped

  type Val = int

  /** How a body ended: with a value, with one that cannot cross threads and the reason, or by a throw. */
  datatype Ending = Returns(v: Val) | ReturnsUnmovable(reason: string) | Throws(message: string)

  /** What a result buffer carries. */
  datatype Packet = Result(v: Val) | Message(text: string)

  /** What a result call gives its caller: a value or an exception. */
  datatype Answer = Gives(v: Val) | Raises(text: string)

  /**
   `given` is the body passed to the start call, `capture` and `result` are the two buffers, `runs`
   the body the worker runs, `count` the join eventfd. The joiner holds `took`, the failure flag it
   read and what it rebuilt, and in the end its answer; `ended` is a history.
   */
  datatype Worker = Worker(given: Val, fd: int, start: Start, body: Body, join: Join, capture: Option<Val>, runs: Option<Val>,
                           ended: Option<Ending>, result: Option<Packet>, failed: bool, count: nat, mapped: bool,
                           took: Option<(bool, Option<Packet>)>, answer: Option<Answer>, reaps: nat)

  /**
   `out` is the count of outstanding transfers. `broken`: a start call freed a worker's record
   that a result call had taken; what the program does from then on is undefined.
   */
  datatype System = System(ws: seq<Worker>, reg: seq<nat>, open: set<int>, out: int, spawns: int, reaps: int,
                           chans: seq<Channel.State>, broken: bool)

  datatype Move =
    | Spawn(given: Val)
    | EventFd(w: nat, fd: int) | EventFdFails(w: nat)
    | Create(w: nat) | CreateFails(w: nat)
    | Work(w: nat, ending: Ending)
    | Take(fd: int)
    | Finish(w: nat)
    | NewChannel(capacity: int, policy: Channel.Policy)
    | Chan(c: nat, mv: Channel.Move)

  /** A worker whose start call has flattened its body. */
  function Fresh(given: Val): Worker {
    Worker(given, -1, Flattened, NotRunning, NotTaken, Some(given), None, None, None, false, 0, false, None, None, 0)
  }

  function Init(): System {
    System([], [], {}, 0, 0, 0, [], false)
  }

  // ------------------------------------------------------------------ the steps

  /** A spawner with a flattened body gets an eventfd, whose number is not in use, and registers. */
  function DoEventFd(s: System, w: nat, fd: int): System {
    if w < |s.ws| && s.ws[w].start.Flattened? && fd >= 0 && fd !in s.open
    then s.(ws := s.ws[w := s.ws[w].(fd := fd, start := Registered)], open := s.open + {fd}, reg := s.reg + [w],
            spawns := s.spawns + 1)
    else s
  }

  function DoEventFdFails(s: System, w: nat): System {
    if w < |s.ws| && s.ws[w].start.Flattened?
    then s.(ws := s.ws[w := s.ws[w].(start := Failed, capture := None)], out := s.out - 1)
    else s
  }

  function DoCreate(s: System, w: nat): System {
    if w < |s.ws| && s.ws[w].start.Registered?
    then s.(ws := s.ws[w := s.ws[w].(start := Started, body := Booting)])
    else s
  }

  /** A start call is about to free a record that a result call waits on. */
  predicate Tears(s: System, mv: Move) {
    mv.CreateFails? && mv.w < |s.ws| && s.ws[mv.w].start.Registered? && !s.ws[mv.w].join.NotTaken?
  }

  /** The thread could not be made: leave the registry, close the descriptor, drop the buffer. */
  function DoCreateFails(s: System, w: nat): System {
    if Tears(s, CreateFails(w)) then s.(broken := true)
    else if w < |s.ws| && s.ws[w].start.Registered?
    then s.(ws := s.ws[w := s.ws[w].(start := Failed, capture := None)], out := s.out - 1, spawns := s.spawns - 1,
            reg := Removed(s.ws, s.reg, s.ws[w].fd), open := s.open - {s.ws[w].fd})
    else s
  }

  /** The buffer a finished body leaves: its value, or a message together with the failure flag. */
  function Packed(e: Ending): (Packet, bool) {
    match e
    case Returns(v) => (Result(v), false)
    case ReturnsUnmovable(reason) => (Message(reason), true)
    case Throws(message) => (Message(message), true)
  }

  /** One step of a worker thread; `e` is how its body ends, if this is the step in which it does. */
  function WorkStep(x: Worker, e: Ending): Worker {
    match x.body
    case NotRunning => x
    case Booting => x.(body := Mapped, mapped := true)
    case Mapped => x.(body := BodyRebuilt, runs := x.capture)
    case BodyRebuilt => x.(body := Running, capture := None)
    case Running => x.(body := Finished, ended := Some(e), result := Some(Packed(e).0), failed := Packed(e).1)
    case Finished => x.(body := Published, count := x.count + 1)
    case Published => x.(body := Exited)
    case Exited => x
  }

  /** The registry scan: the first registered worker with this descriptor. */
  function RegFind(ws: seq<Worker>, reg: seq<nat>, fd: int): (i: nat)
    ensures i <= |reg|
    ensures i < |reg| && reg[i] < |ws| ==> ws[reg[i]].fd == fd
    ensures forall j :: 0 <= j < i && reg[j] < |ws| ==> ws[reg[j]].fd != fd
  {
    if reg == [] || reg[0] >= |ws| || ws[reg[0]].fd == fd then 0 else 1 + RegFind(ws, reg[1..], fd)
  }

  /** Taking an entry moves the last one into its place. */
  function Removed(ws: seq<Worker>, reg: seq<nat>, fd: int): (r: seq<nat>) {
    var i := RegFind(ws, reg, fd);
    if i < |reg| then reg[i := reg[|reg| - 1]][..|reg| - 1] else reg
  }

  /** A result call claims the worker; an unknown descriptor, or one taken already, does nothing. */
  function DoTake(s: System, fd: int): System {
    var i := RegFind(s.ws, s.reg, fd);
    if i < |s.reg| && s.reg[i] < |s.ws|
    then s.(ws := s.ws[s.reg[i] := s.ws[s.reg[i]].(join := Taken)], reg := Removed(s.ws, s.reg, fd))
    else s
  }

  /** Can the joiner go on? Draining blocks until the worker has published, joining until it has exited. */
  predicate CanFinish(x: Worker) {
    match x.join
    case NotTaken => false
    case Taken => x.count > 0
    case BufferFreed => x.body.Exited?
    case Reaped => false
    case _ => true
  }

  /** A failed worker's message is raised; any other value is the result of the call. */
  function Answering(took: Option<(bool, Option<Packet>)>): Option<Answer> {
    match took
    case Some((true, Some(Message(text)))) => Some(Raises(text))
    case Some((true, _)) => Some(Raises("worker failed"))
    case Some((false, Some(Result(v)))) => Some(Gives(v))
    case _ => None
  }

  function FinishStep(x: Worker): Worker {
    match x.join
    case NotTaken => x
    case Taken => x.(join := Drained, count := 0)
    case Drained => x.(join := ResultRebuilt, took := Some((x.failed, x.result)))
    case ResultRebuilt => x.(join := BufferFreed, result := None)
    case BufferFreed => x.(join := Joined)
    case Joined => x.(join := Unmapped, mapped := false)
    case Unmapped => x.(join := Closed)
    case Closed => x.(join := Reaped, reaps := x.reaps + 1, answer := Answering(x.took))
    case Reaped => x
  }

  /** Flattening a result counts one transfer more, freeing the capture buffer one less. */
  function WorkOut(x: Worker): int {
    match x.body
    case BodyRebuilt => -1
    case Running => 1
    case _ => 0
  }

  function DoWork(s: System, w: nat, e: Ending): System {
    if w < |s.ws|
    then s.(ws := s.ws[w := WorkStep(s.ws[w], e)], out := s.out + WorkOut(s.ws[w]))
    else s
  }

  /** The joiner frees the result buffer, if there is one; later it closes the descriptor and counts a reap. */
  function DoFinish(s: System, w: nat): System {
    if w < |s.ws| && CanFinish(s.ws[w]) then
      var x := s.ws[w];
      s.(ws := s.ws[w := FinishStep(x)],
         out := if x.join.ResultRebuilt? && x.result.Some? then s.out - 1 else s.out,
         reaps := if x.join.Closed? then s.reaps + 1 else s.reaps,
         open := if x.join.Unmapped? then s.open - {x.fd} else s.open)
    else s
  }

  /** The transfer counter moves with every buffer that a channel step makes or frees. */
  function DoChan(s: System, c: nat, mv: Channel.Move): System {
    if c < |s.chans| && s.chans[c].cap > 0 && |s.chans[c].ring| == s.chans[c].cap then
      var k := Channel.Step(s.chans[c], mv);
      s.(chans := s.chans[c := k], out := s.out + k.out - s.chans[c].out)
    else s
  }

  function Step(s: System, mv: Move): System {
    if s.broken then s else
    match mv
    case Spawn(given) => s.(ws := s.ws + [Fresh(given)], out := s.out + 1)
    case EventFd(w, fd) => DoEventFd(s, w, fd)
    case EventFdFails(w) => DoEventFdFails(s, w)
    case Create(w) => DoCreate(s, w)
    case CreateFails(w) => DoCreateFails(s, w)
    case Work(w, e) => DoWork(s, w, e)
    case Take(fd) => DoTake(s, fd)
    case Finish(w) => DoFinish(s, w)
    case NewChannel(capacity, policy) => s.(chans := s.chans + [Channel.Init(capacity, policy)])
    case Chan(c, m) => DoChan(s, c, m)
  }

  function Run(s: System, mvs: seq<Move>): System
    decreases |mvs|
  {
    if mvs == [] then s else Run(Step(s, mvs[0]), mvs[1..])
  }

  // --------------------------------------------------------------- the invariant

  /** Buffers a worker's record holds. */
  function Held(x: Worker): nat {
    (if x.capture.Some? then 1 else 0) + (if x.result.Some? then 1 else 0)
  }

  function HeldAll(ws: seq<Worker>): nat {
    if ws == [] then 0 else HeldAll(ws[..|ws| - 1]) + Held(ws[|ws| - 1])
  }

  function ChanOut(cs: seq<Channel.State>): int {
    if cs == [] then 0 else ChanOut(cs[..|cs| - 1]) + cs[|cs| - 1].out
  }

  /** Counted as spawned; counted as reaped. */
  function Spawned(x: Worker): nat {
    if x.start.Registered? || x.start.Started? then 1 else 0
  }

  function SpawnedAll(ws: seq<Worker>): nat {
    if ws == [] then 0 else SpawnedAll(ws[..|ws| - 1]) + Spawned(ws[|ws| - 1])
  }

  function ReapsAll(ws: seq<Worker>): nat {
    if ws == [] then 0 else ReapsAll(ws[..|ws| - 1]) + ws[|ws| - 1].reaps
  }

  predicate PublishedBy(b: Body) {
    b.Published? || b.Exited?
  }

  predicate PastDrain(j: Join) {
    !j.NotTaken? && !j.Taken?
  }

  predicate PastJoin(j: Join) {
    j.Joined? || j.Unmapped? || j.Closed? || j.Reaped?
  }

  predicate PastUnmap(j: Join) {
    j.Unmapped? || j.Closed? || j.Reaped?
  }

  predicate InRegistry(x: Worker) {
    (x.start.Registered? || x.start.Started?) && x.join.NotTaken?
  }

  predicate HoldsFd(x: Worker) {
    (x.start.Registered? || x.start.Started?) && !x.join.Closed? && !x.join.Reaped?
  }

  /** What holds of every worker in every reachable state. */
  predicate WorkerOk(x: Worker) {
    && (x.capture.Some? ==> x.capture.value == x.given)
    && (x.runs.Some? <==> !x.body.NotRunning? && !x.body.Booting? && !x.body.Mapped?)
    && (x.runs.Some? ==> x.runs.value == x.given)
    && (x.capture.Some? <==> !x.start.Failed? && (x.body.NotRunning? || x.body.Booting? || x.body.Mapped? || x.body.BodyRebuilt?))
    && (!x.body.NotRunning? <==> x.start.Started?)
    && (!x.join.NotTaken? ==> x.start.Started? || x.start.Registered?)
    && (x.count > 0 <==> PublishedBy(x.body) && !PastDrain(x.join))
    && (PastDrain(x.join) ==> PublishedBy(x.body))
    && (PastJoin(x.join) ==> x.body.Exited?)
    && (x.ended.Some? <==> x.body.Finished? || PublishedBy(x.body))
    && (x.ended.Some? ==> x.failed == Packed(x.ended.value).1)
    && (x.result.Some? <==> x.ended.Some? && (!PastDrain(x.join) || x.join.Drained? || x.join.ResultRebuilt?))
    && (x.result.Some? ==> x.result.value == Packed(x.ended.value).0)
    && (x.took.Some? <==> PastDrain(x.join) && !x.join.Drained?)
    && (x.took.Some? ==> x.ended.Some? && x.took.value == (Packed(x.ended.value).1, Some(Packed(x.ended.value).0)))
    && x.answer == (if x.join.Reaped? then Answering(x.took) else None)
    && (x.mapped <==> !x.body.NotRunning? && !x.body.Booting? && !PastUnmap(x.join))
    && x.reaps == if x.join.Reaped? then 1 else 0
  }

  ghost predicate RegOk(ws: seq<Worker>, reg: seq<nat>) {
    && (forall i, j :: 0 <= i < j < |reg| ==> reg[i] != reg[j])
    && (forall w :: w in reg <==> 0 <= w < |ws| && InRegistry(ws[w]))
  }

  /** Some worker holds the descriptor. */
  ghost predicate Holder(ws: seq<Worker>, fd: int) {
    exists w :: 0 <= w < |ws| && HoldsFd(ws[w]) && ws[w].fd == fd
  }

  ghost predicate FdsOk(ws: seq<Worker>, open: set<int>) {
    && (forall w :: 0 <= w < |ws| && HoldsFd(ws[w]) ==> ws[w].fd in open)
    && (forall fd :: fd in open ==> Holder(ws, fd))
    && (forall v, w :: 0 <= v < w < |ws| && HoldsFd(ws[v]) && HoldsFd(ws[w]) ==> ws[v].fd != ws[w].fd)
  }

  ghost predicate Inv(s: System) {
    && (forall w :: 0 <= w < |s.ws| ==> WorkerOk(s.ws[w]))
    && RegOk(s.ws, s.reg) && FdsOk(s.ws, s.open)
    && s.out == HeldAll(s.ws) + ChanOut(s.chans)
    && s.spawns == SpawnedAll(s.ws) && s.reaps == ReapsAll(s.ws)
    && (forall c :: 0 <= c < |s.chans| ==> Channel.Inv(s.chans[c]))
  }

  // -------------------------------------------------------------- preservation

  lemma {:induction false} SumsUpdate(ws: seq<Worker>, w: nat, x: Worker)
    requires w < |ws|
    ensures HeldAll(ws[w := x]) == HeldAll(ws) - Held(ws[w]) + Held(x)
    ensures SpawnedAll(ws[w := x]) == SpawnedAll(ws) - Spawned(ws[w]) + Spawned(x)
    ensures ReapsAll(ws[w := x]) == ReapsAll(ws) - ws[w].reaps + x.reaps
    decreases |ws|
  {
    hide Held, Spawned;
    var p, p' := ws[..|ws| - 1], ws[w := x][..|ws| - 1];
    if w < |ws| - 1 {
      SumsUpdate(p, w, x);
      assert p' == p[w := x];
    } else {
      assert p' == p;
    }
  }

  lemma {:induction false} ChanUpdate(cs: seq<Channel.State>, c: nat, k: Channel.State)
    requires c < |cs|
    ensures ChanOut(cs[c := k]) == ChanOut(cs) - cs[c].out + k.out
    decreases |cs|
  {
    var p, p' := cs[..|cs| - 1], cs[c := k][..|cs| - 1];
    if c < |cs| - 1 {
      ChanUpdate(p, c, k);
      assert p' == p[c := k];
    } else {
      assert p' == p;
    }
  }

  lemma WorkOk(x: Worker, e: Ending)
    requires WorkerOk(x)
    ensures WorkerOk(WorkStep(x, e))
    ensures var y := WorkStep(x, e); y.fd == x.fd && y.start == x.start && y.join == x.join && y.reaps == x.reaps
    ensures WorkOut(x) == Held(WorkStep(x, e)) - Held(x)
  {
  }

  lemma FinishOk(x: Worker)
    requires WorkerOk(x) && CanFinish(x)
    ensures WorkerOk(FinishStep(x))
    ensures var y := FinishStep(x); y.fd == x.fd && y.start == x.start && !y.join.NotTaken?
    ensures Held(FinishStep(x)) == Held(x) - if x.join.ResultRebuilt? && x.result.Some? then 1 else 0
  {
  }

  /** A worker keeps its descriptor, or had none, or gives it up and it is closed. */
  ghost predicate FdMoves(open: set<int>, x: Worker, y: Worker, open': set<int>) {
    || (HoldsFd(y) == HoldsFd(x) && (HoldsFd(y) ==> y.fd == x.fd) && open' == open)
    || (HoldsFd(x) && !HoldsFd(y) && open' == open - {x.fd})
  }

  lemma FdsUpdate(ws: seq<Worker>, open: set<int>, w: nat, x: Worker, open': set<int>)
    requires FdsOk(ws, open) && w < |ws| && FdMoves(open, ws[w], x, open')
    ensures FdsOk(ws[w := x], open')
  {
    hide HoldsFd;
    var ws' := ws[w := x];
    forall fd | fd in open' ensures Holder(ws', fd) {
      assert Holder(ws, fd);
      var u :| 0 <= u < |ws| && HoldsFd(ws[u]) && ws[u].fd == fd;
      assert HoldsFd(ws'[u]) && ws'[u].fd == fd;
    }
  }

  /** A step of one worker that leaves its registration as it was. */
  lemma LocalKeeps(s: System, w: nat, x: Worker, out: int, reaps: int, open: set<int>)
    requires Inv(s) && w < |s.ws| && WorkerOk(x)
    requires InRegistry(x) == InRegistry(s.ws[w]) && FdMoves(s.open, s.ws[w], x, open)
    requires Spawned(x) == Spawned(s.ws[w])
    requires out == s.out + Held(x) - Held(s.ws[w]) && reaps == s.reaps + x.reaps - s.ws[w].reaps
    ensures Inv(s.(ws := s.ws[w := x], out := out, reaps := reaps, open := open))
  {
    SumsUpdate(s.ws, w, x);
    FdsUpdate(s.ws, s.open, w, x, open);
    hide WorkerOk, Held, HeldAll, ChanOut, SpawnedAll, ReapsAll, Spawned, InRegistry, HoldsFd, FdsOk;
  }

  lemma SpawnKeeps(s: System, given: Val)
    requires Inv(s)
    ensures Inv(Step(s, Spawn(given)))
  {
    hide HeldAll, ChanOut, SpawnedAll, ReapsAll, RegOk, FdsOk;
    SumsAppend(s.ws, Fresh(given));
    SpawnReg(s.ws, s.reg, given);
    SpawnFds(s.ws, s.open, given);
  }

  lemma SpawnReg(ws: seq<Worker>, reg: seq<nat>, given: Val)
    requires RegOk(ws, reg)
    ensures RegOk(ws + [Fresh(given)], reg)
  {
    assert !InRegistry(Fresh(given));
    hide InRegistry;
  }

  lemma SpawnFds(ws: seq<Worker>, open: set<int>, given: Val)
    requires FdsOk(ws, open)
    ensures FdsOk(ws + [Fresh(given)], open)
  {
    assert !HoldsFd(Fresh(given));
    hide HoldsFd;
    forall fd | fd in open ensures Holder(ws + [Fresh(given)], fd) {
      assert Holder(ws, fd);
      var u :| 0 <= u < |ws| && HoldsFd(ws[u]) && ws[u].fd == fd;
      assert (ws + [Fresh(given)])[u] == ws[u];
    }
  }

  lemma SumsAppend(ws: seq<Worker>, x: Worker)
    ensures HeldAll(ws + [x]) == HeldAll(ws) + Held(x)
    ensures SpawnedAll(ws + [x]) == SpawnedAll(ws) + Spawned(x)
    ensures ReapsAll(ws + [x]) == ReapsAll(ws) + x.reaps
  {
    hide Held, Spawned;
    assert (ws + [x])[..|ws|] == ws;
  }

  lemma EventFdKeeps(s: System, w: nat, fd: int)
    requires Inv(s)
    ensures Inv(DoEventFd(s, w, fd))
  {
    var s' := DoEventFd(s, w, fd);
    if s' != s {
      assert WorkerOk(s.ws[w]);
      SumsUpdate(s.ws, w, s'.ws[w]);
      EventFdReg(s.ws, s.reg, w, s'.ws[w]);
      EventFdFds(s.ws, s.open, w, s'.ws[w]);
      hide HeldAll, ChanOut, SpawnedAll, ReapsAll, RegOk, FdsOk;
    }
  }

  lemma EventFdReg(ws: seq<Worker>, reg: seq<nat>, w: nat, x: Worker)
    requires RegOk(ws, reg) && w < |ws| && !InRegistry(ws[w]) && InRegistry(x)
    ensures RegOk(ws[w := x], reg + [w])
  {
    hide InRegistry;
    assert w !in reg;
  }

  lemma EventFdFds(ws: seq<Worker>, open: set<int>, w: nat, x: Worker)
    requires FdsOk(ws, open) && w < |ws| && x.fd !in open && !HoldsFd(ws[w]) && HoldsFd(x)
    ensures FdsOk(ws[w := x], open + {x.fd})
  {
    hide HoldsFd;
    var ws' := ws[w := x];
    forall fd | fd in open + {x.fd} ensures Holder(ws', fd) {
      if fd == x.fd {
        assert HoldsFd(ws'[w]);
      } else {
        assert Holder(ws, fd);
        var u :| 0 <= u < |ws| && HoldsFd(ws[u]) && ws[u].fd == fd;
        assert ws'[u] == ws[u];
      }
    }
  }

  lemma EventFdFailsKeeps(s: System, w: nat)
    requires Inv(s)
    ensures Inv(DoEventFdFails(s, w))
  {
    var s' := DoEventFdFails(s, w);
    if s' != s {
      assert WorkerOk(s.ws[w]);
      LocalKeeps(s, w, s'.ws[w], s'.out, s'.reaps, s'.open);
    }
  }

  lemma CreateKeeps(s: System, w: nat)
    requires Inv(s)
    ensures Inv(DoCreate(s, w))
  {
    var s' := DoCreate(s, w);
    if s' != s {
      assert WorkerOk(s.ws[w]);
      LocalKeeps(s, w, s'.ws[w], s'.out, s'.reaps, s'.open);
    }
  }

  /** Taking by descriptor removes exactly the registered worker that holds it. */
  lemma RemovedIs(ws: seq<Worker>, reg: seq<nat>, open: set<int>, w: nat)
    requires RegOk(ws, reg) && FdsOk(ws, open) && w < |ws| && InRegistry(ws[w])
    ensures var i := RegFind(ws, reg, ws[w].fd); i < |reg| && reg[i] == w
    ensures var r := Removed(ws, reg, ws[w].fd);
            && (forall i, j :: 0 <= i < j < |r| ==> r[i] != r[j])
            && (forall v :: v in r <==> v in reg && v != w)
  {
    var i := RegFind(ws, reg, ws[w].fd);
    assert w in reg;
    var k :| 0 <= k < |reg| && reg[k] == w;
    forall j | 0 <= j < |reg| ensures reg[j] < |ws| && (ws[reg[j]].fd == ws[w].fd ==> reg[j] == w) {
      assert reg[j] in reg;
      assert HoldsFd(ws[reg[j]]) && HoldsFd(ws[w]);
    }
    hide RegFind;
    SwapRemove(reg, i);
  }

  lemma SwapRemove(reg: seq<nat>, i: nat)
    requires i < |reg| && forall j, k :: 0 <= j < k < |reg| ==> reg[j] != reg[k]
    ensures var r := reg[i := reg[|reg| - 1]][..|reg| - 1];
            && (forall j, k :: 0 <= j < k < |r| ==> r[j] != r[k])
            && (forall v :: v in r <==> v in reg && v != reg[i])
  {
    var r := reg[i := reg[|reg| - 1]][..|reg| - 1];
    forall v | v in reg && v != reg[i] ensures v in r {
      var j :| 0 <= j < |reg| && reg[j] == v;
      assert r[if j == |reg| - 1 then i else j] == v;
    }
    forall v | v in r ensures v in reg && v != reg[i] {
      var j :| 0 <= j < |r| && r[j] == v;
      assert v == reg[if j == i then |reg| - 1 else j];
    }
  }

  /** A worker leaves the registry; `open` may lose its descriptor. */
  lemma LeaveKeeps(s: System, w: nat, x: Worker, out: int, spawns: int, open: set<int>)
    requires Inv(s) && w < |s.ws| && InRegistry(s.ws[w]) && WorkerOk(x) && !InRegistry(x)
    requires x.fd == s.ws[w].fd && x.reaps == s.ws[w].reaps
    requires FdMoves(s.open, s.ws[w], x, open)
    requires out == s.out + Held(x) - Held(s.ws[w]) && spawns == s.spawns + Spawned(x) - Spawned(s.ws[w])
    ensures Inv(s.(ws := s.ws[w := x], out := out, spawns := spawns, open := open, reg := Removed(s.ws, s.reg, s.ws[w].fd)))
  {
    SumsUpdate(s.ws, w, x);
    RemovedIs(s.ws, s.reg, s.open, w);
    FdsUpdate(s.ws, s.open, w, x, open);
    hide WorkerOk, Held, HeldAll, ChanOut, SpawnedAll, ReapsAll, Spawned, Removed, FdsOk, HoldsFd;
  }

  lemma CreateFailsKeeps(s: System, w: nat)
    requires Inv(s)
    ensures Inv(DoCreateFails(s, w))
  {
    if w < |s.ws| && s.ws[w].start.Registered? && s.ws[w].join.NotTaken? {
      var s' := DoCreateFails(s, w);
      assert WorkerOk(s.ws[w]);
      hide Inv, Removed;
      LeaveKeeps(s, w, s'.ws[w], s'.out, s'.spawns, s'.open);
    }
  }

  lemma TakeKeeps(s: System, fd: int)
    requires Inv(s)
    ensures Inv(DoTake(s, fd))
  {
    var i := RegFind(s.ws, s.reg, fd);
    if i < |s.reg| && s.reg[i] < |s.ws| {
      var w := s.reg[i];
      assert w in s.reg && WorkerOk(s.ws[w]);
      hide Inv, Removed, RegFind;
      LeaveKeeps(s, w, s.ws[w].(join := Taken), s.out, s.spawns, s.open);
    }
  }

  lemma WorkKeeps(s: System, w: nat, e: Ending)
    requires Inv(s)
    ensures Inv(DoWork(s, w, e))
  {
    if w < |s.ws| {
      var s' := DoWork(s, w, e);
      WorkOk(s.ws[w], e);
      hide Inv, WorkStep;
      LocalKeeps(s, w, s'.ws[w], s'.out, s'.reaps, s'.open);
    }
  }

  lemma FinishKeeps(s: System, w: nat)
    requires Inv(s)
    ensures Inv(DoFinish(s, w))
  {
    if w < |s.ws| && CanFinish(s.ws[w]) {
      var s' := DoFinish(s, w);
      FinishOk(s.ws[w]);
      hide Inv;
      LocalKeeps(s, w, s'.ws[w], s'.out, s'.reaps, s'.open);
    }
  }

  lemma ChannelsKeep(s: System, mv: Move)
    requires Inv(s) && (mv.Chan? || mv.NewChannel?)
    ensures Inv(Step(s, mv))
  {
    hide WorkerOk, HeldAll, SpawnedAll, ReapsAll, RegOk, FdsOk, Channel.Inv;
    match mv
    case NewChannel(capacity, policy) =>
      Channel.InitInv(capacity, policy);
      assert (s.chans + [Channel.Init(capacity, policy)])[..|s.chans|] == s.chans;
    case Chan(c, m) =>
      if c < |s.chans| && s.chans[c].cap > 0 && |s.chans[c].ring| == s.chans[c].cap {
        ChanUpdate(s.chans, c, Channel.Step(s.chans[c], m));
        Channel.StepKeeps(s.chans[c], m);
      }
  }

  lemma StepKeeps(s: System, mv: Move)
    requires Inv(s)
    ensures Inv(Step(s, mv))
  {
    hide Inv;
    if s.broken { return; }
    match mv
    case Spawn(given) => SpawnKeeps(s, given);
    case EventFd(w, fd) => EventFdKeeps(s, w, fd);
    case EventFdFails(w) => EventFdFailsKeeps(s, w);
    case Create(w) => CreateKeeps(s, w);
    case CreateFails(w) => CreateFailsKeeps(s, w);
    case Work(w, e) => WorkKeeps(s, w, e);
    case Take(fd) => TakeKeeps(s, fd);
    case Finish(w) => FinishKeeps(s, w);
    case NewChannel(_, _) => ChannelsKeep(s, mv);
    case Chan(_, _) => ChannelsKeep(s, mv);
  }

  lemma {:induction false} RunKeeps(s: System, mvs: seq<Move>)
    requires Inv(s)
    ensures Inv(Run(s, mvs))
    decreases |mvs|
  {
    hide Inv, Step;
    if mvs != [] {
      StepKeeps(s, mvs[0]);
      RunKeeps(Step(s, mvs[0]), mvs[1..]);
    }
  }

  /** Every state a run can reach satisfies the invariant. */
  lemma Reached(mvs: seq<Move>)
    ensures Inv(Run(Init(), mvs))
  {
    assert Inv(Init());
    hide Run, Inv;
    RunKeeps(Init(), mvs);
  }

  // ------------------------------------------------------------------- results

  /**
   Nothing else breaks a run: it is whole unless at some point thread creation fails for a worker
   that a result call, by a descriptor number left over from another worker, has taken already.
   */
  lemma {:induction false} BrokenIff(s: System, mvs: seq<Move>)
    requires !s.broken
    ensures Run(s, mvs).broken <==> exists k :: 0 <= k < |mvs| && !Run(s, mvs[..k]).broken && Tears(Run(s, mvs[..k]), mvs[k])
    decreases |mvs|
  {
    if mvs != [] {
      var last := |mvs| - 1;
      BrokenIff(s, mvs[..last]);
      RunLast(s, mvs);
      var mid := Run(s, mvs[..last]);
      assert Step(mid, mvs[last]).broken <==> mid.broken || Tears(mid, mvs[last]);
      hide Step, Tears, Run;
      if mid.broken {
        var k :| 0 <= k < last && !Run(s, mvs[..last][..k]).broken && Tears(Run(s, mvs[..last][..k]), mvs[..last][k]);
        assert mvs[..last][..k] == mvs[..k];
      }
      forall k | 0 <= k < last && !mid.broken ensures !(!Run(s, mvs[..k]).broken && Tears(Run(s, mvs[..k]), mvs[k])) {
        assert mvs[..last][..k] == mvs[..k] && mvs[..last][k] == mvs[k];
      }
      forall k | 0 <= k < |mvs| && !Run(s, mvs[..k]).broken && Tears(Run(s, mvs[..k]), mvs[k]) ensures Run(s, mvs).broken {
        assert k == last || mid.broken;
      }
    }
  }

  lemma {:induction false} RunLast(s: System, mvs: seq<Move>)
    requires mvs != []
    ensures Run(s, mvs) == Step(Run(s, mvs[..|mvs| - 1]), mvs[|mvs| - 1])
    decreases |mvs|
  {
    hide Step;
    var p := mvs[..|mvs| - 1];
    if p == [] {
      assert mvs[1..] == [];
    } else {
      RunLast(Step(s, mvs[0]), mvs[1..]);
      assert mvs[1..][..|mvs| - 2] == p[1..];
    }
  }

  /** Such a run: worker 0 gets descriptor 5, a stale result call on 5 takes it, its thread cannot be made. */
  const STALE: seq<Move> := [Spawn(0), EventFd(0, 5), Take(5), CreateFails(0)]

  lemma StaleTakeBreaks()
    ensures Run(Init(), STALE).broken
  {
    var a := Step(Init(), Spawn(0));
    var b := Step(a, EventFd(0, 5));
    assert b.reg == [0] && RegFind(b.ws, b.reg, 5) == 0;
    var c := Step(b, Take(5));
    assert Tears(c, CreateFails(0));
    assert Run(Step(c, CreateFails(0)), []).broken;
    assert STALE[1..] == [EventFd(0, 5), Take(5), CreateFails(0)];
    assert STALE[1..][1..] == [Take(5), CreateFails(0)];
    assert STALE[1..][1..][1..] == [CreateFails(0)];
    assert STALE[1..][1..][1..][1..] == [];
  }

  /** Buffers in a channel's ring and in its endpoints' hands. */
  function ChanBuffers(cs: seq<Channel.State>): int {
    if cs == [] then 0
    else
      var k := cs[|cs| - 1];
      ChanBuffers(cs[..|cs| - 1]) + (k.tail - k.head) +
      (if Channel.ProdHas(k) then 1 else 0) + (if Channel.ConsHas(k) then 1 else 0)
  }

  lemma {:induction false} ChanOutIs(cs: seq<Channel.State>)
    requires forall c :: 0 <= c < |cs| ==> Channel.Inv(cs[c])
    ensures ChanOut(cs) == ChanBuffers(cs)
    decreases |cs|
  {
    if cs != [] {
      ChanOutIs(cs[..|cs| - 1]);
      assert Channel.Inv(cs[|cs| - 1]);
    }
  }

  /** In every interleaving the counter is the number of buffers in slots, rings and hands. */
  lemma TransfersAccounted(mvs: seq<Move>)
    ensures var s := Run(Init(), mvs); s.out == HeldAll(s.ws) + ChanBuffers(s.chans)
  {
    hide Run, HeldAll, ChanOut;
    Reached(mvs);
    ChanOutIs(Run(Init(), mvs).chans);
  }

  /**
   In every interleaving a worker is reaped at most once, only after it published and exited;
   its heap is unmapped only then, and only after any result it made was rebuilt and its
   buffer freed. A published result keeps its descriptor readable until a joiner reads it.
   */
  lemma ReapedOnceAfterPublish(mvs: seq<Move>, w: nat)
    requires w < |Run(Init(), mvs).ws|
    ensures var x := Run(Init(), mvs).ws[w];
            && x.reaps <= 1
            && (x.reaps == 1 ==> x.body.Exited? && !x.mapped && x.capture.None? && x.result.None?)
            && (PastUnmap(x.join) ==> x.body.Exited? && x.took.Some? && x.result.None?)
            && (x.body.Running? || x.body.Finished? || x.body.Published? ==> x.mapped)
            && (PublishedBy(x.body) && (x.join.NotTaken? || x.join.Taken?) ==> x.count > 0)
  {
    hide Run;
    Reached(mvs);
    assert WorkerOk(Run(Init(), mvs).ws[w]);
  }

  // ----------------------------------------------------- what a worker runs and returns

  /** What the caller of the result call is to get for such an end. */
  function Due(e: Ending): Answer {
    match e
    case Returns(v) => Gives(v)
    case ReturnsUnmovable(reason) => Raises(reason)
    case Throws(message) => Raises(message)
  }

  /** At step k the start call for worker w was given this body. */
  ghost predicate StartedWith(mvs: seq<Move>, w: nat, given: Val, k: nat) {
    k < |mvs| && mvs[k] == Spawn(given) && |Run(Init(), mvs[..k]).ws| == w
  }

  /** At step k the body of worker w, which was the one it was given, ended so. */
  ghost predicate EndedWith(mvs: seq<Move>, w: nat, e: Ending, k: nat) {
    && k < |mvs| && mvs[k] == Work(w, e) && w < |Run(Init(), mvs[..k]).ws|
    && var x := Run(Init(), mvs[..k]).ws[w]; x.body.Running? && x.runs == Some(x.given)
  }

  ghost predicate Told(mvs: seq<Move>, w: nat, x: Worker) {
    && (exists k: nat :: StartedWith(mvs, w, x.given, k))
    && (x.ended.Some? ==> exists k: nat :: EndedWith(mvs, w, x.ended.value, k))
  }

  lemma ToldMore(mvs: seq<Move>, w: nat, x: Worker)
    requires mvs != [] && Told(mvs[..|mvs| - 1], w, x)
    ensures Told(mvs, w, x)
  {
    hide Run;
    var p := mvs[..|mvs| - 1];
    var k: nat :| StartedWith(p, w, x.given, k);
    assert p[..k] == mvs[..k];
    assert StartedWith(mvs, w, x.given, k);
    if x.ended.Some? {
      var j: nat :| EndedWith(p, w, x.ended.value, j);
      assert p[..j] == mvs[..j];
      assert EndedWith(mvs, w, x.ended.value, j);
    }
  }

  /** A step changes neither what a worker was given nor, but for its own last step of running, how it ended. */
  lemma StepTells(s: System, mv: Move, w: nat)
    requires Inv(s) && w < |Step(s, mv).ws|
    ensures w < |s.ws| ==> Step(s, mv).ws[w].given == s.ws[w].given
    ensures w < |s.ws| && Step(s, mv).ws[w].ended != s.ws[w].ended ==>
              mv.Work? && mv.w == w && s.ws[w].body.Running? && s.ws[w].runs == Some(s.ws[w].given) && Step(s, mv).ws[w].ended == Some(mv.ending)
    ensures w >= |s.ws| ==> mv.Spawn? && w == |s.ws| && Step(s, mv).ws[w].given == mv.given && Step(s, mv).ws[w].ended.None?
  {
    if w < |s.ws| { assert WorkerOk(s.ws[w]); }
    hide Inv;
    if mv.Work? {
      WorkTells(s, mv.w, mv.ending, w);
      hide DoWork;
    } else {
      OtherTells(s, mv, w);
      hide Step;
    }
  }

  lemma WorkTells(s: System, u: nat, e: Ending, w: nat)
    requires w < |s.ws| ==> WorkerOk(s.ws[w])
    ensures var s' := DoWork(s, u, e);
            && |s'.ws| == |s.ws|
            && (w < |s.ws| ==> s'.ws[w].given == s.ws[w].given)
            && (w < |s.ws| && s'.ws[w].ended != s.ws[w].ended ==>
                  u == w && s.ws[w].body.Running? && s.ws[w].runs == Some(s.ws[w].given) && s'.ws[w].ended == Some(e))
  {
    hide Packed, Answering;
  }

  lemma OtherTells(s: System, mv: Move, w: nat)
    requires !mv.Work? && w < |Step(s, mv).ws|
    ensures w < |s.ws| ==> Step(s, mv).ws[w].given == s.ws[w].given && Step(s, mv).ws[w].ended == s.ws[w].ended
    ensures w >= |s.ws| ==> mv.Spawn? && w == |s.ws| && Step(s, mv).ws[w].given == mv.given && Step(s, mv).ws[w].ended.None?
  {
    hide Removed, RegFind, WorkStep, Answering, Channel.Step, CanFinish;
  }

  lemma ToldOld(mvs: seq<Move>, w: nat, x: Worker, y: Worker)
    requires mvs != [] && Told(mvs[..|mvs| - 1], w, x) && y.given == x.given
    requires y.ended == x.ended || (y.ended.Some? && EndedWith(mvs, w, y.ended.value, |mvs| - 1))
    ensures Told(mvs, w, y)
  {
    hide EndedWith, StartedWith, Run;
    ToldMore(mvs, w, x);
    if y.ended == x.ended && y.ended.Some? {
      var k: nat :| EndedWith(mvs, w, x.ended.value, k);
    }
  }

  lemma {:induction false} AllTold(mvs: seq<Move>, w: nat)
    requires w < |Run(Init(), mvs).ws|
    ensures Told(mvs, w, Run(Init(), mvs).ws[w])
    decreases |mvs|
  {
    if mvs == [] { return; }
    var last := |mvs| - 1;
    hide Run, Inv, Step, Told;
    RunLast(Init(), mvs);
    Reached(mvs[..last]);
    var s, s' := Run(Init(), mvs[..last]), Run(Init(), mvs);
    StepTells(s, mvs[last], w);
    if w < |s.ws| {
      AllTold(mvs[..last], w);
      ToldOld(mvs, w, s.ws[w], s'.ws[w]);
    } else {
      ToldNew(mvs, w, s'.ws[w]);
    }
  }

  lemma ToldNew(mvs: seq<Move>, w: nat, x: Worker)
    requires mvs != [] && StartedWith(mvs, w, x.given, |mvs| - 1) && x.ended.None?
    ensures Told(mvs, w, x)
  {
    hide StartedWith;
  }

  /**
   In every interleaving a result call that has returned gives back what the body of that very
   worker, the one the start call was given, ended with: its value, or else the reason it cannot
   cross threads or the message it threw, raised.
   */
  lemma AnswerIsEnding(mvs: seq<Move>, w: nat)
    requires w < |Run(Init(), mvs).ws| && Run(Init(), mvs).ws[w].join.Reaped?
    ensures var x := Run(Init(), mvs).ws[w];
            && (exists k: nat :: StartedWith(mvs, w, x.given, k))
            && exists e, k: nat :: EndedWith(mvs, w, e, k) && x.answer == Some(Due(e))
  {
    hide Run;
    AllTold(mvs, w);
    Reached(mvs);
    var x := Run(Init(), mvs).ws[w];
    assert WorkerOk(x);
    hide Inv;
    var k: nat :| EndedWith(mvs, w, x.ended.value, k);
  }

  // ---------------------------------------------------------------- calls complete

  function BodyLeft(b: Body): nat {
    match b
    case NotRunning => 7 case Booting => 6 case Mapped => 5 case BodyRebuilt => 4
    case Running => 3 case Finished => 2 case Published => 1 case Exited => 0
  }

  function JoinLeft(j: Join): nat {
    match j
    case NotTaken => 9 case Taken => 8 case Drained => 6 case ResultRebuilt => 5 case BufferFreed => 4
    case Joined => 3 case Unmapped => 2 case Closed => 1 case Reaped => 0
  }

  /** The joiner's next step, or the worker's while the joiner waits for it. */
  function JoinMove(x: Worker, w: nat, e: Ending): Move {
    if CanFinish(x) then Finish(w) else Work(w, e)
  }

  /** How the body ends if it has not ended yet. */
  function EndOf(x: Worker, e: Ending): Ending {
    if x.ended.Some? then x.ended.value else e
  }

  predicate BeingJoined(s: System, w: nat) {
    !s.broken && w < |s.ws| && s.ws[w].start.Started? && !s.ws[w].join.NotTaken?
  }

  lemma JoinStep(s: System, w: nat, e: Ending)
    requires Inv(s) && BeingJoined(s, w) && !s.ws[w].join.Reaped?
    ensures var s' := Step(s, JoinMove(s.ws[w], w, e));
            && BeingJoined(s', w) && EndOf(s'.ws[w], e) == EndOf(s.ws[w], e)
            && BodyLeft(s'.ws[w].body) + JoinLeft(s'.ws[w].join) < BodyLeft(s.ws[w].body) + JoinLeft(s.ws[w].join)
            && (forall u :: 0 <= u < |s.ws| && u != w ==> u < |s'.ws| && s'.ws[u] == s.ws[u])
  {
    assert WorkerOk(s.ws[w]);
    JoinLocal(s.ws[w], w, e);
    hide Inv, WorkerOk, WorkStep, FinishStep, BodyLeft, JoinLeft, EndOf, CanFinish;
  }

  lemma JoinLocal(x: Worker, w: nat, e: Ending)
    requires WorkerOk(x) && x.start.Started? && !x.join.NotTaken? && !x.join.Reaped?
    ensures var y := if CanFinish(x) then FinishStep(x) else WorkStep(x, e);
            && y.start == x.start && !y.join.NotTaken? && EndOf(y, e) == EndOf(x, e)
            && BodyLeft(y.body) + JoinLeft(y.join) < BodyLeft(x.body) + JoinLeft(x.join)
  {
    hide Packed, Answering;
  }

  /** A result call that has taken a started worker returns by at most fifteen steps, its own and that worker's. */
  lemma {:induction false} JoinCompletes(s: System, w: nat, e: Ending) returns (mvs: seq<Move>)
    requires Inv(s) && BeingJoined(s, w)
    ensures |mvs| <= BodyLeft(s.ws[w].body) + JoinLeft(s.ws[w].join) && forall i :: 0 <= i < |mvs| ==> mvs[i] in {Finish(w), Work(w, e)}
    ensures var s' := Run(s, mvs); BeingJoined(s', w) && s'.ws[w].join.Reaped? && s'.ws[w].answer == Some(Due(EndOf(s.ws[w], e)))
    decreases BodyLeft(s.ws[w].body) + JoinLeft(s.ws[w].join)
  {
    mvs := [];
    if s.ws[w].join.Reaped? {
      assert WorkerOk(s.ws[w]);
    } else {
      var mv := JoinMove(s.ws[w], w, e);
      hide Inv, Step, EndOf, Due, BodyLeft, JoinLeft, CanFinish;
      JoinStep(s, w, e);
      StepKeeps(s, mv);
      var more := JoinCompletes(Step(s, mv), w, e);
      mvs := [mv] + more;
      assert mvs[1..] == more;
    }
  }

  /** A start call with a free descriptor and a thread to be had. */
  lemma Starts(s: System, given: Val, fd: int)
    requires !s.broken && fd >= 0 && fd !in s.open
    ensures var w := |s.ws|; var s3 := Step(Step(Step(s, Spawn(given)), EventFd(w, fd)), Create(w));
            !s3.broken && |s3.ws| == w + 1 && s3.ws[w] == Fresh(given).(fd := fd, start := Started, body := Booting)
  {
  }

  /** The result call on its descriptor takes that worker. */
  lemma Takes(s: System, w: nat)
    requires Inv(s) && !s.broken && w < |s.ws| && InRegistry(s.ws[w])
    ensures var s' := Step(s, Take(s.ws[w].fd)); !s'.broken && |s'.ws| == |s.ws| && s'.ws[w] == s.ws[w].(join := Taken)
  {
    RemovedIs(s.ws, s.reg, s.open, w);
    hide Inv, Removed, RegFind, InRegistry;
  }

  lemma RunCons(s: System, mv: Move, mvs: seq<Move>)
    ensures Run(s, [mv] + mvs) == Run(Step(s, mv), mvs)
  {
    hide Step;
    assert ([mv] + mvs)[1..] == mvs;
  }

  /** From every reachable state a worker can be started and joined, and the answer is how its body ends. */
  lemma WorkerLife(s: System, given: Val, fd: int, e: Ending) returns (mvs: seq<Move>)
    requires Inv(s) && !s.broken && fd >= 0 && fd !in s.open
    ensures var s' := Run(s, mvs); |s.ws| < |s'.ws| && s'.ws[|s.ws|].given == given && s'.ws[|s.ws|].answer == Some(Due(e))
  {
    var w := |s.ws|;
    Starts(s, given, fd);
    hide Run, Step, Inv;
    var s1 := Step(s, Spawn(given));
    var s2 := Step(s1, EventFd(w, fd));
    var s3 := Step(s2, Create(w));
    var s4 := Step(s3, Take(fd));
    StepKeeps(s, Spawn(given));
    StepKeeps(s1, EventFd(w, fd));
    StepKeeps(s2, Create(w));
    StepKeeps(s3, Take(fd));
    Takes(s3, w);
    var rest := JoinCompletes(s4, w, e);
    GivenStays(s4, rest, w);
    RunCons(s3, Take(fd), rest);
    RunCons(s2, Create(w), [Take(fd)] + rest);
    RunCons(s1, EventFd(w, fd), [Create(w)] + ([Take(fd)] + rest));
    mvs := [Spawn(given)] + ([EventFd(w, fd)] + ([Create(w)] + ([Take(fd)] + rest)));
    RunCons(s, Spawn(given), mvs[1..]);
    assert mvs == [Spawn(given)] + mvs[1..];
  }

  lemma {:induction false} GivenStays(s: System, mvs: seq<Move>, w: nat)
    requires Inv(s) && w < |s.ws|
    ensures w < |Run(s, mvs).ws| && Run(s, mvs).ws[w].given == s.ws[w].given
    decreases |mvs|
  {
    hide Inv, Step;
    if mvs != [] {
      StepKeeps(s, mvs[0]);
      WorkersStay(s, mvs[0]);
      StepTells(s, mvs[0], w);
      GivenStays(Step(s, mvs[0]), mvs[1..], w);
    }
  }

  lemma WorkersStay(s: System, mv: Move)
    ensures |s.ws| <= |Step(s, mv).ws|
  {
    hide Removed, RegFind, Channel.Step, WorkStep, FinishStep;
  }

  /** A descriptor names at most one unreaped worker, so a result call can take no other. */
  lemma OneWorkerPerFd(mvs: seq<Move>, v: nat, w: nat)
    requires var s := Run(Init(), mvs); v < |s.ws| && w < |s.ws| && HoldsFd(s.ws[v]) && HoldsFd(s.ws[w])
    requires var s := Run(Init(), mvs); s.ws[v].fd == s.ws[w].fd
    ensures v == w
  {
    hide Run;
    Reached(mvs);
  }

  predicate Over(x: Worker) {
    x.start.Failed? || x.join.Reaped?
  }

  predicate Quiet(k: Channel.State) {
    k.prod.PIdle? && k.cons.CIdle? && k.head == k.tail
  }

  lemma {:induction false} NothingHeld(ws: seq<Worker>)
    requires forall w :: 0 <= w < |ws| ==> WorkerOk(ws[w]) && Over(ws[w])
    ensures HeldAll(ws) == 0 && SpawnedAll(ws) == ReapsAll(ws)
    decreases |ws|
  {
    if ws != [] {
      NothingHeld(ws[..|ws| - 1]);
      assert WorkerOk(ws[|ws| - 1]);
    }
  }

  lemma {:induction false} NothingQueued(cs: seq<Channel.State>)
    requires forall c :: 0 <= c < |cs| ==> Quiet(cs[c])
    ensures ChanBuffers(cs) == 0
    decreases |cs|
  {
    if cs != [] { NothingQueued(cs[..|cs| - 1]); }
  }

  lemma HeadIn(q: seq<nat>)
    ensures q == [] || q[0] in q
  {
  }

  /** When every worker is reaped or failed to start and the channels are idle and drained, nothing is left over. */
  lemma NoLeak(mvs: seq<Move>)
    requires var s := Run(Init(), mvs);
             (forall w :: 0 <= w < |s.ws| ==> Over(s.ws[w])) && (forall c :: 0 <= c < |s.chans| ==> Quiet(s.chans[c]))
    ensures var s := Run(Init(), mvs); s.out == 0 && s.spawns == s.reaps && s.reg == [] && s.open == {}
  {
    hide Run;
    var s := Run(Init(), mvs);
    Reached(mvs);
    TransfersAccounted(mvs);
    NothingHeld(s.ws);
    NothingQueued(s.chans);
    HeadIn(s.reg);
    forall fd ensures fd !in s.open { NoHolder(s.ws, fd); }
  }

  lemma NoHolder(ws: seq<Worker>, fd: int)
    requires forall w :: 0 <= w < |ws| ==> WorkerOk(ws[w]) && Over(ws[w])
    ensures !Holder(ws, fd)
  {
  }

  /** A start call that gets no descriptor fails, and its buffer is freed. */
  lemma NoDescriptor(s: System, w: nat)
    requires !s.broken && w < |s.ws| && s.ws[w].start.Flattened?
    ensures var s' := Step(s, EventFdFails(w)); s'.ws[w].start.Failed? && s'.ws[w].capture.None? && s'.out == s.out - 1 && s'.open == s.open
  {
  }

  /** A start call that gets no thread fails, leaves the registry, frees its buffer and closes its descriptor. */
  lemma NoThread(s: System, w: nat)
    requires Inv(s) && !s.broken && w < |s.ws| && s.ws[w].start.Registered? && s.ws[w].join.NotTaken?
    ensures var s' := Step(s, CreateFails(w));
            && s'.ws[w].start.Failed? && s'.ws[w].capture.None? && s'.out == s.out - 1 && s'.open == s.open - {s.ws[w].fd}
            && w !in s'.reg && s'.spawns == s.spawns - 1
  {
    RemovedIs(s.ws, s.reg, s.open, w);
    hide Inv, Removed, InRegistry;
  }
}
