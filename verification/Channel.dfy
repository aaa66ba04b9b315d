/**
 The cross-thread channel: a single-producer single-consumer ring of message buffers
 with two eventfd counters for waking the other side, and a closer.

 Each thread's code is cut at its shared-memory accesses: loads and stores of the
 cursors, the flag and the ring slots, and eventfd reads and writes. A state holds
 the three program counters; a run is an arbitrary interleaving of their steps.
 */
module Channel {
  import opened Util

  type Msg = int

  datatype Policy = Block | Drop | Error

  /** Where the producer is inside a send; `h` is the head value it last loaded. */
  datatype Prod =
    | PIdle
    | PCheckClosed(m: Msg)
    | PFlatten(m: Msg)
    | PLoadHead(m: Msg)
    | PLoadTail(m: Msg, h: nat)
    | PStoreSlot(m: Msg, t: nat)
    | PStoreTail(m: Msg, t: nat)
    | PWake
    | PFull(m: Msg, h: nat)
    | PPark(m: Msg, h: nat)

  /** Where the consumer is inside a receive, with the cursor values it has loaded. */
  datatype Cons =
    | CIdle
    | CLoadHead
    | CLoadTail(h: nat)
    | CTake(h: nat)
    | CStoreHead(h: nat, m: Msg)
    | CWake(m: Msg)
    | CRebuild(m: Msg)
    | CFree(m: Msg)
    | CLoadClosed(t: nat)
    | CPark(t: nat)

  datatype Closer = XIdle | XStore | XWake

  /** What a send tells its caller: done, given up on a full ring, or an error raised. */
  datatype Reply = Sent | Dropped | Overflow | WasClosed | Refused

  /**
   Histories: values passed to send and not refused, enqueued, and dequeued, and what the calls
   returned; `out` counts live buffers.
   */
  datatype State = State(cap: nat, policy: Policy, closed: bool, ring: seq<Msg>, head: nat, tail: nat,
                         dataReady: nat, spaceReady: nat, prod: Prod, cons: Cons, closer: Closer,
                         offered: seq<Msg>, sent: seq<Msg>, got: seq<Msg>,
                         replies: seq<Reply>, answers: seq<Option<Msg>>, out: int)

  datatype Move = StartSend(m: Msg) | StartReceive | StartClose | MoveProd | MoveCons | MoveCloser | RefuseValue

  /** A channel of the requested capacity, at least one slot. */
  function Init(capacity: int, policy: Policy): State {
    var cap := if capacity > 0 then capacity else 1;
    State(cap, policy, false, seq(cap, _ => 0), 0, 0, 0, 0, PIdle, CIdle, XIdle, [], [], [], [], [], 0)
  }

  predicate Enabled(s: State, mv: Move) {
    match mv
    case StartSend(_) => s.prod.PIdle?
    case StartReceive => s.cons.CIdle?
    case StartClose => s.closer.XIdle?
    case MoveProd => !s.prod.PIdle? && (s.prod.PPark? ==> s.spaceReady > 0)
    case MoveCons => !s.cons.CIdle? && (s.cons.CPark? ==> s.dataReady > 0)
    case MoveCloser => !s.closer.XIdle?
    case RefuseValue => s.prod.PFlatten?
  }

  function ProdStep(s: State): State
    requires s.cap > 0 && |s.ring| == s.cap
  {
    match s.prod
    case PIdle => s
    case PCheckClosed(m) =>
      if s.closed then s.(prod := PIdle, replies := s.replies + [WasClosed]) else s.(prod := PFlatten(m))
    case PFlatten(m) => s.(prod := PLoadHead(m), out := s.out + 1)
    case PLoadHead(m) => s.(prod := PLoadTail(m, s.head))
    case PLoadTail(m, h) =>
      if s.tail - h < s.cap then s.(prod := PStoreSlot(m, s.tail)) else s.(prod := PFull(m, h))
    case PStoreSlot(m, t) => s.(ring := s.ring[t % s.cap := m], prod := PStoreTail(m, t))
    case PStoreTail(m, t) => s.(tail := t + 1, sent := s.sent + [m], prod := PWake)
    case PWake => s.(dataReady := s.dataReady + 1, prod := PIdle, replies := s.replies + [Sent])
    case PFull(m, h) =>
      if s.policy.Block? then s.(prod := PPark(m, h))
      else s.(prod := PIdle, out := s.out - 1, replies := s.replies + [if s.policy.Drop? then Dropped else Overflow])
    case PPark(m, _) => s.(spaceReady := 0, prod := PLoadHead(m))
  }

  /** The value a send was given cannot cross threads: the call fails without a buffer. */
  function RefuseStep(s: State): State {
    s.(prod := PIdle, offered := if s.offered == [] then [] else s.offered[..|s.offered| - 1], replies := s.replies + [Refused])
  }

  function ConsStep(s: State): State
    requires s.cap > 0 && |s.ring| == s.cap
  {
    match s.cons
    case CIdle => s
    case CLoadHead => s.(cons := CLoadTail(s.head))
    case CLoadTail(h) =>
      if h < s.tail then s.(cons := CTake(h)) else s.(cons := CLoadClosed(s.tail))
    case CTake(h) => s.(cons := CStoreHead(h, s.ring[h % s.cap]))
    case CStoreHead(h, m) => s.(head := h + 1, got := s.got + [m], cons := CWake(m))
    case CWake(m) => s.(spaceReady := s.spaceReady + 1, cons := CRebuild(m))
    case CRebuild(m) => s.(cons := CFree(m))
    case CFree(m) => s.(out := s.out - 1, cons := CIdle, answers := s.answers + [Some(m)])
    case CLoadClosed(t) => if s.closed then s.(cons := CIdle, answers := s.answers + [None]) else s.(cons := CPark(t))
    case CPark(_) => s.(dataReady := 0, cons := CLoadHead)
  }

  function CloserStep(s: State): State {
    match s.closer
    case XIdle => s
    case XStore => s.(closed := true, closer := XWake)
    case XWake => s.(dataReady := s.dataReady + 1, closer := XIdle)
  }

  /** One step of the interleaving; a step that cannot be taken leaves the state alone. */
  function Step(s: State, mv: Move): (r: State)
    requires s.cap > 0 && |s.ring| == s.cap
    ensures r.cap > 0 && |r.ring| == r.cap
  {
    if !Enabled(s, mv) then s else
    match mv
    case StartSend(m) => s.(prod := PCheckClosed(m), offered := s.offered + [m])
    case StartReceive => s.(cons := CLoadHead)
    case StartClose => s.(closer := XStore)
    case MoveProd => ProdStep(s)
    case MoveCons => ConsStep(s)
    case MoveCloser => CloserStep(s)
    case RefuseValue => RefuseStep(s)
  }

  // ---------------------------------------------------------------- invariant

  /** The ring holds the messages between the cursors. */
  ghost predicate RingHolds(s: State) {
    && s.cap > 0 && |s.ring| == s.cap
    && |s.sent| == s.tail && |s.got| == s.head && s.head <= s.tail <= s.head + s.cap
    && s.got == s.sent[..s.head]
    && forall i :: s.head <= i < s.tail ==> s.ring[Slot(i, s.cap)] == s.sent[i]
  }

  function Slot(i: nat, cap: nat): (k: nat)
    requires cap > 0
    ensures k < cap
  {
    i % cap
  }

  /** A write that will wake the consumer, after a send or a close, or the producer is on its way. */
  predicate DataComing(s: State) {
    s.dataReady > 0 || s.prod.PWake?
  }

  predicate CloseComing(s: State) {
    s.dataReady > 0 || s.closer.XWake?
  }

  predicate SpaceComing(s: State) {
    s.spaceReady > 0 || s.cons.CWake?
  }

  predicate ProdHas(s: State) {
    !s.prod.PIdle? && !s.prod.PCheckClosed? && !s.prod.PFlatten? && !s.prod.PWake?
  }

  predicate ConsHas(s: State) {
    s.cons.CWake? || s.cons.CRebuild? || s.cons.CFree?
  }

  /** The message a send has accepted but not yet made visible. */
  function Carried(p: Prod): seq<Msg> {
    if p.PIdle? || p.PWake? then [] else [p.m]
  }

  ghost predicate ProdInv(s: State) {
    match s.prod
    case PIdle => true
    case PCheckClosed(_) => true
    case PFlatten(_) => true
    case PLoadHead(_) => true
    case PLoadTail(_, h) => h <= s.head && s.tail <= h + s.cap && (h < s.head ==> SpaceComing(s))
    case PStoreSlot(_, t) => t == s.tail && s.tail - s.head < s.cap
    case PStoreTail(m, t) => t == s.tail && s.tail - s.head < s.cap && |s.ring| == s.cap && s.cap > 0 && s.ring[Slot(t, s.cap)] == m
    case PWake => true
    case PFull(_, h) => h <= s.head && s.tail == h + s.cap && (h < s.head ==> SpaceComing(s))
    case PPark(_, h) => h <= s.head && s.tail == h + s.cap && (h < s.head ==> SpaceComing(s)) && s.policy.Block?
  }

  ghost predicate ConsInv(s: State) {
    match s.cons
    case CIdle => true
    case CLoadHead => true
    case CLoadTail(h) => h == s.head
    case CTake(h) => h == s.head < s.tail
    case CStoreHead(h, m) => h == s.head < s.tail && h < |s.sent| && m == s.sent[h]
    case CWake(_) => true
    case CRebuild(_) => true
    case CFree(_) => true
    case CLoadClosed(t) => t == s.head && (t < s.tail ==> DataComing(s))
    case CPark(t) => t == s.head && (t < s.tail ==> DataComing(s)) && (s.closed ==> CloseComing(s))
  }

  ghost predicate Inv(s: State) {
    RingHolds(s) && ProdInv(s) && ConsInv(s) && Counted(s) && Accepted(s) && (s.closer.XWake? ==> s.closed)
  }

  predicate Counted(s: State) {
    s.out == s.tail - s.head + (if ProdHas(s) then 1 else 0) + (if ConsHas(s) then 1 else 0)
  }

  predicate Accepted(s: State) {
    s.policy.Block? && !s.closed ==> s.offered == s.sent + Carried(s.prod)
  }

  lemma Multiple(cap: nat, q: int)
    ensures q >= 1 ==> cap * q >= cap
    ensures q <= 0 ==> cap * q <= 0
  {
    if q >= 1 { assert cap * (q - 1) >= 0; }
  }

  lemma ModWindow(i: nat, j: nat, cap: nat)
    requires cap > 0 && i < j < i + cap
    ensures Slot(i, cap) != Slot(j, cap)
  {
    var q := j / cap - i / cap;
    assert j - i == cap * q + (j % cap - i % cap);
    Multiple(cap, q);
  }

  lemma InitInv(capacity: int, policy: Policy)
    ensures Inv(Init(capacity, policy))
  {}

  /** The slot a send is about to fill holds no unread message. */
  lemma NeverOverwrites(s: State, i: nat)
    requires Inv(s) && s.prod.PStoreSlot? && s.head <= i < s.tail
    ensures Slot(s.prod.t, s.cap) != Slot(i, s.cap)
  {
    ModWindow(i, s.prod.t, s.cap);
  }

  predicate SameRing(s: State, s': State) {
    && s'.cap == s.cap && s'.ring == s.ring && s'.head == s.head && s'.tail == s.tail
    && s'.sent == s.sent && s'.got == s.got
  }

  lemma RingKept(s: State, s': State)
    requires RingHolds(s) && SameRing(s, s')
    ensures RingHolds(s')
  {}

  lemma Cursors(s: State)
    requires RingHolds(s)
    ensures s.cap > 0 && |s.ring| == s.cap && |s.sent| == s.tail && s.head <= s.tail <= s.head + s.cap
  {}

  lemma SlotStored(s: State)
    requires Inv(s) && s.prod.PStoreSlot?
    ensures RingHolds(ProdStep(s))
  {
    var s' := ProdStep(s);
    forall i | s'.head <= i < s'.tail ensures s'.ring[Slot(i, s.cap)] == s'.sent[i] {
      NeverOverwrites(s, i);
    }
  }

  lemma TailStored(s: State)
    requires RingHolds(s) && ProdInv(s) && s.prod.PStoreTail?
    ensures RingHolds(ProdStep(s))
  {
    var s' := ProdStep(s);
    forall i | s'.head <= i < s'.tail ensures s'.ring[Slot(i, s.cap)] == s'.sent[i] {
      if i < s.tail { assert s.ring[Slot(i, s.cap)] == s.sent[i]; }
    }
  }

  lemma ProdKeeps(s: State)
    requires Inv(s) && Enabled(s, MoveProd)
    ensures Inv(ProdStep(s))
  {
    hide RingHolds, ProdInv, ConsInv, Counted, Accepted;
    Cursors(s);
    ProdRing(s);
    ProdOwn(s);
    ProdOther(s);
    ProdCounts(s);
  }

  /** A producer step keeps what it knows about itself. */
  lemma ProdOwn(s: State)
    requires RingHolds(s) && ProdInv(s)
    ensures s.cap > 0 && |s.ring| == s.cap && ProdInv(ProdStep(s))
  {
    Cursors(s);
    hide RingHolds;
  }

  /** It keeps what the consumer knows. */
  lemma ProdOther(s: State)
    requires RingHolds(s) && ProdInv(s) && ConsInv(s) && Enabled(s, MoveProd)
    ensures s.cap > 0 && |s.ring| == s.cap && ConsInv(ProdStep(s))
  {
    Cursors(s);
    hide RingHolds;
  }

  lemma ProdCounts(s: State)
    requires RingHolds(s) && ProdInv(s) && Counted(s) && Accepted(s)
    ensures s.cap > 0 && |s.ring| == s.cap && Counted(ProdStep(s)) && Accepted(ProdStep(s))
  {
    Cursors(s);
    hide RingHolds;
  }

  lemma ProdRing(s: State)
    requires Inv(s)
    ensures s.cap > 0 && |s.ring| == s.cap && RingHolds(ProdStep(s))
  {
    Cursors(s);
    match s.prod
    case PStoreSlot(_, _) =>
      SlotStored(s);
    case PStoreTail(_, _) =>
      TailStored(s);
    case _ => RingKept(s, ProdStep(s));
  }

  lemma HeadStored(s: State)
    requires RingHolds(s) && ConsInv(s) && s.cons.CStoreHead?
    ensures RingHolds(ConsStep(s))
  {
    assert s.sent[..s.head + 1] == s.sent[..s.head] + [s.cons.m];
  }

  lemma ReadsItsMessage(s: State)
    requires RingHolds(s) && ConsInv(s) && s.cons.CTake?
    ensures s.ring[Slot(s.cons.h, s.cap)] == s.sent[s.cons.h]
  {}

  lemma ConsKeeps(s: State)
    requires Inv(s) && Enabled(s, MoveCons)
    ensures Inv(ConsStep(s))
  {
    hide RingHolds, ProdInv, ConsInv, Counted, Accepted;
    Cursors(s);
    ConsRing(s);
    ConsOwn(s);
    ConsOther(s);
    ConsCounts(s);
  }

  /** A consumer step keeps what it knows about itself. */
  lemma ConsOwn(s: State)
    requires RingHolds(s) && ConsInv(s)
    ensures s.cap > 0 && |s.ring| == s.cap && ConsInv(ConsStep(s))
  {
    Cursors(s);
    if s.cons.CTake? { ReadsItsMessage(s); }
    hide RingHolds;
  }

  /** It keeps what the producer knows. */
  lemma ConsOther(s: State)
    requires RingHolds(s) && ConsInv(s) && ProdInv(s) && Enabled(s, MoveCons)
    ensures s.cap > 0 && |s.ring| == s.cap && ProdInv(ConsStep(s))
  {
    Cursors(s);
    hide RingHolds;
  }

  lemma ConsCounts(s: State)
    requires RingHolds(s) && ConsInv(s) && Counted(s) && Accepted(s)
    ensures s.cap > 0 && |s.ring| == s.cap && Counted(ConsStep(s)) && Accepted(ConsStep(s))
  {
    Cursors(s);
    hide RingHolds;
  }

  lemma ConsRing(s: State)
    requires Inv(s)
    ensures s.cap > 0 && |s.ring| == s.cap && RingHolds(ConsStep(s))
  {
    Cursors(s);
    match s.cons
    case CStoreHead(_, _) => HeadStored(s);
    case _ => RingKept(s, ConsStep(s));
  }

  lemma CloserKeeps(s: State)
    requires Inv(s) && Enabled(s, MoveCloser)
    ensures Inv(CloserStep(s))
  {
    hide RingHolds;
    Cursors(s);
    RingKept(s, CloserStep(s));
  }

  lemma StartKeeps(s: State, mv: Move)
    requires Inv(s) && (mv.StartSend? || mv.StartReceive? || mv.StartClose? || mv.RefuseValue?)
    ensures Inv(Step(s, mv))
  {
    Cursors(s);
    hide RingHolds, ProdStep, ConsStep, CloserStep;
    RingKept(s, Step(s, mv));
  }

  lemma StepKeeps(s: State, mv: Move)
    requires Inv(s)
    ensures Inv(Step(s, mv))
  {
    hide RingHolds, ProdInv, ConsInv, ProdStep, ConsStep, CloserStep;
    Cursors(s);
    if Enabled(s, mv) {
      match mv
      case MoveProd => ProdKeeps(s);
      case MoveCons => ConsKeeps(s);
      case MoveCloser => CloserKeeps(s);
      case _ => StartKeeps(s, mv);
    }
  }

  // --------------------------------------------------------------------- runs

  /** The state after the steps of a run. */
  function Run(s: State, mvs: seq<Move>): State
    requires s.cap > 0 && |s.ring| == s.cap
    decreases |mvs|
  {
    if mvs == [] then s else Run(Step(s, mvs[0]), mvs[1..])
  }

  /** The state after a run of a fresh channel. */
  function After(capacity: int, policy: Policy, mvs: seq<Move>): State {
    Run(Init(capacity, policy), mvs)
  }

  lemma {:induction false} RunKeeps(s: State, mvs: seq<Move>)
    requires Inv(s)
    ensures s.cap > 0 && |s.ring| == s.cap && Inv(Run(s, mvs))
    decreases |mvs|
  {
    hide Inv, Step;
    InvCursors(s);
    if mvs != [] {
      StepKeeps(s, mvs[0]);
      RunKeeps(Step(s, mvs[0]), mvs[1..]);
    }
  }

  lemma InvCursors(s: State)
    requires Inv(s)
    ensures s.cap > 0 && |s.ring| == s.cap && |s.sent| == s.tail
  {
  }

  /** The invariant holds in every state of every interleaving. */
  lemma AfterInv(capacity: int, policy: Policy, mvs: seq<Move>)
    ensures Inv(After(capacity, policy, mvs))
  {
    hide Inv, Run;
    InitInv(capacity, policy);
    RunKeeps(Init(capacity, policy), mvs);
  }

  /** Messages come out in the order they went in, each at most once, and the ring never overflows. */
  lemma DeliversInOrder(capacity: int, policy: Policy, mvs: seq<Move>)
    ensures var s := After(capacity, policy, mvs);
            s.got <= s.sent && s.head == |s.got| && s.tail == |s.sent| && 0 <= s.tail - s.head <= s.cap
    ensures After(capacity, policy, mvs).cap == if capacity >= 1 then capacity else 1
  {
    InitInv(capacity, policy);
    hide Run, Inv;
    PolicyFixed(Init(capacity, policy), mvs);
    AfterMeans(capacity, policy, mvs);
  }

  lemma AfterMeans(capacity: int, policy: Policy, mvs: seq<Move>)
    ensures var s := After(capacity, policy, mvs);
            s.got <= s.sent && s.head == |s.got| && s.tail == |s.sent| && 0 <= s.tail - s.head <= s.cap
  {
    hide After;
    AfterInv(capacity, policy, mvs);
  }

  /** With back-pressure and an open channel every message offered is enqueued, in order. */
  lemma NothingDropped(capacity: int, mvs: seq<Move>)
    ensures var s := After(capacity, Block, mvs); s.policy.Block? && (!s.closed ==> s.offered == s.sent + Carried(s.prod))
  {
    hide Run;
    AfterInv(capacity, Block, mvs);
    InitInv(capacity, Block);
    PolicyFixed(Init(capacity, Block), mvs);
  }

  lemma {:induction false} PolicyFixed(s: State, mvs: seq<Move>)
    requires Inv(s)
    ensures s.cap > 0 && |s.ring| == s.cap && Run(s, mvs).policy == s.policy && Run(s, mvs).cap == s.cap
    ensures s.sent <= Run(s, mvs).sent && s.got <= Run(s, mvs).got && (s.closed ==> Run(s, mvs).closed)
    decreases |mvs|
  {
    hide RingHolds, ProdInv, ConsInv, Step;
    Cursors(s);
    if mvs != [] {
      StepKeeps(s, mvs[0]);
      StepGrows(s, mvs[0]);
      PolicyFixed(Step(s, mvs[0]), mvs[1..]);
    }
  }

  lemma StepGrows(s: State, mv: Move)
    requires Inv(s)
    ensures var s' := Step(s, mv);
            s'.policy == s.policy && s'.cap == s.cap && s.sent <= s'.sent && s.got <= s'.got && (s.closed ==> s'.closed)
  {
    InvCursors(s);
    hide RingHolds, ProdInv, ConsInv, Counted, Accepted;
  }

  predicate ConsBlocked(s: State) {
    s.cons.CPark? && s.dataReady == 0
  }

  predicate ProdBlocked(s: State) {
    s.prod.PPark? && s.spaceReady == 0
  }

  /** A blocked side that could go on always has a wake-up on its way. */
  lemma NoLostWakeup(capacity: int, policy: Policy, mvs: seq<Move>)
    ensures var s := After(capacity, policy, mvs);
            && (ConsBlocked(s) && s.head < s.tail ==> s.prod.PWake?)
            && (ConsBlocked(s) && s.closed ==> s.closer.XWake?)
            && (ProdBlocked(s) && s.tail - s.head < s.cap ==> s.cons.CWake?)
  {
    hide After;
    AfterInv(capacity, policy, mvs);
  }

  /** Producer and consumer are never stuck at the same time. */
  lemma NeverBothBlocked(capacity: int, policy: Policy, mvs: seq<Move>)
    ensures var s := After(capacity, policy, mvs); !(ConsBlocked(s) && ProdBlocked(s))
  {
    hide After;
    AfterInv(capacity, policy, mvs);
    Cursors(After(capacity, policy, mvs));
  }

  /** Live buffers are exactly those in the ring and in the two endpoints' hands. */
  lemma BuffersAccounted(capacity: int, policy: Policy, mvs: seq<Move>)
    ensures var s := After(capacity, policy, mvs);
            && s.out == s.tail - s.head + (if ProdHas(s) then 1 else 0) + (if ConsHas(s) then 1 else 0)
            && (s.prod.PIdle? && s.cons.CIdle? && s.head == s.tail ==> s.out == 0)
  {
    hide After;
    AfterInv(capacity, policy, mvs);
  }

  // -------------------------------------------------- what None means to a receiver

  /** The step in which a receive decides to return None. */
  predicate ReturnsNone(s: State) {
    s.cons.CLoadClosed? && s.closed
  }

  /** A send under way that can still enqueue its message, given that the ring is empty. */
  predicate CanLand(s: State) {
    match s.prod
    case PIdle => false
    case PCheckClosed(_) => !s.closed
    case PWake => false
    case PLoadTail(_, h) => s.policy.Block? || s.tail - h < s.cap
    case PFull(_, _) => s.policy.Block?
    case _ => true
  }

  predicate SameReceive(mvs: seq<Move>) {
    forall i :: 0 <= i < |mvs| ==> !mvs[i].StartReceive?
  }

  /** Some continuation in which this receive returns None over a queued message. */
  ghost predicate CanLoseRace(s: State)
    requires s.cap > 0 && |s.ring| == s.cap
  {
    exists mvs :: SameReceive(mvs) && ReturnsNone(Run(s, mvs)) && Run(s, mvs).head < Run(s, mvs).tail
  }

  lemma {:induction false} RunConcat(s: State, a: seq<Move>, b: seq<Move>)
    requires s.cap > 0 && |s.ring| == s.cap
    ensures var m := Run(s, a); m.cap > 0 && |m.ring| == m.cap && Run(s, a + b) == Run(m, b)
    decreases |a|
  {
    hide Step;
    if a == [] {
      assert a + b == b;
    } else {
      assert (a + b)[0] == a[0] && (a + b)[1..] == a[1..] + b;
      RunConcat(Step(s, a[0]), a[1..], b);
    }
  }

  lemma RunSingle(s: State, mv: Move)
    requires s.cap > 0 && |s.ring| == s.cap
    ensures Run(s, [mv]) == Step(s, mv)
  {
    assert [mv][1..] == [];
  }

  /** How far a producer is from enqueuing, when the ring is empty. */
  function Distance(s: State): nat {
    match s.prod
    case PStoreTail(_, _) => 1
    case PStoreSlot(_, _) => 2
    case PLoadTail(_, h) => if s.tail - h < s.cap then 3 else if s.policy.Block? then 7 else 9
    case PLoadHead(_) => 4
    case PFlatten(_) => 5
    case PPark(_, _) => 5
    case PCheckClosed(_) => 6
    case PFull(_, _) => if s.policy.Block? then 6 else 8
    case PIdle => 7
    case PWake => 8
  }

  /** A receive that has loaded an empty ring's cursors, before it loads the flag. */
  ghost predicate Waiting(s: State) {
    Inv(s) && s.cons.CLoadClosed? && s.head == s.tail && (s.closed ==> CanLand(s))
  }

  /** The producer's next step on its way to enqueuing. */
  function Push(s: State): Move {
    if s.prod.PIdle? then StartSend(0) else MoveProd
  }

  lemma PushStep(s: State)
    requires Waiting(s)
    ensures s.cap > 0 && |s.ring| == s.cap
    ensures var s' := Step(s, Push(s));
            && Inv(s') && s'.cons == s.cons && s'.closed == s.closed && s'.closer == s.closer
            && s'.head == s.head && (s'.tail > s'.head || (Waiting(s') && Distance(s') < Distance(s)))
  {
    hide RingHolds;
    Cursors(s);
    StepKeeps(s, Push(s));
  }

  /** Producer steps alone enqueue a message behind the receive's back. */
  lemma {:induction false} Land(s: State) returns (mvs: seq<Move>)
    requires Waiting(s)
    ensures s.cap > 0 && |s.ring| == s.cap && SameReceive(mvs)
    ensures var s' := Run(s, mvs);
            Inv(s') && s'.cons == s.cons && s'.closed == s.closed && s'.closer == s.closer && s'.head < s'.tail
    decreases Distance(s)
  {
    hide Inv, Step, CanLand, Distance;
    PushStep(s);
    var s1 := Step(s, Push(s));
    RunSingle(s, Push(s));
    mvs := [Push(s)];
    if s1.tail == s1.head {
      var more := Land(s1);
      RunConcat(s, mvs, more);
      mvs := mvs + more;
    }
  }

  /** The closer can close at any time. */
  lemma CloseNow(s: State) returns (mvs: seq<Move>)
    requires Inv(s)
    ensures s.cap > 0 && |s.ring| == s.cap && SameReceive(mvs)
    ensures var s' := Run(s, mvs); s'.closed && s'.cons == s.cons && s'.head == s.head && s'.tail == s.tail
  {
    InvCursors(s);
    hide RingHolds, ProdInv, ConsInv, Counted, Accepted;
    if s.closed {
      mvs := [];
    } else if s.closer.XStore? {
      mvs := [MoveCloser];
      RunSingle(s, MoveCloser);
    } else {
      mvs := [StartClose] + [MoveCloser];
      RunSingle(s, StartClose);
      RunSingle(Step(s, StartClose), MoveCloser);
      RunConcat(s, [StartClose], [MoveCloser]);
    }
  }

  /** An open channel, or a send that can land, lets the race happen. */
  lemma RacePossible(s: State)
    requires Inv(s) && s.cons.CLoadTail? && s.head == s.tail && (!s.closed || CanLand(s))
    ensures s.cap > 0 && |s.ring| == s.cap && CanLoseRace(s)
  {
    InvCursors(s);
    StepKeeps(s, MoveCons);
    var s1 := Step(s, MoveCons);
    assert s1 == s.(cons := CLoadClosed(s.tail));
    RunSingle(s, MoveCons);
    assert Waiting(s1);
    hide Inv, Step, Run;
    var a := Land(s1);
    RunConcat(s, [MoveCons], a);
    var b := CloseNow(Run(s1, a));
    RunConcat(s, [MoveCons] + a, b);
    var mvs := [MoveCons] + a + b;
    assert SameReceive(mvs);
  }

  /** Closed, empty, and no send can land any more. */
  ghost predicate Finished(s: State) {
    && Inv(s) && s.closed && s.head == s.tail && !CanLand(s)
    && (s.cons.CLoadTail? || s.cons.CLoadClosed? || s.cons.CIdle?)
  }

  lemma FinishedStays(s: State, mv: Move)
    requires Finished(s) && !mv.StartReceive?
    ensures s.cap > 0 && |s.ring| == s.cap && Finished(Step(s, mv))
  {
    InvCursors(s);
    StepKeeps(s, mv);
    hide RingHolds, Counted, Accepted;
  }

  lemma {:induction false} FinishedRun(s: State, mvs: seq<Move>)
    requires Finished(s) && SameReceive(mvs)
    ensures s.cap > 0 && |s.ring| == s.cap && Finished(Run(s, mvs))
    decreases |mvs|
  {
    hide Inv, Step, CanLand;
    InvCursors(s);
    if mvs != [] {
      FinishedStays(s, mvs[0]);
      FinishedRun(Step(s, mvs[0]), mvs[1..]);
    }
  }

  /**
   A receive about to load `tail` on an empty ring can end up returning None over a queued
   message if and only if the channel is still open, or a send is under way that can land.
   */
  lemma RaceIff(s: State)
    requires Inv(s) && s.cons.CLoadTail? && s.head == s.tail
    ensures s.cap > 0 && |s.ring| == s.cap && (CanLoseRace(s) <==> !s.closed || CanLand(s))
  {
    InvCursors(s);
    if !s.closed || CanLand(s) {
      RacePossible(s);
    } else {
      forall mvs | SameReceive(mvs) ensures !(ReturnsNone(Run(s, mvs)) && Run(s, mvs).head < Run(s, mvs).tail) {
        FinishedRun(s, mvs);
      }
    }
  }

  // -------------------------------------------------------------- calls complete

  /** The receive has its message, or there is one, or the channel is closed. */
  predicate ReceiveReady(s: State) {
    ConsHas(s) || s.head < s.tail || s.closed
  }

  /** Steps a receive is away from its return. */
  function ReceiveDistance(s: State): nat {
    match s.cons
    case CIdle => 0
    case CFree(_) => 1
    case CLoadClosed(_) => if s.closed then 1 else 10
    case CRebuild(_) => 2
    case CWake(_) => 3
    case CStoreHead(_, _) => 4
    case CTake(_) => 5
    case CLoadTail(_) => 6
    case CLoadHead => 7
    case CPark(_) => if s.dataReady > 0 then 8 else 9
  }

  /** The consumer's own step, or the write that is on its way to wake it. */
  function ReceiveMove(s: State): Move {
    if ConsBlocked(s) then (if s.prod.PWake? then MoveProd else MoveCloser) else MoveCons
  }

  /** What the receive under way is going to return, if no other thread does more than wake it. */
  function Answer(s: State): Option<Msg>
    requires |s.sent| == s.tail
  {
    if ConsHas(s) then Some(s.cons.m)
    else if s.head < s.tail && !(s.cons.CLoadClosed? && s.closed) then Some(s.sent[s.head])
    else None
  }

  /** What it dequeues before it returns. */
  function Dequeues(s: State): seq<Msg>
    requires |s.sent| == s.tail
  {
    if ConsHas(s) || Answer(s).None? then [] else [s.sent[s.head]]
  }

  /** Each of its steps keeps that promise, and the last one fulfils it. */
  lemma ReceiveTells(s: State)
    requires Inv(s) && !s.cons.CIdle? && ReceiveReady(s)
    ensures s.cap > 0 && |s.ring| == s.cap && |s.sent| == s.tail
    ensures var s' := Step(s, ReceiveMove(s));
            && |s'.sent| == s'.tail
            && (s'.cons.CIdle? ==> s'.answers == s.answers + [Answer(s)] && s'.got == s.got + Dequeues(s))
            && (!s'.cons.CIdle? ==> s'.answers == s.answers && Answer(s') == Answer(s) && s'.got + Dequeues(s') == s.got + Dequeues(s))
  {
    hide RingHolds, Counted, Accepted, ProdInv;
    Cursors(s);
  }

  lemma ReceiveStep(s: State)
    requires Inv(s) && !s.cons.CIdle? && ReceiveReady(s)
    ensures s.cap > 0 && |s.ring| == s.cap
    ensures var s' := Step(s, ReceiveMove(s));
            Inv(s') && ReceiveDistance(s') < ReceiveDistance(s) && (s'.cons.CIdle? || ReceiveReady(s'))
    ensures ReceiveMove(s).MoveProd? ==> s.prod.PWake?
    ensures ReceiveMove(s).MoveCloser? ==> s.closer.XWake?
    ensures !ReceiveMove(s).MoveCons? ==> ReceiveDistance(s) == 9
  {
    ReceiveNearer(s);
    hide RingHolds, ProdInv, ConsInv, Counted, Accepted, ReceiveDistance, ReceiveReady, Step;
    Cursors(s);
    StepKeeps(s, ReceiveMove(s));
  }

  lemma ReceiveNearer(s: State)
    requires Inv(s) && !s.cons.CIdle? && ReceiveReady(s)
    ensures s.cap > 0 && |s.ring| == s.cap
    ensures var s' := Step(s, ReceiveMove(s)); ReceiveDistance(s') < ReceiveDistance(s) && (s'.cons.CIdle? || ReceiveReady(s'))
    ensures ReceiveMove(s).MoveProd? ==> s.prod.PWake?
    ensures ReceiveMove(s).MoveCloser? ==> s.closer.XWake?
    ensures !ReceiveMove(s).MoveCons? ==> ReceiveDistance(s) == 9
  {
    hide RingHolds, Counted, Accepted, ProdInv;
    Cursors(s);
  }

  /**
   A receive never waits for more than one write that is already on its way: with a message
   queued or the channel closed, the consumer's own steps and at most one pending wake-up write
   of another thread complete it. It returns the message it has taken, else the next one queued,
   unless it has seen the ring empty and is about to see the channel closed.
   */
  lemma {:induction false} ReceiveCompletes(s: State) returns (mvs: seq<Move>)
    requires Inv(s) && (s.cons.CIdle? || ReceiveReady(s))
    ensures s.cap > 0 && |s.ring| == s.cap && |s.sent| == s.tail && Run(s, mvs).cons.CIdle? && |mvs| <= ReceiveDistance(s)
    ensures !s.cons.CIdle? ==> Run(s, mvs).answers == s.answers + [Answer(s)] && Run(s, mvs).got == s.got + Dequeues(s)
    ensures OnlyWakes(s, mvs, true) && Foreign(mvs, true) <= if ReceiveDistance(s) >= 9 then 1 else 0
    decreases ReceiveDistance(s)
  {
    InvCursors(s);
    hide Inv, Step, ReceiveDistance, ReceiveReady, ReceiveMove, Answer, Dequeues;
    mvs := [];
    if !s.cons.CIdle? {
      ReceiveStep(s);
      ReceiveTells(s);
      var more := ReceiveCompletes(Step(s, ReceiveMove(s)));
      ReceiveMoveIs(s);
      mvs := [ReceiveMove(s)] + more;
      assert mvs[1..] == more;
    }
  }

  lemma ReceiveMoveIs(s: State)
    ensures ReceiveMove(s).MoveCons? || ReceiveMove(s).MoveProd? || ReceiveMove(s).MoveCloser?
  {
  }

  /** How many steps are not the caller's own. */
  function Foreign(mvs: seq<Move>, receiver: bool): nat {
    if mvs == [] then 0
    else (if mvs[0] == (if receiver then MoveCons else MoveProd) then 0 else 1) + Foreign(mvs[1..], receiver)
  }

  /** Every step is the caller's own or a wake-up write of another thread. */
  ghost predicate OnlyWakes(s: State, mvs: seq<Move>, receiver: bool)
    requires s.cap > 0 && |s.ring| == s.cap
    decreases |mvs|
  {
    mvs == [] ||
    ((match mvs[0]
      case MoveCons => receiver || s.cons.CWake?
      case MoveProd => !receiver || s.prod.PWake?
      case MoveCloser => s.closer.XWake?
      case _ => false)
     && OnlyWakes(Step(s, mvs[0]), mvs[1..], receiver))
  }

  /** The send is done but for its wake-up, or need not wait, or there is room. */
  predicate SendReady(s: State) {
    s.prod.PWake? || !s.policy.Block? || s.tail - s.head < s.cap
  }

  function SendDistance(s: State): nat {
    match s.prod
    case PIdle => 0
    case PWake => 1
    case PStoreTail(_, _) => 2
    case PStoreSlot(_, _) => 3
    case PLoadTail(_, h) => if s.tail - h < s.cap then 4 else if s.policy.Block? then 9 else 2
    case PLoadHead(_) => 5
    case PFlatten(_) => 6
    case PCheckClosed(_) => 7
    case PPark(_, _) => if s.spaceReady > 0 then 6 else 7
    case PFull(_, _) => if s.policy.Block? then 8 else 1
  }

  function SendMove(s: State): Move {
    if ProdBlocked(s) then MoveCons else MoveProd
  }

  /** What the send under way is going to report, if no other thread does more than wake it. */
  function Result(s: State): Reply {
    match s.prod
    case PCheckClosed(_) => if s.closed then WasClosed else if Room(s) then Sent else GivesUp(s)
    case PLoadTail(_, h) => if s.tail - h < s.cap || s.policy.Block? then Sent else GivesUp(s)
    case PFull(_, _) => if s.policy.Block? then Sent else GivesUp(s)
    case PStoreSlot(_, _) => Sent
    case PStoreTail(_, _) => Sent
    case PWake => Sent
    case _ => if Room(s) then Sent else GivesUp(s)
  }

  predicate Room(s: State) {
    s.tail - s.head < s.cap
  }

  function GivesUp(s: State): Reply {
    if s.policy.Drop? then Dropped else Overflow
  }

  function Enqueues(s: State): seq<Msg> {
    if Result(s).Sent? then Carried(s.prod) else []
  }

  lemma SendTells(s: State)
    requires Inv(s) && !s.prod.PIdle? && SendReady(s)
    ensures s.cap > 0 && |s.ring| == s.cap
    ensures var s' := Step(s, SendMove(s));
            && (s'.prod.PIdle? ==> s'.replies == s.replies + [Result(s)] && s'.sent == s.sent + Enqueues(s))
            && (!s'.prod.PIdle? ==> s'.replies == s.replies && Result(s') == Result(s) && s'.sent + Enqueues(s') == s.sent + Enqueues(s))
  {
    hide RingHolds, Counted, Accepted, ConsInv;
    Cursors(s);
  }

  lemma SendStep(s: State)
    requires Inv(s) && !s.prod.PIdle? && SendReady(s)
    ensures s.cap > 0 && |s.ring| == s.cap
    ensures var s' := Step(s, SendMove(s));
            Inv(s') && SendDistance(s') < SendDistance(s) && (s'.prod.PIdle? || SendReady(s'))
    ensures SendMove(s).MoveCons? ==> s.cons.CWake?
    ensures !SendMove(s).MoveProd? ==> SendDistance(s) == 7
  {
    SendNearer(s);
    hide RingHolds, ProdInv, ConsInv, Counted, Accepted, SendDistance, SendReady, Step;
    Cursors(s);
    StepKeeps(s, SendMove(s));
  }

  lemma SendNearer(s: State)
    requires Inv(s) && !s.prod.PIdle? && SendReady(s)
    ensures s.cap > 0 && |s.ring| == s.cap
    ensures var s' := Step(s, SendMove(s)); SendDistance(s') < SendDistance(s) && (s'.prod.PIdle? || SendReady(s'))
    ensures SendMove(s).MoveCons? ==> s.cons.CWake?
    ensures !SendMove(s).MoveProd? ==> SendDistance(s) == 7
  {
    hide RingHolds, Counted, Accepted, ConsInv;
    Cursors(s);
  }

  /** A send with room, or one that does not wait, completes by its own steps and at most one pending wake-up write. */
  lemma {:induction false} SendCompletes(s: State) returns (mvs: seq<Move>)
    requires Inv(s) && (s.prod.PIdle? || SendReady(s))
    ensures s.cap > 0 && |s.ring| == s.cap && Run(s, mvs).prod.PIdle? && |mvs| <= SendDistance(s)
    ensures !s.prod.PIdle? ==> Run(s, mvs).replies == s.replies + [Result(s)] && Run(s, mvs).sent == s.sent + Enqueues(s)
    ensures OnlyWakes(s, mvs, false) && Foreign(mvs, false) <= if SendDistance(s) >= 7 then 1 else 0
    decreases SendDistance(s)
  {
    InvCursors(s);
    hide Inv, Step, SendDistance, SendReady, Result, Enqueues;
    mvs := [];
    if !s.prod.PIdle? {
      SendStep(s);
      SendTells(s);
      var more := SendCompletes(Step(s, SendMove(s)));
      mvs := [SendMove(s)] + more;
      assert mvs[1..] == more;
    }
  }

  // The race itself: a send and a close between the two loads.

  const RACE: seq<Move> := [StartReceive, MoveCons, MoveCons, StartSend(7), MoveProd, MoveProd, MoveProd, MoveProd,
                            MoveProd, MoveProd, StartClose, MoveCloser]

  lemma RaceReceives() returns (s3: State)
    ensures s3 == Init(1, Block).(cons := CLoadClosed(0)) && Inv(s3) && s3.cap == 1 == |s3.ring|
    ensures After(1, Block, RACE) == Run(s3, RACE[3..])
  {
    hide Inv, Run;
    InitInv(1, Block);
    assert RACE[0..] == RACE;
    var s1 := RunOne(Init(1, Block), RACE, 0);
    var s2 := RunOne(s1, RACE, 1);
    s3 := RunOne(s2, RACE, 2);
  }

  lemma RaceLoads(s3: State) returns (s7: State)
    requires Inv(s3) && s3 == Init(1, Block).(cons := CLoadClosed(0))
    ensures Inv(s7) && s7.cap == 1 == |s7.ring| && Run(s3, RACE[3..]) == Run(s7, RACE[7..])
    ensures s7 == s3.(prod := PLoadTail(7, 0), offered := [7], out := 1)
  {
    hide Inv, Run;
    var s4 := RunOne(s3, RACE, 3);
    var s5 := RunOne(s4, RACE, 4);
    var s6 := RunOne(s5, RACE, 5);
    s7 := RunOne(s6, RACE, 6);
  }

  lemma RaceStores(s7: State) returns (s10: State)
    requires Inv(s7) && s7 == Init(1, Block).(cons := CLoadClosed(0), prod := PLoadTail(7, 0), offered := [7], out := 1)
    ensures Inv(s10) && s10.cap == 1 == |s10.ring| && Run(s7, RACE[7..]) == Run(s10, RACE[10..])
    ensures s10.tail == 1 && s10.head == 0 && s10.cons == s7.cons && s10.sent == [7] && s10.got == [] && s10.closer.XIdle?
  {
    hide Inv, Run;
    var s8 := RunOne(s7, RACE, 7);
    var s9 := RunOne(s8, RACE, 8);
    s10 := RunOne(s9, RACE, 9);
  }

  /** A send and a close between the two loads make a receive return None over a queued message. */
  lemma NoneOverQueuedMessage()
    ensures var s := After(1, Block, RACE); ReturnsNone(s) && s.head < s.tail && s.got == [] && s.sent == [7]
  {
    hide Inv, Run;
    var s3 := RaceReceives();
    var s7 := RaceLoads(s3);
    var s10 := RaceStores(s7);
    var s11 := RunOne(s10, RACE, 10);
    var s12 := RunOne(s11, RACE, 11);
    assert RACE[12..] == [];
    RunNone(s12);
  }

  lemma RunNone(s: State)
    requires s.cap > 0 && |s.ring| == s.cap
    ensures Run(s, []) == s
  {}

  lemma RunOne(s: State, mvs: seq<Move>, i: nat) returns (s': State)
    requires Inv(s) && i < |mvs|
    ensures s.cap > 0 && |s.ring| == s.cap && s' == Step(s, mvs[i]) && Inv(s') && Run(s, mvs[i..]) == Run(s', mvs[i + 1..])
  {
    StepKeeps(s, mvs[i]);
    s' := Step(s, mvs[i]);
    assert mvs[i..][1..] == mvs[i + 1..];
  }
}
