/**
 What one call on a channel returns, over every interleaving of the other threads' steps: a
 receive gets the next message, or None after it saw the ring empty and then the channel
 closed; a send enqueues its message, or reports why not.
 */
module ChannelCalls {
  import opened Util
  import opened Channel

  /** The state before step k of a run. */
  function At(s: State, mvs: seq<Move>, k: nat): State
    requires s.cap > 0 && |s.ring| == s.cap && k <= |mvs|
  {
    Run(s, mvs[..k])
  }

  /** A run ends with its last step. */
  lemma RunLast(s: State, mvs: seq<Move>)
    requires Inv(s) && mvs != []
    ensures s.cap > 0 && |s.ring| == s.cap
    ensures var p := Run(s, mvs[..|mvs| - 1]); Inv(p) && p.cap > 0 && |p.ring| == p.cap && Run(s, mvs) == Step(p, mvs[|mvs| - 1])
  {
    hide Inv, Step, Run;
    InvCursors(s);
    var last := |mvs| - 1;
    RunKeeps(s, mvs[..last]);
    assert mvs == mvs[..last] + [mvs[last]];
    RunConcat(s, mvs[..last], [mvs[last]]);
    RunSingle(Run(s, mvs[..last]), mvs[last]);
  }

  // -------------------------------------------------------------------- a receive

  /** At step k the receive loads `tail` of an empty ring. */
  ghost predicate EmptyLoad(s: State, mvs: seq<Move>, k: nat)
    requires s.cap > 0 && |s.ring| == s.cap
  {
    k < |mvs| && mvs[k].MoveCons? && At(s, mvs, k).cons.CLoadTail? && At(s, mvs, k).head == At(s, mvs, k).tail
  }

  /** At step j it loads the flag of a closed channel. */
  ghost predicate ClosedLoad(s: State, mvs: seq<Move>, j: nat)
    requires s.cap > 0 && |s.ring| == s.cap
  {
    j < |mvs| && mvs[j].MoveCons? && At(s, mvs, j).cons.CLoadClosed? && At(s, mvs, j).closed
  }

  /** The consumer takes no step strictly between k and n. */
  predicate ConsRests(mvs: seq<Move>, k: int, n: int) {
    forall i :: 0 <= i < |mvs| && k < i < n ==> !mvs[i].MoveCons?
  }

  ghost predicate JustEmpty(s: State, mvs: seq<Move>)
    requires s.cap > 0 && |s.ring| == s.cap
  {
    exists k: nat :: EmptyLoad(s, mvs, k) && ConsRests(mvs, k, |mvs|)
  }

  /** The receive saw the ring empty and, by its very next step, the channel closed. */
  ghost predicate EmptyThenClosed(s: State, mvs: seq<Move>)
    requires s.cap > 0 && |s.ring| == s.cap
  {
    exists k: nat, j: nat :: k < j && EmptyLoad(s, mvs, k) && ClosedLoad(s, mvs, j) && ConsRests(mvs, k, j)
  }

  /** The message that was next when the call began. */
  ghost predicate Took(s0: State, s: State, m: Msg) {
    |s0.got| < |s.sent| && m == s.sent[|s0.got|] && s.got == s0.got + [m]
  }

  /** How far the receive that began in `s0` has come in `s`. */
  ghost predicate Receiving(s0: State, mvs: seq<Move>, s: State)
    requires s0.cap > 0 && |s0.ring| == s0.cap
  {
    match s.cons
    case CWake(m) => Took(s0, s, m) && s.answers == s0.answers
    case CRebuild(m) => Took(s0, s, m) && s.answers == s0.answers
    case CFree(m) => Took(s0, s, m) && s.answers == s0.answers
    case CLoadClosed(_) => s.got == s0.got && s.answers == s0.answers && JustEmpty(s0, mvs)
    case CIdle =>
      || (s.answers != [] && s.answers[|s.answers| - 1].Some? && Took(s0, s, s.answers[|s.answers| - 1].value) &&
          s.answers == s0.answers + [s.answers[|s.answers| - 1]])
      || (s.answers == s0.answers + [None] && s.got == s0.got && EmptyThenClosed(s0, mvs))
    case _ => s.got == s0.got && s.answers == s0.answers
  }

  lemma AtPrefix(s: State, mvs: seq<Move>, k: nat)
    requires s.cap > 0 && |s.ring| == s.cap && k < |mvs|
    ensures mvs[..|mvs| - 1][..k] == mvs[..k] && At(s, mvs[..|mvs| - 1], k) == At(s, mvs, k)
  {
    assert mvs[..|mvs| - 1][..k] == mvs[..k];
  }

  /** What was seen earlier in the run stays seen. */
  lemma SeenStays(s: State, mvs: seq<Move>)
    requires s.cap > 0 && |s.ring| == s.cap && mvs != []
    ensures EmptyThenClosed(s, mvs[..|mvs| - 1]) ==> EmptyThenClosed(s, mvs)
    ensures JustEmpty(s, mvs[..|mvs| - 1]) && !mvs[|mvs| - 1].MoveCons? ==> JustEmpty(s, mvs)
  {
    hide At;
    var p := mvs[..|mvs| - 1];
    if EmptyThenClosed(s, p) {
      var k: nat, j: nat :| k < j && EmptyLoad(s, p, k) && ClosedLoad(s, p, j) && ConsRests(p, k, j);
      AtPrefix(s, mvs, k);
      AtPrefix(s, mvs, j);
      assert EmptyLoad(s, mvs, k) && ClosedLoad(s, mvs, j) && ConsRests(mvs, k, j);
    }
    if JustEmpty(s, p) && !mvs[|mvs| - 1].MoveCons? {
      var k: nat :| EmptyLoad(s, p, k) && ConsRests(p, k, |p|);
      AtPrefix(s, mvs, k);
      assert EmptyLoad(s, mvs, k) && ConsRests(mvs, k, |mvs|);
    }
  }

  /** A step of another thread leaves the receive where it is. */
  lemma OthersWait(s0: State, mvs: seq<Move>, s: State)
    requires mvs != [] && s0.cap > 0 && |s0.ring| == s0.cap && Inv(s) && Receiving(s0, mvs[..|mvs| - 1], s)
    requires var mv := mvs[|mvs| - 1]; !mv.MoveCons? && !mv.StartReceive?
    ensures s.cap > 0 && |s.ring| == s.cap && Receiving(s0, mvs, Step(s, mvs[|mvs| - 1]))
  {
    InvCursors(s);
    var mv := mvs[|mvs| - 1];
    SeenStays(s0, mvs);
    StepGrows(s, mv);
    hide Inv, JustEmpty, EmptyThenClosed;
    var s' := Step(s, mv);
    assert s'.cons == s.cons && s'.got == s.got && s'.answers == s.answers;
    hide Step;
  }

  /** What the receive's own step lets it see. */
  lemma OwnSees(s0: State, mvs: seq<Move>, s: State)
    requires mvs != [] && s0.cap > 0 && |s0.ring| == s0.cap && mvs[|mvs| - 1].MoveCons? && s == Run(s0, mvs[..|mvs| - 1])
    ensures s.cons.CLoadTail? && s.head == s.tail ==> JustEmpty(s0, mvs)
    ensures s.cons.CLoadClosed? && s.closed && JustEmpty(s0, mvs[..|mvs| - 1]) ==> EmptyThenClosed(s0, mvs)
    ensures EmptyThenClosed(s0, mvs[..|mvs| - 1]) ==> EmptyThenClosed(s0, mvs)
  {
    hide Run, JustEmpty, EmptyThenClosed;
    SeenStays(s0, mvs);
    if s.cons.CLoadTail? && s.head == s.tail { SeesEmpty(s0, mvs); }
    if s.cons.CLoadClosed? && s.closed && JustEmpty(s0, mvs[..|mvs| - 1]) { SeesClosed(s0, mvs); }
  }

  lemma SeesEmpty(s0: State, mvs: seq<Move>)
    requires mvs != [] && s0.cap > 0 && |s0.ring| == s0.cap && EmptyLoad(s0, mvs, |mvs| - 1)
    ensures JustEmpty(s0, mvs)
  {
    hide EmptyLoad;
    assert ConsRests(mvs, |mvs| - 1, |mvs|);
  }

  lemma SeesClosed(s0: State, mvs: seq<Move>)
    requires mvs != [] && s0.cap > 0 && |s0.ring| == s0.cap && ClosedLoad(s0, mvs, |mvs| - 1) && JustEmpty(s0, mvs[..|mvs| - 1])
    ensures EmptyThenClosed(s0, mvs)
  {
    hide At, ClosedLoad;
    var p := mvs[..|mvs| - 1];
    var k: nat :| EmptyLoad(s0, p, k) && ConsRests(p, k, |p|);
    AtPrefix(s0, mvs, k);
    assert EmptyLoad(s0, mvs, k) && ConsRests(mvs, k, |mvs| - 1);
  }

  /** The receive's own step. */
  lemma OwnStep(s0: State, mvs: seq<Move>, s: State)
    requires mvs != [] && s0.cap > 0 && |s0.ring| == s0.cap && Inv(s) && Receiving(s0, mvs[..|mvs| - 1], s)
    requires mvs[|mvs| - 1].MoveCons? && s == Run(s0, mvs[..|mvs| - 1])
    ensures s.cap > 0 && |s.ring| == s.cap && Receiving(s0, mvs, Step(s, MoveCons))
  {
    ReceiveEffect(s);
    hide Inv, JustEmpty, EmptyThenClosed, Run, At;
    OwnSees(s0, mvs, s);
  }

  /** What the consumer's step does to the histories. */
  lemma ReceiveEffect(s: State)
    requires Inv(s)
    ensures s.cap > 0 && |s.ring| == s.cap
    ensures var s' := Step(s, MoveCons); s'.sent == s.sent && (s.cons.CIdle? ==> s' == s)
    ensures s.cons.CLoadTail? ==> s.cons.h == s.head <= s.tail
    ensures s.cons.CStoreHead? ==> |s.got| < |s.sent| && s.cons.m == s.sent[|s.got|]
  {
  }

  lemma {:induction false} ReceiveGoes(s0: State, mvs: seq<Move>)
    requires Inv(s0) && s0.cons.CLoadHead? && SameReceive(mvs)
    ensures s0.cap > 0 && |s0.ring| == s0.cap && Inv(Run(s0, mvs)) && Receiving(s0, mvs, Run(s0, mvs))
    decreases |mvs|
  {
    InvCursors(s0);
    if mvs != [] {
      var p := mvs[..|mvs| - 1];
      ReceiveGoes(s0, p);
      RunLast(s0, mvs);
      RunKeeps(s0, mvs);
      var s := Run(s0, p);
      hide Receiving, Inv, Step, Run;
      if mvs[|mvs| - 1].MoveCons? { OwnStep(s0, mvs, s); } else { OthersWait(s0, mvs, s); }
    }
  }

  /**
   In every run from the start of a receive to its return, the call either took exactly the next
   message in order and returned it, or took nothing and returned None, and then it loaded the
   cursors of an empty ring and, next, the flag of a closed channel.
   */
  lemma ReceiveReturns(s0: State, mvs: seq<Move>)
    requires Inv(s0) && s0.cons.CLoadHead? && SameReceive(mvs)
    ensures s0.cap > 0 && |s0.ring| == s0.cap
    ensures var s := Run(s0, mvs); s.cons.CIdle? ==>
              || (s0.head < |s.sent| && s.got == s0.got + [s.sent[s0.head]] && s.answers == s0.answers + [Some(s.sent[s0.head])])
              || (s.got == s0.got && s.answers == s0.answers + [None] && EmptyThenClosed(s0, mvs))
  {
    ReceiveGoes(s0, mvs);
    GotCount(s0);
    hide Run, Inv, EmptyThenClosed;
  }

  lemma GotCount(s: State)
    requires Inv(s)
    ensures |s.got| == s.head
  {
  }

  // ----------------------------------------------------------------------- a send

  predicate SameSend(mvs: seq<Move>) {
    forall i :: 0 <= i < |mvs| ==> !mvs[i].StartSend?
  }

  predicate ProdRests(mvs: seq<Move>, k: int, n: int) {
    forall i :: 0 <= i < |mvs| && k < i < n ==> !mvs[i].MoveProd?
  }

  /** At step k the send loads `head`, which is h. */
  ghost predicate HeadLoad(s: State, mvs: seq<Move>, k: nat, h: nat)
    requires s.cap > 0 && |s.ring| == s.cap
  {
    k < |mvs| && mvs[k].MoveProd? && At(s, mvs, k).prod.PLoadHead? && At(s, mvs, k).head == h
  }

  /** At step j it loads a `tail` that is a whole ring ahead of h. */
  ghost predicate FullLoad(s: State, mvs: seq<Move>, j: nat, h: nat)
    requires s.cap > 0 && |s.ring| == s.cap
  {
    j < |mvs| && mvs[j].MoveProd? && At(s, mvs, j).prod.PLoadTail? && At(s, mvs, j).tail - h >= At(s, mvs, j).cap
  }

  ghost predicate JustLoaded(s: State, mvs: seq<Move>, h: nat)
    requires s.cap > 0 && |s.ring| == s.cap
  {
    exists k: nat :: HeadLoad(s, mvs, k, h) && ProdRests(mvs, k, |mvs|)
  }

  /** The send loaded the head and, by its next step, a tail that made the ring full. */
  ghost predicate SawFull(s: State, mvs: seq<Move>)
    requires s.cap > 0 && |s.ring| == s.cap
  {
    exists k: nat, j: nat, h: nat :: k < j && HeadLoad(s, mvs, k, h) && FullLoad(s, mvs, j, h) && ProdRests(mvs, k, j)
  }

  ghost predicate ClosedCheck(s: State, mvs: seq<Move>, k: nat)
    requires s.cap > 0 && |s.ring| == s.cap
  {
    k < |mvs| && mvs[k].MoveProd? && At(s, mvs, k).prod.PCheckClosed? && At(s, mvs, k).closed
  }

  /** The send found the channel closed when it checked. */
  ghost predicate SawClosed(s: State, mvs: seq<Move>)
    requires s.cap > 0 && |s.ring| == s.cap
  {
    exists k: nat :: ClosedCheck(s, mvs, k)
  }

  ghost predicate Unmovable(s: State, mvs: seq<Move>, k: nat)
    requires s.cap > 0 && |s.ring| == s.cap
  {
    k < |mvs| && mvs[k].RefuseValue? && At(s, mvs, k).prod.PFlatten?
  }

  /** Its value could not be flattened. */
  ghost predicate SawRefusal(s: State, mvs: seq<Move>)
    requires s.cap > 0 && |s.ring| == s.cap
  {
    exists k: nat :: Unmovable(s, mvs, k)
  }

  /** The call has reported r, and the report is true. */
  ghost predicate Reported(s0: State, m: Msg, mvs: seq<Move>, s: State, r: Reply)
    requires s0.cap > 0 && |s0.ring| == s0.cap
  {
    s.replies == s0.replies + [r] &&
    match r
    case Sent => s.sent == s0.sent + [m]
    case Dropped => s.sent == s0.sent && s.policy.Drop? && SawFull(s0, mvs)
    case Overflow => s.sent == s0.sent && s.policy.Error? && SawFull(s0, mvs)
    case WasClosed => s.sent == s0.sent && SawClosed(s0, mvs)
    case Refused => s.sent == s0.sent && SawRefusal(s0, mvs)
  }

  /** How far the send of m that began in `s0` has come in `s`. */
  ghost predicate Sending(s0: State, m: Msg, mvs: seq<Move>, s: State)
    requires s0.cap > 0 && |s0.ring| == s0.cap
  {
    if s.prod.PIdle? then exists r :: Reported(s0, m, mvs, s, r)
    else if s.prod.PWake? then s.sent == s0.sent + [m] && s.replies == s0.replies
    else
      && s.prod.m == m && s.sent == s0.sent && s.replies == s0.replies
      && (s.prod.PLoadTail? ==> JustLoaded(s0, mvs, s.prod.h))
      && (s.prod.PFull? || s.prod.PPark? ==> SawFull(s0, mvs))
  }

  lemma SentStays(s: State, mvs: seq<Move>, h: nat)
    requires s.cap > 0 && |s.ring| == s.cap && mvs != []
    ensures JustLoaded(s, mvs[..|mvs| - 1], h) && !mvs[|mvs| - 1].MoveProd? ==> JustLoaded(s, mvs, h)
    ensures SawFull(s, mvs[..|mvs| - 1]) ==> SawFull(s, mvs)
    ensures SawClosed(s, mvs[..|mvs| - 1]) ==> SawClosed(s, mvs)
    ensures SawRefusal(s, mvs[..|mvs| - 1]) ==> SawRefusal(s, mvs)
  {
    hide At;
    var p := mvs[..|mvs| - 1];
    if JustLoaded(s, p, h) && !mvs[|mvs| - 1].MoveProd? {
      var k: nat :| HeadLoad(s, p, k, h) && ProdRests(p, k, |p|);
      AtPrefix(s, mvs, k);
      assert HeadLoad(s, mvs, k, h) && ProdRests(mvs, k, |mvs|);
    }
    if SawFull(s, p) { FullStays(s, mvs); }
    if SawClosed(s, p) {
      var k: nat :| ClosedCheck(s, p, k);
      AtPrefix(s, mvs, k);
      assert ClosedCheck(s, mvs, k);
    }
    if SawRefusal(s, p) {
      var k: nat :| Unmovable(s, p, k);
      AtPrefix(s, mvs, k);
      assert Unmovable(s, mvs, k);
    }
  }

  lemma FullStays(s: State, mvs: seq<Move>)
    requires s.cap > 0 && |s.ring| == s.cap && mvs != [] && SawFull(s, mvs[..|mvs| - 1])
    ensures SawFull(s, mvs)
  {
    hide At;
    var p := mvs[..|mvs| - 1];
    var k: nat, j: nat, h: nat :| k < j && HeadLoad(s, p, k, h) && FullLoad(s, p, j, h) && ProdRests(p, k, j);
    AtPrefix(s, mvs, k);
    AtPrefix(s, mvs, j);
    assert HeadLoad(s, mvs, k, h) && FullLoad(s, mvs, j, h) && ProdRests(mvs, k, j);
  }

  lemma ReportStays(s0: State, m: Msg, mvs: seq<Move>, s: State, s': State)
    requires s0.cap > 0 && |s0.ring| == s0.cap && mvs != [] && Sending(s0, m, mvs[..|mvs| - 1], s) && s.prod.PIdle? && s'.prod.PIdle?
    requires s'.replies == s.replies && s'.sent == s.sent && s'.policy == s.policy
    ensures Sending(s0, m, mvs, s')
  {
    hide SawFull, SawClosed, SawRefusal;
    SentStays(s0, mvs, 0);
    var r :| Reported(s0, m, mvs[..|mvs| - 1], s, r);
    assert Reported(s0, m, mvs, s', r);
  }

  lemma OthersLeaveSend(s0: State, m: Msg, mvs: seq<Move>, s: State)
    requires mvs != [] && s0.cap > 0 && |s0.ring| == s0.cap && Inv(s) && Sending(s0, m, mvs[..|mvs| - 1], s)
    requires var mv := mvs[|mvs| - 1]; !mv.MoveProd? && !mv.StartSend? && !(mv.RefuseValue? && s.prod.PFlatten?)
    ensures s.cap > 0 && |s.ring| == s.cap && Sending(s0, m, mvs, Step(s, mvs[|mvs| - 1]))
  {
    InvCursors(s);
    var mv := mvs[|mvs| - 1];
    var s' := Step(s, mv);
    hide Inv, JustLoaded, SawFull, Reported;
    assert s'.prod == s.prod && s'.sent == s.sent && s'.replies == s.replies && s'.policy == s.policy;
    hide Step;
    SentStays(s0, mvs, if s.prod.PLoadTail? then s.prod.h else 0);
    if s.prod.PIdle? { ReportStays(s0, m, mvs, s, s'); }
  }

  /** What the send's own step lets it see. */
  lemma SendSees(s0: State, mvs: seq<Move>, s: State)
    requires mvs != [] && s0.cap > 0 && |s0.ring| == s0.cap && s == Run(s0, mvs[..|mvs| - 1])
    ensures mvs[|mvs| - 1].MoveProd? && s.prod.PLoadHead? ==> JustLoaded(s0, mvs, s.head)
    ensures mvs[|mvs| - 1].MoveProd? && s.prod.PLoadTail? && s.tail - s.prod.h >= s.cap && JustLoaded(s0, mvs[..|mvs| - 1], s.prod.h)
            ==> SawFull(s0, mvs)
    ensures mvs[|mvs| - 1].MoveProd? && s.prod.PCheckClosed? && s.closed ==> SawClosed(s0, mvs)
    ensures mvs[|mvs| - 1].RefuseValue? && s.prod.PFlatten? ==> SawRefusal(s0, mvs)
  {
    hide Run, JustLoaded, SawFull;
    var last := |mvs| - 1;
    if mvs[last].MoveProd? && s.prod.PLoadHead? { SeesHead(s0, mvs, s.head); }
    if mvs[last].MoveProd? && s.prod.PLoadTail? && s.tail - s.prod.h >= s.cap && JustLoaded(s0, mvs[..last], s.prod.h) {
      SeesFull(s0, mvs, s.prod.h);
    }
    if mvs[last].MoveProd? && s.prod.PCheckClosed? && s.closed { assert ClosedCheck(s0, mvs, last); }
    if mvs[last].RefuseValue? && s.prod.PFlatten? { assert Unmovable(s0, mvs, last); }
  }

  lemma SeesHead(s0: State, mvs: seq<Move>, h: nat)
    requires mvs != [] && s0.cap > 0 && |s0.ring| == s0.cap && HeadLoad(s0, mvs, |mvs| - 1, h)
    ensures JustLoaded(s0, mvs, h)
  {
    hide HeadLoad;
    assert ProdRests(mvs, |mvs| - 1, |mvs|);
  }

  lemma SeesFull(s0: State, mvs: seq<Move>, h: nat)
    requires mvs != [] && s0.cap > 0 && |s0.ring| == s0.cap && FullLoad(s0, mvs, |mvs| - 1, h) && JustLoaded(s0, mvs[..|mvs| - 1], h)
    ensures SawFull(s0, mvs)
  {
    hide At, FullLoad;
    var p := mvs[..|mvs| - 1];
    var k: nat :| HeadLoad(s0, p, k, h) && ProdRests(p, k, |p|);
    AtPrefix(s0, mvs, k);
    assert HeadLoad(s0, mvs, k, h) && ProdRests(mvs, k, |mvs| - 1);
  }

  /** The step by which a send returns. */
  predicate Ending(s: State) {
    (s.prod.PCheckClosed? && s.closed) || s.prod.PWake? || (s.prod.PFull? && !s.policy.Block?)
  }

  lemma SendEnds(s0: State, m: Msg, mvs: seq<Move>, p: seq<Move>, s: State)
    requires s0.cap > 0 && |s0.ring| == s0.cap && s.cap > 0 && |s.ring| == s.cap && Sending(s0, m, p, s) && Ending(s)
    requires (SawFull(s0, p) ==> SawFull(s0, mvs)) && (s.prod.PCheckClosed? ==> SawClosed(s0, mvs))
    ensures Sending(s0, m, mvs, Step(s, MoveProd))
  {
    hide JustLoaded, SawFull, SawClosed, SawRefusal, Run;
    var s' := Step(s, MoveProd);
    if s.prod.PCheckClosed? {
      assert Reported(s0, m, mvs, s', WasClosed);
    } else if s.prod.PWake? {
      assert Reported(s0, m, mvs, s', Sent);
    } else {
      assert Reported(s0, m, mvs, s', if s.policy.Drop? then Dropped else Overflow);
    }
  }

  lemma SendContinues(s0: State, m: Msg, mvs: seq<Move>, p: seq<Move>, s: State)
    requires s0.cap > 0 && |s0.ring| == s0.cap && s.cap > 0 && |s.ring| == s.cap && Sending(s0, m, p, s)
    requires !Ending(s) && !s.prod.PIdle?
    requires SawFull(s0, p) ==> SawFull(s0, mvs)
    requires s.prod.PLoadHead? ==> JustLoaded(s0, mvs, s.head)
    requires s.prod.PLoadTail? && s.tail - s.prod.h >= s.cap ==> SawFull(s0, mvs)
    ensures Sending(s0, m, mvs, Step(s, MoveProd))
  {
    hide JustLoaded, SawFull, Reported, Run;
  }

  lemma SendMoves(s0: State, m: Msg, mvs: seq<Move>, s: State)
    requires mvs != [] && s0.cap > 0 && |s0.ring| == s0.cap && Inv(s) && Sending(s0, m, mvs[..|mvs| - 1], s)
    requires mvs[|mvs| - 1].MoveProd? && s == Run(s0, mvs[..|mvs| - 1])
    ensures s.cap > 0 && |s.ring| == s.cap && Sending(s0, m, mvs, Step(s, MoveProd))
  {
    InvCursors(s);
    hide Inv, JustLoaded, SawFull, SawClosed, SawRefusal, Run, Reported;
    SendSees(s0, mvs, s);
    SentStays(s0, mvs, 0);
    if s.prod.PIdle? {
      ReportStays(s0, m, mvs, s, Step(s, MoveProd));
    } else {
      hide Step;
      if Ending(s) { SendEnds(s0, m, mvs, mvs[..|mvs| - 1], s); } else { SendContinues(s0, m, mvs, mvs[..|mvs| - 1], s); }
    }
  }

  lemma SendRefuses(s0: State, m: Msg, mvs: seq<Move>, s: State)
    requires mvs != [] && s0.cap > 0 && |s0.ring| == s0.cap && Inv(s) && Sending(s0, m, mvs[..|mvs| - 1], s)
    requires mvs[|mvs| - 1].RefuseValue? && s.prod.PFlatten? && s == Run(s0, mvs[..|mvs| - 1])
    ensures s.cap > 0 && |s.ring| == s.cap && Sending(s0, m, mvs, Step(s, RefuseValue))
  {
    InvCursors(s);
    hide Inv, JustLoaded, SawFull, SawClosed, SawRefusal, Run;
    SendSees(s0, mvs, s);
    assert Reported(s0, m, mvs, Step(s, RefuseValue), Refused);
  }

  lemma {:induction false} SendGoes(s0: State, m: Msg, mvs: seq<Move>)
    requires Inv(s0) && s0.prod == PCheckClosed(m) && SameSend(mvs)
    ensures s0.cap > 0 && |s0.ring| == s0.cap && Inv(Run(s0, mvs)) && Sending(s0, m, mvs, Run(s0, mvs))
    decreases |mvs|
  {
    InvCursors(s0);
    if mvs != [] {
      var p, mv := mvs[..|mvs| - 1], mvs[|mvs| - 1];
      SendGoes(s0, m, p);
      RunLast(s0, mvs);
      RunKeeps(s0, mvs);
      var s := Run(s0, p);
      hide Sending, Inv, Step, Run;
      if mv.MoveProd? { SendMoves(s0, m, mvs, s); }
      else if mv.RefuseValue? && s.prod.PFlatten? { SendRefuses(s0, m, mvs, s); }
      else { OthersLeaveSend(s0, m, mvs, s); }
    }
  }

  /**
   In every run from the start of a send to its return, the call reports one thing and it is true:
   sent, and its message is the one enqueued in that time; given up, under drop or error only,
   after it loaded a head and then a tail a whole ring ahead; closed, as it found at its check; or
   refused because its value cannot cross threads. Nothing is enqueued in the last three cases.
   */
  lemma SendReturns(s0: State, m: Msg, mvs: seq<Move>)
    requires Inv(s0) && s0.prod == PCheckClosed(m) && SameSend(mvs)
    ensures s0.cap > 0 && |s0.ring| == s0.cap
    ensures Run(s0, mvs).prod.PIdle? ==> exists r :: Reported(s0, m, mvs, Run(s0, mvs), r)
    ensures !Run(s0, mvs).prod.PIdle? ==> Run(s0, mvs).replies == s0.replies
  {
    SendGoes(s0, m, mvs);
    hide Run, Inv, Reported, SawFull, JustLoaded;
  }

  // -------------------------------------------------------------- no busy waiting

  /** The step writes to the eventfd that the consumer, or the producer, waits on. */
  predicate Writes(s: State, mv: Move, toConsumer: bool) {
    if toConsumer then (mv.MoveProd? && s.prod.PWake?) || (mv.MoveCloser? && s.closer.XWake?)
    else mv.MoveCons? && s.cons.CWake?
  }

  ghost predicate NoWrites(s: State, mvs: seq<Move>, toConsumer: bool)
    requires s.cap > 0 && |s.ring| == s.cap
    decreases |mvs|
  {
    mvs == [] || (!Writes(s, mvs[0], toConsumer) && NoWrites(Step(s, mvs[0]), mvs[1..], toConsumer))
  }

  lemma {:induction false} StaysZero(s: State, mvs: seq<Move>, toConsumer: bool)
    requires s.cap > 0 && |s.ring| == s.cap && NoWrites(s, mvs, toConsumer)
    requires (if toConsumer then s.dataReady else s.spaceReady) == 0
    ensures var s' := Run(s, mvs); (if toConsumer then s'.dataReady else s'.spaceReady) == 0
    decreases |mvs|
  {
    if mvs != [] {
      ZeroStep(s, mvs[0], toConsumer);
      hide Step;
      StaysZero(Step(s, mvs[0]), mvs[1..], toConsumer);
    }
  }

  lemma ZeroStep(s: State, mv: Move, toConsumer: bool)
    requires s.cap > 0 && |s.ring| == s.cap && !Writes(s, mv, toConsumer)
    requires (if toConsumer then s.dataReady else s.spaceReady) == 0
    ensures var s' := Step(s, mv); (if toConsumer then s'.dataReady else s'.spaceReady) == 0
  {
  }

  /**
   A side that has come back from its park and parks again without finding what it waits for is
   blocked until the other threads write to its eventfd: every round of waiting is paid for by a write.
   */
  lemma OneRoundPerWrite(s: State, mvs: seq<Move>, toConsumer: bool)
    requires s.cap > 0 && |s.ring| == s.cap
    requires if toConsumer then s.cons.CPark? && s.dataReady > 0 else s.prod.PPark? && s.spaceReady > 0
    requires NoWrites(Step(s, if toConsumer then MoveCons else MoveProd), mvs, toConsumer)
    ensures var s' := Run(Step(s, if toConsumer then MoveCons else MoveProd), mvs);
            if toConsumer then s'.cons.CPark? ==> ConsBlocked(s') else s'.prod.PPark? ==> ProdBlocked(s')
  {
    hide Run, NoWrites;
    StaysZero(Step(s, if toConsumer then MoveCons else MoveProd), mvs, toConsumer);
  }
}
