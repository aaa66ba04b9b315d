/**
 One batch of the event loop: fire the ready watches, then the due timers in (due, id)
 order, while the callbacks add and cancel registrations. A callback is the list of
 registry calls it makes; callbacks do not re-enter the loop. The ghost log records every
 firing and every release of a registry reference.
 */
module EventLoop {
  import opened Util

  const MS: int := 1000000

  datatype Timer = Timer(id: int, due: int, interval: int, ticks: int, cb: int, active: bool)
  datatype Watch = Watch(id: int, fd: int, write: bool, cb: int, active: bool)

  datatype Act =
    | AddTimer(now: int, delay: int, interval: int, cb: int)
    | CancelTimer(id: int)
    | AddWatch(fd: int, cb: int, write: bool)
    | CancelWatch(id: int)
    | CancelFd(fd: int)

  /** A callback run with its argument, `last` if its timer is one-shot; or a reference dropped. */
  datatype Event = Fire(id: int, arg: int, cb: int, last: bool) | Release(id: int)

  predicate TimerLive(timers: seq<Timer>, id: int) {
    exists i :: 0 <= i < |timers| && timers[i].id == id && timers[i].active
  }

  predicate WatchLive(watches: seq<Watch>, id: int) {
    exists i :: 0 <= i < |watches| && watches[i].id == id && watches[i].active
  }

  /** Ids are issued once, across both registries. */
  ghost predicate Ids(timers: seq<Timer>, watches: seq<Watch>, nextId: int) {
    && nextId >= 1
    && (forall i :: 0 <= i < |timers| ==> 1 <= timers[i].id < nextId)
    && (forall j :: 0 <= j < |watches| ==> 1 <= watches[j].id < nextId)
    && (forall i, k :: 0 <= i < k < |timers| ==> timers[i].id < timers[k].id)
    && (forall j, k :: 0 <= j < k < |watches| ==> watches[j].id != watches[k].id)
    && (forall i, j :: 0 <= i < |timers| && 0 <= j < |watches| ==> timers[i].id != watches[j].id)
  }

  /** After a one-shot's firing only its release follows; after a release nothing does. */
  ghost predicate Ends(log: seq<Event>) {
    forall i, j :: 0 <= i < j < |log| && log[i].id == log[j].id && Final(log[i]) ==> log[i].Fire? && log[j].Release?
  }

  predicate Final(e: Event) {
    e.Release? || e.last
  }

  /**
   An issued id is registered exactly as long as its reference has not been released; a
   one-shot timer whose callback is running (`busy`, or 0) is the one exception.
   */
  ghost predicate Owned(timers: seq<Timer>, watches: seq<Watch>, nextId: int, log: seq<Event>, busy: int) {
    && (forall e :: e in log ==> 1 <= e.id < nextId)
    && (forall id :: 1 <= id < nextId ==>
          ((TimerLive(timers, id) || WatchLive(watches, id)) <==> Release(id) !in log && id != busy))
    && (busy != 0 ==> 1 <= busy < nextId && Release(busy) !in log)
    && (forall e :: e in log && e.Fire? && e.last ==> Release(e.id) in log || e.id == busy)
  }

  /** What callbacks cannot change about registrations made before them. */
  ghost predicate Kept(t: seq<Timer>, w: seq<Watch>, n: int, t': seq<Timer>, w': seq<Watch>, n': int) {
    && |t| <= |t'| && |w| <= |w'| && n <= n'
    && (forall i :: 0 <= i < |t| ==> t'[i] == t[i] || t'[i] == t[i].(active := false))
    && (forall i :: |t| <= i < |t'| ==> t'[i].id >= n)
    && (forall j :: 0 <= j < |w'| && w'[j].active && w'[j].id < n ==> j < |w| && w[j] == w'[j])
  }

  lemma KeptTrans(t: seq<Timer>, w: seq<Watch>, n: int, t1: seq<Timer>, w1: seq<Watch>, n1: int,
                  t2: seq<Timer>, w2: seq<Watch>, n2: int)
    requires Kept(t, w, n, t1, w1, n1) && Kept(t1, w1, n1, t2, w2, n2)
    ensures Kept(t, w, n, t2, w2, n2)
  {
    forall i | |t| <= i < |t2| ensures t2[i].id >= n {
      if i < |t1| { assert t2[i].id == t1[i].id; }
    }
  }

  // -------------------------------------------------------- effect of each step

  lemma LogAppend(log: seq<Event>, e: Event)
    requires Ends(log)
    requires forall x :: x in log && x.id == e.id && Final(x) ==> x.Fire? && e.Release?
    ensures Ends(log + [e])
  {
    var log' := log + [e];
    forall i, j | 0 <= i < j < |log'| && log'[i].id == log'[j].id && Final(log'[i]) ensures log'[i].Fire? && log'[j].Release? {
      if j == |log| { assert log[i] in log; }
    }
  }

  lemma TimerDrop(t: seq<Timer>, i: nat, x: Timer, id: int)
    requires i < |t| && x.id == t[i].id && !x.active
    requires forall k, l :: 0 <= k < l < |t| ==> t[k].id < t[l].id
    ensures TimerLive(t[i := x], id) <==> TimerLive(t, id) && id != t[i].id
  {
    if TimerLive(t, id) && id != t[i].id {
      var k :| 0 <= k < |t| && t[k].id == id && t[k].active;
      assert t[i := x][k].active;
    }
    if TimerLive(t[i := x], id) {
      var k :| 0 <= k < |t| && t[i := x][k].id == id && t[i := x][k].active;
      assert t[k].active && k != i;
    }
  }

  lemma TimerSame(t: seq<Timer>, i: nat, x: Timer, id: int)
    requires i < |t| && x.id == t[i].id && x.active == t[i].active
    ensures TimerLive(t[i := x], id) <==> TimerLive(t, id)
  {
    if TimerLive(t, id) {
      var k :| 0 <= k < |t| && t[k].id == id && t[k].active;
      assert t[i := x][k].active;
    }
    if TimerLive(t[i := x], id) {
      var k :| 0 <= k < |t| && t[i := x][k].id == id && t[i := x][k].active;
      assert t[k].active;
    }
  }

  lemma TimerAdd(t: seq<Timer>, x: Timer, id: int)
    requires x.active
    ensures TimerLive(t + [x], id) <==> TimerLive(t, id) || id == x.id
  {
    if TimerLive(t, id) {
      var k :| 0 <= k < |t| && t[k].id == id && t[k].active;
      assert (t + [x])[k].active;
    }
    if id == x.id { assert (t + [x])[|t|].active; }
    if TimerLive(t + [x], id) {
      var k :| 0 <= k < |t| + 1 && (t + [x])[k].id == id && (t + [x])[k].active;
      if k < |t| { assert t[k].active; }
    }
  }

  lemma WatchDrop(w: seq<Watch>, i: nat, id: int)
    requires i < |w| && forall j, k :: 0 <= j < k < |w| ==> w[j].id != w[k].id
    ensures WatchLive(w[i := w[i].(active := false)], id) <==> WatchLive(w, id) && id != w[i].id
  {
    var w' := w[i := w[i].(active := false)];
    if WatchLive(w, id) && id != w[i].id {
      var k :| 0 <= k < |w| && w[k].id == id && w[k].active;
      assert w'[k].active;
    }
    if WatchLive(w', id) {
      var k :| 0 <= k < |w| && w'[k].id == id && w'[k].active;
      assert w[k].active && k != i;
    }
  }

  /** A watch goes into a retired slot or a new one. */
  function Placed(w: seq<Watch>, slot: nat, x: Watch): seq<Watch>
    requires slot <= |w|
  {
    if slot < |w| then w[slot := x] else w + [x]
  }

  lemma WatchAdd(w: seq<Watch>, slot: nat, x: Watch, id: int)
    requires slot <= |w| && (slot < |w| ==> !w[slot].active) && x.active
    ensures WatchLive(Placed(w, slot, x), id) <==> WatchLive(w, id) || id == x.id
  {
    var w' := Placed(w, slot, x);
    if WatchLive(w, id) {
      var k :| 0 <= k < |w| && w[k].id == id && w[k].active;
      assert w'[k].active;
    }
    if id == x.id { assert w'[slot].active; }
    if WatchLive(w', id) {
      var k :| 0 <= k < |w'| && w'[k].id == id && w'[k].active;
      if k != slot { assert w[k].active; }
    }
  }

  /** Everything the loop keeps between two steps. */
  ghost predicate Good(t: seq<Timer>, w: seq<Watch>, n: int, log: seq<Event>, busy: int) {
    Ids(t, w, n) && Owned(t, w, n, log, busy) && Ends(log)
  }

  /** No event of a live registration is final. */
  lemma LiveOpen(t: seq<Timer>, w: seq<Watch>, n: int, log: seq<Event>, busy: int, id: int)
    requires Good(t, w, n, log, busy) && (TimerLive(t, id) || WatchLive(w, id))
    ensures 1 <= id < n && Release(id) !in log && id != busy
    ensures forall e :: e in log && e.id == id ==> !Final(e)
  {
    hide Ends;
    assert 1 <= id < n;
    forall e | e in log && e.id == id ensures !Final(e) {
      assert e.Release? ==> e == Release(id);
    }
  }

  lemma ReleaseTimer(t: seq<Timer>, w: seq<Watch>, n: int, log: seq<Event>, busy: int, i: nat)
    requires Good(t, w, n, log, busy) && i < |t| && t[i].active
    ensures Good(t[i := t[i].(active := false)], w, n, log + [Release(t[i].id)], busy)
  {
    var t', e := t[i := t[i].(active := false)], Release(t[i].id);
    assert TimerLive(t, t[i].id);
    LiveOpen(t, w, n, log, busy, t[i].id);
    LogAppend(log, e);
    hide Ends;
    forall id | 1 <= id < n
      ensures (TimerLive(t', id) || WatchLive(w, id)) <==> Release(id) !in log + [e] && id != busy
    {
      TimerDrop(t, i, t'[i], id);
      if id == t[i].id { NotWatch(t, w, n, i); }
    }
  }

  lemma NotWatch(t: seq<Timer>, w: seq<Watch>, n: int, i: nat)
    requires Ids(t, w, n) && i < |t|
    ensures !WatchLive(w, t[i].id)
  {
  }

  lemma NotTimer(t: seq<Timer>, w: seq<Watch>, n: int, j: nat)
    requires Ids(t, w, n) && j < |w|
    ensures !TimerLive(t, w[j].id)
  {
  }

  lemma ReleaseWatch(t: seq<Timer>, w: seq<Watch>, n: int, log: seq<Event>, busy: int, j: nat)
    requires Good(t, w, n, log, busy) && j < |w| && w[j].active
    ensures Good(t, w[j := w[j].(active := false)], n, log + [Release(w[j].id)], busy)
  {
    var w', e := w[j := w[j].(active := false)], Release(w[j].id);
    assert WatchLive(w, w[j].id);
    LiveOpen(t, w, n, log, busy, w[j].id);
    LogAppend(log, e);
    hide Ends;
    forall id | 1 <= id < n
      ensures (TimerLive(t, id) || WatchLive(w', id)) <==> Release(id) !in log + [e] && id != busy
    {
      WatchDrop(w, j, id);
      if id == w[j].id { NotTimer(t, w, n, j); }
    }
  }

  lemma RegisterTimer(t: seq<Timer>, w: seq<Watch>, n: int, log: seq<Event>, busy: int, x: Timer)
    requires Good(t, w, n, log, busy) && x.id == n && x.active
    ensures Good(t + [x], w, n + 1, log, busy)
  {
    hide Ends;
    forall id | 1 <= id < n + 1
      ensures (TimerLive(t + [x], id) || WatchLive(w, id)) <==> Release(id) !in log && id != busy
    {
      TimerAdd(t, x, id);
      NewId(t, w, n, log, busy);
    }
  }

  lemma NewId(t: seq<Timer>, w: seq<Watch>, n: int, log: seq<Event>, busy: int)
    requires Good(t, w, n, log, busy)
    ensures !TimerLive(t, n) && !WatchLive(w, n) && Release(n) !in log && n != busy
  {
  }

  lemma RegisterWatch(t: seq<Timer>, w: seq<Watch>, n: int, log: seq<Event>, busy: int, slot: nat, x: Watch)
    requires Good(t, w, n, log, busy) && x.id == n && x.active
    requires slot <= |w| && (slot < |w| ==> !w[slot].active)
    ensures Good(t, Placed(w, slot, x), n + 1, log, busy)
  {
    hide Ends;
    var w' := Placed(w, slot, x);
    assert forall j :: 0 <= j < |w'| ==> w'[j] == if j == slot then x else w[j];
    forall id | 1 <= id < n + 1
      ensures (TimerLive(t, id) || WatchLive(w', id)) <==> Release(id) !in log && id != busy
    {
      WatchAdd(w, slot, x, id);
      NewId(t, w, n, log, busy);
    }
    hide Placed;
  }

  /** A one-shot timer leaves the registry and its callback starts. */
  lemma StartOneShot(t: seq<Timer>, w: seq<Watch>, n: int, log: seq<Event>, i: nat, x: Timer)
    requires Good(t, w, n, log, 0) && i < |t| && t[i].active && x.id == t[i].id && !x.active
    ensures Good(t[i := x], w, n, log + [Fire(x.id, x.ticks, x.cb, true)], x.id)
  {
    var t', e := t[i := x], Fire(x.id, x.ticks, x.cb, true);
    assert TimerLive(t, t[i].id);
    LiveOpen(t, w, n, log, 0, t[i].id);
    LogAppend(log, e);
    hide Ends;
    forall id | 1 <= id < n
      ensures (TimerLive(t', id) || WatchLive(w, id)) <==> Release(id) !in log + [e] && id != x.id
    {
      TimerDrop(t, i, x, id);
      if id == t[i].id { NotWatch(t, w, n, i); }
    }
  }

  /** Its callback has returned: the registry's reference goes. */
  lemma FinishOneShot(t: seq<Timer>, w: seq<Watch>, n: int, log: seq<Event>, busy: int)
    requires Good(t, w, n, log, busy) && busy != 0
    ensures Good(t, w, n, log + [Release(busy)], 0)
  {
    LogAppend(log, Release(busy));
  }

  lemma TickTimer(t: seq<Timer>, w: seq<Watch>, n: int, log: seq<Event>, i: nat, x: Timer)
    requires Good(t, w, n, log, 0) && i < |t| && t[i].active && x.id == t[i].id && x.active
    ensures Good(t[i := x], w, n, log + [Fire(x.id, x.ticks, x.cb, false)], 0)
  {
    var e := Fire(x.id, x.ticks, x.cb, false);
    assert TimerLive(t, t[i].id);
    LiveOpen(t, w, n, log, 0, t[i].id);
    LogAppend(log, e);
    hide Ends;
    forall id | 1 <= id < n
      ensures (TimerLive(t[i := x], id) || WatchLive(w, id)) <==> Release(id) !in log + [e] && id != 0
    {
      TimerSame(t, i, x, id);
    }
  }

  lemma FireWatch(t: seq<Timer>, w: seq<Watch>, n: int, log: seq<Event>, j: nat)
    requires Good(t, w, n, log, 0) && j < |w| && w[j].active
    ensures Good(t, w, n, log + [Fire(w[j].id, w[j].fd, w[j].cb, false)], 0)
  {
    assert WatchLive(w, w[j].id);
    LiveOpen(t, w, n, log, 0, w[j].id);
    LogAppend(log, Fire(w[j].id, w[j].fd, w[j].cb, false));
  }

  // ------------------------------------------------------------------- the loop

  predicate IsDue(t: Timer, now: int) {
    t.active && t.due <= now
  }

  /** The firing order of timers. */
  predicate Earlier(x: Timer, y: Timer) {
    x.due < y.due || (x.due == y.due && x.id < y.id)
  }

  // ------------------------------------------------- what callbacks do, exactly

  datatype Reg = Reg(timers: seq<Timer>, watches: seq<Watch>, nextId: int)

  /** The first retired slot, or a new one. */
  function FirstFree(w: seq<Watch>): (k: nat)
    ensures k <= |w| && (k < |w| ==> !w[k].active) && forall j :: 0 <= j < k ==> w[j].active
  {
    if w == [] || !w[0].active then 0 else 1 + FirstFree(w[1..])
  }

  lemma FirstFreeIs(w: seq<Watch>, k: nat)
    requires k <= |w| && (k < |w| ==> !w[k].active) && forall j :: 0 <= j < k ==> w[j].active
    ensures FirstFree(w) == k
  {
    hide FirstFree;
  }

  function TimersWithout(t: seq<Timer>, id: int): (r: seq<Timer>)
    ensures |r| == |t| && forall i :: 0 <= i < |t| ==> r[i] == if t[i].id == id then t[i].(active := false) else t[i]
  {
    seq(|t|, i requires 0 <= i < |t| => if t[i].id == id then t[i].(active := false) else t[i])
  }

  function WatchesWithout(w: seq<Watch>, id: int): (r: seq<Watch>)
    ensures |r| == |w| && forall i :: 0 <= i < |w| ==> r[i] == if w[i].id == id then w[i].(active := false) else w[i]
  {
    seq(|w|, i requires 0 <= i < |w| => if w[i].id == id then w[i].(active := false) else w[i])
  }

  function FdWithout(w: seq<Watch>, fd: int): (r: seq<Watch>)
    ensures |r| == |w| && forall i :: 0 <= i < |w| ==> r[i] == if w[i].fd == fd then w[i].(active := false) else w[i]
  {
    seq(|w|, i requires 0 <= i < |w| => if w[i].fd == fd then w[i].(active := false) else w[i])
  }

  function Apply(r: Reg, act: Act): Reg {
    match act
    case AddTimer(now, delay, interval, cb) =>
      r.(timers := r.timers + [Timer(r.nextId, now + delay * MS, interval, 0, cb, true)], nextId := r.nextId + 1)
    case CancelTimer(id) => r.(timers := TimersWithout(r.timers, id))
    case AddWatch(fd, cb, write) =>
      r.(watches := Placed(r.watches, FirstFree(r.watches), Watch(r.nextId, fd, write, cb, true)), nextId := r.nextId + 1)
    case CancelWatch(id) => r.(watches := WatchesWithout(r.watches, id))
    case CancelFd(fd) => r.(watches := FdWithout(r.watches, fd))
  }

  function ApplyAll(r: Reg, acts: seq<Act>): Reg {
    if acts == [] then r else Apply(ApplyAll(r, acts[..|acts| - 1]), acts[|acts| - 1])
  }

  /** The effect of callback invocations number c, c + 1, ... , n of them. */
  function ApplyScripts(r: Reg, script: nat -> seq<Act>, c: nat, n: nat): Reg {
    if n == 0 then r else ApplyAll(ApplyScripts(r, script, c, n - 1), script(c + n - 1))
  }

  /** A timer as its callback finds it. */
  function Ticked(t: Timer): Timer {
    var x := t.(ticks := t.ticks + 1);
    if t.interval > 0 then x.(due := t.due + t.interval * MS) else x.(active := false)
  }

  function TickAt(r: Reg, i: nat): Reg {
    if i < |r.timers| then r.(timers := r.timers[i := Ticked(r.timers[i])]) else r
  }

  /** The effect of firing the timers `hits` in turn, as callback invocations c, c + 1, ... */
  function ApplyTurns(r: Reg, script: nat -> seq<Act>, c: nat, hits: seq<nat>): Reg {
    if hits == [] then r
    else
      var n := |hits| - 1;
      ApplyAll(TickAt(ApplyTurns(r, script, c, hits[..n]), hits[n]), script(c + n))
  }

  /** The polled watches among `dead` are retired. */
  function Retired(r: Reg, polled: seq<Watch>, dead: set<int>): Reg {
    r.(watches := seq(|r.watches|, i requires 0 <= i < |r.watches| =>
      if r.watches[i].id in dead && WatchLive(polled, r.watches[i].id) then r.watches[i].(active := false) else r.watches[i]))
  }

  /** Some call in `acts` cancels this watch, by its id or by its descriptor. */
  predicate Drops(acts: seq<Act>, x: Watch) {
    CancelWatch(x.id) in acts || CancelFd(x.fd) in acts
  }

  /** None of the n callbacks from number c on cancels the watch, or the timer. */
  ghost predicate Spares(script: nat -> seq<Act>, c: nat, n: nat, x: Watch) {
    forall m: nat :: c <= m < c + n ==> !Drops(script(m), x)
  }

  ghost predicate SparesTimer(script: nat -> seq<Act>, c: nat, n: nat, id: int) {
    forall m: nat :: c <= m < c + n ==> CancelTimer(id) !in script(m)
  }

  /** No callback that fired for an id in front of position j cancels the watch x. */
  ghost predicate SparedBefore(x: Watch, script: nat -> seq<Act>, c: nat, hits: seq<nat>, j: nat) {
    forall q :: 0 <= q < |hits| && hits[q] < j ==> !Drops(script(c + q), x)
  }

  /** Of the first k polled ids, exactly those fire that no earlier callback of the batch cancelled. */
  ghost predicate PolledWhen(w: seq<Watch>, ids: seq<int>, k: nat, hits: seq<nat>, script: nat -> seq<Act>, c: nat) {
    k <= |ids| && forall j: nat, m: nat :: j < k && m < |w| && w[m].active && w[m].id == ids[j] ==>
      (j in hits <==> SparedBefore(w[m], script, c, hits, j))
  }

  /** No callback of a timer that fired before timer i cancels timer i. */
  ghost predicate SparedEarlier(t: seq<Timer>, script: nat -> seq<Act>, c: nat, hits: seq<nat>, i: nat)
    requires i < |t| && forall k :: 0 <= k < |hits| ==> hits[k] < |t|
  {
    forall q :: 0 <= q < |hits| && Earlier(t[hits[q]], t[i]) ==> CancelTimer(t[i].id) !in script(c + q)
  }

  /** A watch keeps its slot until it is cancelled. */
  ghost predicate Standing(w: seq<Watch>, w': seq<Watch>, acts: seq<Act>) {
    |w| <= |w'| && forall j :: 0 <= j < |w| && w[j].active ==> (w'[j] == w[j] <==> !Drops(acts, w[j]))
  }

  ghost predicate Stands(w: seq<Watch>, w': seq<Watch>, script: nat -> seq<Act>, c: nat, n: nat) {
    |w| <= |w'| && forall j :: 0 <= j < |w| && w[j].active ==> (w'[j] == w[j] <==> Spares(script, c, n, w[j]))
  }

  class Loop {
    var timers: seq<Timer>
    var watches: seq<Watch>
    var nextId: int
    /** What the k-th callback invocation of the program does. */
    const script: nat -> seq<Act>
    var calls: nat
    ghost var log: seq<Event>
    ghost var busy: int

    ghost predicate Valid()
      reads this
    {
      Good(timers, watches, nextId, log, busy)
    }

    ghost function Regs(): Reg
      reads this`timers, this`watches, this`nextId
    {
      Reg(timers, watches, nextId)
    }

    constructor (script: nat -> seq<Act>)
      ensures this.script == script && calls == 0 && nextId == 1
      ensures Valid() && busy == 0 && timers == [] && watches == [] && log == []
    {
      this.script := script;
      timers, watches, nextId, calls, log, busy := [], [], 1, 0, [], 0;
    }

    method StartTimer(now: int, delay: int, interval: int, cb: int) returns (id: int)
      requires Valid()
      modifies this`timers, this`nextId
      ensures Valid() && id == old(nextId) && nextId == id + 1
      ensures timers == old(timers) + [Timer(id, now + delay * 1000000, interval, 0, cb, true)]
    {
      hide Good;
      id := nextId;
      var t := Timer(id, now + delay * MS, interval, 0, cb, true);
      RegisterTimer(timers, watches, nextId, log, busy, t);
      timers, nextId := timers + [t], nextId + 1;
    }

    /** Stops a running timer and drops its reference; unknown and finished ids do nothing. */
    method StopTimer(id: int)
      requires Valid()
      modifies this`timers, this`log
      ensures Valid() && |timers| == |old(timers)|
      ensures forall i :: 0 <= i < |timers| ==>
                timers[i] == if old(timers)[i].id == id then old(timers)[i].(active := false) else old(timers)[i]
      ensures log == old(log) + if TimerLive(old(timers), id) then [Release(id)] else []
    {
      IdsDistinct(timers, watches, nextId, log, busy);
      hide Good;
      for i := 0 to |timers|
        invariant timers == old(timers) && log == old(log)
        invariant forall k :: 0 <= k < i ==> timers[k].id == id ==> !timers[k].active
      {
        if timers[i].active && timers[i].id == id {
          ReleaseTimer(timers, watches, nextId, log, busy, i);
          timers := timers[i := timers[i].(active := false)];
          log := log + [Release(id)];
          return;
        }
      }
    }

    method StartWatch(fd: int, cb: int, write: bool) returns (id: int)
      requires Valid()
      modifies this`watches, this`nextId
      ensures Valid() && id == old(nextId) && nextId == id + 1
      ensures watches == Placed(old(watches), FirstFree(old(watches)), Watch(id, fd, write, cb, true))
    {
      hide Good;
      var slot := 0;
      while slot < |watches| && watches[slot].active
        invariant 0 <= slot <= |watches| && forall j :: 0 <= j < slot ==> watches[j].active
      {
        slot := slot + 1;
      }
      FirstFreeIs(watches, slot);
      id := nextId;
      var w := Watch(id, fd, write, cb, true);
      RegisterWatch(timers, watches, nextId, log, busy, slot, w);
      watches := if slot == |watches| then watches + [w] else watches[slot := w];
      nextId := nextId + 1;
    }

    method StopWatch(id: int)
      requires Valid()
      modifies this`watches, this`log
      ensures Valid() && |watches| == |old(watches)|
      ensures forall i :: 0 <= i < |watches| ==>
                watches[i] == if old(watches)[i].id == id then old(watches)[i].(active := false) else old(watches)[i]
      ensures log == old(log) + if WatchLive(old(watches), id) then [Release(id)] else []
    {
      IdsDistinct(timers, watches, nextId, log, busy);
      hide Good;
      for i := 0 to |watches|
        invariant watches == old(watches) && log == old(log)
        invariant forall k :: 0 <= k < i ==> watches[k].id == id ==> !watches[k].active
      {
        if watches[i].active && watches[i].id == id {
          ReleaseWatch(timers, watches, nextId, log, busy, i);
          watches := watches[i := watches[i].(active := false)];
          log := log + [Release(id)];
          return;
        }
      }
    }

    /** Stops every watch on a descriptor, before its number is reused. */
    method StopFd(fd: int)
      requires Valid()
      modifies this`watches, this`log
      ensures Valid() && |watches| == |old(watches)| && old(log) <= log
      ensures forall i :: 0 <= i < |watches| ==>
                watches[i] == if old(watches)[i].fd == fd then old(watches)[i].(active := false) else old(watches)[i]
      ensures forall e :: e in log[|old(log)|..] ==> e.Release?
    {
      hide Good;
      for i := 0 to |watches|
        invariant Valid() && |watches| == |old(watches)| && old(log) <= log
        invariant forall k :: 0 <= k < |watches| ==>
                    watches[k] == if k < i && old(watches)[k].fd == fd then old(watches)[k].(active := false) else old(watches)[k]
        invariant forall e :: e in log[|old(log)|..] ==> e.Release?
      {
        if watches[i].active && watches[i].fd == fd {
          ReleaseWatch(timers, watches, nextId, log, busy, i);
          log := log + [Release(watches[i].id)];
          watches := watches[i := watches[i].(active := false)];
        }
      }
    }

    /** One registry call made by a callback. */
    method Do(act: Act)
      requires Valid()
      modifies this`timers, this`watches, this`nextId, this`log
      ensures Valid() && old(log) <= log && Fires(log) == Fires(old(log))
      ensures Kept(old(timers), old(watches), old(nextId), timers, watches, nextId)
      ensures forall i :: 0 <= i < |old(timers)| ==>
                (timers[i].active <==> old(timers)[i].active && act != CancelTimer(old(timers)[i].id))
      ensures Regs() == Apply(old(Regs()), act)
      ensures Standing(old(watches), watches, [act])
    {
      hide Good, Ids, FirstFree, Standing;
      ApplyStands(Regs(), act);
      IdsDistinct(timers, watches, nextId, log, busy);
      FiresSame(log, []);
      FiresSame(log, [Release(if act.CancelTimer? || act.CancelWatch? then act.id else 0)]);
      match act
      case AddTimer(now, delay, interval, cb) => var _ := StartTimer(now, delay, interval, cb);
      case CancelTimer(id) => StopTimer(id);
      case AddWatch(fd, cb, write) => var _ := StartWatch(fd, cb, write);
      case CancelWatch(id) => StopWatch(id);
      case CancelFd(fd) =>
        StopFd(fd);
        assert log == old(log) + log[|old(log)|..];
        FiresSame(old(log), log[|old(log)|..]);
    }

    /** Runs the next callback. */
    method Invoke()
      requires Valid()
      modifies this`timers, this`watches, this`nextId, this`log, this`calls
      ensures Valid() && calls == old(calls) + 1 && old(log) <= log && Fires(log) == Fires(old(log))
      ensures Kept(old(timers), old(watches), old(nextId), timers, watches, nextId)
      ensures forall i :: 0 <= i < |old(timers)| ==>
                (timers[i].active <==> old(timers)[i].active && CancelTimer(old(timers)[i].id) !in script(old(calls)))
      ensures Regs() == ApplyAll(old(Regs()), script(old(calls)))
      ensures Standing(old(watches), watches, script(old(calls)))
    {
      hide Good, Ids, Fires, Apply, Standing;
      var acts := script(calls);
      calls := calls + 1;
      ghost var t, w, n := timers, watches, nextId;
      KeptRefl(t, w, n);
      StandingNone(w);
      IdsDistinct(t, w, n, log, busy);
      for k := 0 to |acts|
        invariant Valid() && calls == old(calls) + 1 && old(log) <= log && Fires(log) == Fires(old(log))
        invariant Kept(t, w, n, timers, watches, nextId)
        invariant forall i :: 0 <= i < |t| ==> (timers[i].active <==> t[i].active && CancelTimer(t[i].id) !in acts[..k])
        invariant Regs() == ApplyAll(Reg(t, w, n), acts[..k]) && Standing(w, watches, acts[..k])
      {
        ghost var t1, w1, n1 := timers, watches, nextId;
        Do(acts[k]);
        KeptTrans(t, w, n, t1, w1, n1, timers, watches, nextId);
        assert acts[..k + 1] == acts[..k] + [acts[k]];
        ApplyMore(Reg(t, w, n), acts[..k], acts[k]);
        StandingMore(w, n, t1, w1, n1, timers, watches, nextId, acts[..k], acts[k]);
        forall i | 0 <= i < |t| ensures timers[i].active <==> t[i].active && CancelTimer(t[i].id) !in acts[..k + 1] {
          assert t1[i].id == t[i].id;
        }
      }
      assert acts[..|acts|] == acts;
    }

    /**
     Fires one active timer. A one-shot's reference is held until its callback returns. A
     repeating timer's is held across the callback exactly when the callback does not cancel it.
     */
    method FireTimer(i: nat)
      requires Valid() && busy == 0 && i < |timers| && timers[i].active
      modifies this`timers, this`watches, this`nextId, this`log, this`calls, this`busy
      ensures Valid() && busy == 0 && old(log) <= log
      ensures Fires(log) == Fires(old(log)) + [Firing(old(timers)[i])]
      ensures Firing(old(timers)[i]) == Fire(old(timers)[i].id, old(timers)[i].ticks + 1, old(timers)[i].cb, old(timers)[i].interval <= 0)
      ensures |old(timers)| <= |timers| && timers[i].id == old(timers)[i].id
      ensures forall k :: 0 <= k < |old(timers)| && k != i ==>
                timers[k] == old(timers)[k].(active := old(timers)[k].active && CancelTimer(old(timers)[k].id) !in script(old(calls)))
      ensures calls == old(calls) + 1 && Regs() == ApplyAll(TickAt(old(Regs()), i), script(old(calls)))
      ensures timers[i] == old(timers)[i].(ticks := old(timers)[i].ticks + 1,
                due := old(timers)[i].due + (if old(timers)[i].interval > 0 then old(timers)[i].interval * 1000000 else 0),
                active := old(timers)[i].interval > 0 && CancelTimer(old(timers)[i].id) !in script(old(calls)))
      ensures old(timers)[i].interval > 0 ==>
                (Release(timers[i].id) !in log <==> CancelTimer(timers[i].id) !in script(old(calls)))
    {
      hide Good, Ids, Fires;
      hide ApplyAll;
      var t := timers[i].(ticks := timers[i].ticks + 1);
      if t.interval > 0 {
        t := t.(due := t.due + t.interval * MS);
        TickTimer(timers, watches, nextId, log, i, t);
        FiresMore(log, Fire(t.id, t.ticks, t.cb, false));
        timers := timers[i := t];
        log := log + [Fire(t.id, t.ticks, t.cb, false)];
        Invoke();
        GoodIds(timers, watches, nextId, log, busy, i);
        TimerState(timers, watches, nextId, log, busy, i);
      } else {
        t := t.(active := false);
        StartOneShot(timers, watches, nextId, log, i, t);
        FiresMore(log, Fire(t.id, t.ticks, t.cb, true));
        timers := timers[i := t];
        log := log + [Fire(t.id, t.ticks, t.cb, true)];
        busy := t.id;
        GoodIds(timers, watches, nextId, log, busy, i);
        Invoke();
        FinishOneShot(timers, watches, nextId, log, busy);
        FiresSame(log, [Release(busy)]);
        log := log + [Release(busy)];
        busy := 0;
      }
    }

    /** Sorts timer indices by (due, id). */
    method Sort(due: array<nat>)
      requires forall k :: 0 <= k < due.Length ==> due[k] < |timers|
      modifies due
      ensures multiset(due[..]) == multiset(old(due[..]))
      ensures forall k :: 0 <= k < due.Length ==> due[k] < |timers|
      ensures forall a, b :: 0 <= a < b < due.Length ==> !Earlier(timers[due[b]], timers[due[a]])
    {
      for a := 0 to due.Length
        invariant multiset(due[..]) == multiset(old(due[..]))
        invariant forall k :: 0 <= k < due.Length ==> due[k] < |timers|
        invariant forall p, q :: 0 <= p < q < a ==> !Earlier(timers[due[q]], timers[due[p]])
      {
        Sink(due, a);
      }
    }

    /** Moves the element at position a down to its place among the sorted ones before it. */
    method Sink(due: array<nat>, a: nat)
      requires a < due.Length && forall k :: 0 <= k < due.Length ==> due[k] < |timers|
      requires forall p, q :: 0 <= p < q < a ==> !Earlier(timers[due[q]], timers[due[p]])
      modifies due
      ensures multiset(due[..]) == multiset(old(due[..]))
      ensures forall k :: 0 <= k < due.Length ==> due[k] < |timers|
      ensures forall p, q :: 0 <= p < q <= a ==> !Earlier(timers[due[q]], timers[due[p]])
    {
      hide Sinking;
      SinkStart(timers, due[..], a);
      var b := a;
      while b > 0
        invariant 0 <= b <= a && Sinking(timers, due[..], a, b)
        invariant multiset(due[..]) == multiset(old(due[..]))
        invariant forall k :: 0 <= k < due.Length ==> due[k] < |timers|
      {
        if !Earlier(timers[due[b]], timers[due[b - 1]]) { break; }
        SinkDown(timers, due[..], a, b);
        SwapDown(due, b);
        b := b - 1;
      }
      SinkEnd(timers, due[..], a, b);
    }

    method SwapDown(due: array<nat>, b: nat)
      requires 0 < b < due.Length
      modifies due
      ensures due[..] == Swapped(old(due[..]), b) && multiset(due[..]) == multiset(old(due[..]))
    {
      due[b], due[b - 1] := due[b - 1], due[b];
      assert due[..] == Swapped(old(due[..]), b);
    }

    /** The indices of the timers that are due. */
    method Collect(now: int) returns (due: array<nat>)
      ensures fresh(due)
      ensures Distinct(due[..]) && forall i :: i in due[..] <==> 0 <= i < |timers| && IsDue(timers[i], now)
    {
      var n := 0;
      for i := 0 to |timers|
        invariant n == |DueBelow(timers, now, i)|
      {
        if timers[i].active && timers[i].due <= now { n := n + 1; }
      }
      due := new nat[n];
      var k := 0;
      for i := 0 to |timers|
        invariant k == |DueBelow(timers, now, i)| <= n && n == |DueBelow(timers, now, |timers|)|
        invariant due[..k] == DueBelow(timers, now, i)
      {
        DueGrows(timers, now, i + 1, |timers|);
        if timers[i].active && timers[i].due <= now {
          due[k] := i;
          k := k + 1;
        }
      }
      assert due[..] == due[..k];
      DueIs(timers, now, |timers|);
    }

    /**
     The timer half of a batch. A timer fires, once, in (due, id) order and with its next tick,
     if and only if it was due at the start and no callback of an earlier firing cancels it.
     */
    method FireDue(now: int) returns (ghost hits: seq<nat>)
      requires Valid() && busy == 0
      modifies this`timers, this`watches, this`nextId, this`log, this`calls, this`busy
      ensures Valid() && busy == 0 && old(log) <= log
      ensures forall k :: 0 <= k < |hits| ==> hits[k] < |old(timers)|
      ensures forall k :: 0 <= k < |hits| ==> IsDue(old(timers)[hits[k]], now)
      ensures forall j, k :: 0 <= j < k < |hits| ==> Earlier(old(timers)[hits[j]], old(timers)[hits[k]])
      ensures Fires(log) == Fires(old(log)) + Firings(old(timers), hits)
      ensures forall i :: 0 <= i < |old(timers)| && IsDue(old(timers)[i], now) && i !in hits ==>
                Release(old(timers)[i].id) in log && Release(old(timers)[i].id) !in old(log)
      ensures forall i: nat :: FirstDue(old(timers), now, i) ==> hits != [] && hits[0] == i
      ensures calls == old(calls) + |hits| && Regs() == ApplyTurns(old(Regs()), script, old(calls), hits)
      ensures forall i: nat :: i < |old(timers)| ==>
                (i in hits <==> IsDue(old(timers)[i], now) && SparedEarlier(old(timers), script, old(calls), hits, i))
    {
      hide Good, Fires, Ids, FirstDue, Turn, Earlier, IsDue, Firing, ApplyTurns, Sparing, SparedEarlier;
      ghost var t := timers;
      IdsDistinct(timers, watches, nextId, log, busy);
      var due := SortedDue(now);
      ghost var d := due[..];
      TurnNone(t, d);
      hits := [];
      SparingNone(t, script, calls, d);
      NoTurns(Regs(), script, calls);
      for k := 0 to due.Length
        invariant Valid() && busy == 0 && old(log) <= log && due[..] == d
        invariant calls == old(calls) + |hits| && Regs() == ApplyTurns(old(Regs()), script, old(calls), hits)
        invariant Sparing(t, timers, script, old(calls), d, k, hits)
        invariant Turn(t, timers, d, k, hits)
        invariant forall j :: 0 <= j < |hits| ==> hits[j] < |t|
        invariant Fires(log) == Fires(old(log)) + Firings(t, hits)
      {
        assert due[k] == d[k];
        hits := TakeTurn(due[k], t, d, k, hits, old(log), old(Regs()), old(calls));
      }
      SparingEnd(t, timers, script, old(calls), d, hits);
      TurnEnd(t, timers, d, hits);
      forall i | 0 <= i < |t| && IsDue(t[i], now) && i !in hits
        ensures Release(t[i].id) in log && Release(t[i].id) !in old(log)
      {
        DueIsActive(t[i], now);
        GoodIds(t, old(watches), old(nextId), old(log), 0, i);
        TimerState(t, old(watches), old(nextId), old(log), 0, i);
        TimerState(timers, watches, nextId, log, 0, i);
      }
      forall i: nat | FirstDue(t, now, i) ensures hits != [] && hits[0] == i {
        FirstIsFirst(t, now, d, i);
      }
      forall k | 0 <= k < |hits| ensures IsDue(t[hits[k]], now) {
        assert hits[k] in hits && hits[k] in d;
      }
      forall i: nat | i < |t| ensures i in hits <==> IsDue(t[i], now) && SparedEarlier(t, script, old(calls), hits, i) {
        assert i in d <==> IsDue(t[i], now);
      }
    }

    /** The due timers in firing order. */
    method SortedDue(now: int) returns (due: array<nat>)
      requires Valid()
      ensures fresh(due)
      ensures forall i :: i in due[..] <==> 0 <= i < |timers| && IsDue(timers[i], now)
      ensures forall k :: 0 <= k < due.Length ==> due[k] < |timers|
      ensures forall a, b :: 0 <= a < b < due.Length ==> Earlier(timers[due[..][a]], timers[due[..][b]])
      ensures forall k :: 0 <= k < due.Length ==> timers[due[..][k]].active
    {
      IdsDistinct(timers, watches, nextId, log, busy);
      hide Good, Earlier;
      due := Collect(now);
      ghost var found := due[..];
      forall k | 0 <= k < due.Length ensures due[k] < |timers| {
        assert due[k] in due[..];
      }
      Sort(due);
      SortedStrictly(timers, found, due[..]);
      forall k | 0 <= k < due.Length ensures timers[due[..][k]].active {
        assert due[..][k] in due[..];
      }
    }

    /** The k-th due timer fires if it is still active. */
    method TakeTurn(i: nat, ghost t: seq<Timer>, ghost d: seq<nat>, ghost k: nat, ghost hits: seq<nat>, ghost log0: seq<Event>,
                    ghost r: Reg, ghost c: nat)
      returns (ghost hits': seq<nat>)
      requires Valid() && busy == 0 && log0 <= log && k < |d| && d[k] == i && Turn(t, timers, d, k, hits)
      requires forall j :: 0 <= j < |d| ==> d[j] < |t|
      requires forall j :: 0 <= j < |hits| ==> hits[j] < |t|
      requires forall a, b :: 0 <= a < b < |d| ==> Earlier(t[d[a]], t[d[b]])
      requires forall j :: 0 <= j < |d| ==> t[d[j]].active
      requires Fires(log) == Fires(log0) + Firings(t, hits)
      requires calls == c + |hits| && Regs() == ApplyTurns(r, script, c, hits) && Sparing(t, timers, script, c, d, k, hits)
      modifies this`timers, this`watches, this`nextId, this`log, this`calls, this`busy
      ensures Valid() && busy == 0 && log0 <= log && Turn(t, timers, d, k + 1, hits')
      ensures forall j :: 0 <= j < |hits'| ==> hits'[j] < |t|
      ensures Fires(log) == Fires(log0) + Firings(t, hits')
      ensures calls == c + |hits'| && Regs() == ApplyTurns(r, script, c, hits') && Sparing(t, timers, script, c, d, k + 1, hits')
    {
      hide Good, Fires, Turn, Earlier, Firing, ApplyTurns, ApplyAll, Sparing;
      hits' := hits;
      TurnAt(t, timers, d, k, hits);
      TurnIds(t, timers, d, k, hits);
      if timers[i].active {
        ghost var before := timers;
        FireTimer(i);
        TurnFired(t, before, timers, d, k, hits);
        FiringsMore(t, hits, i);
        MoreTurns(r, script, c, hits, i);
        SparingFired(t, before, timers, script, c, d, k, hits);
        hits' := hits + [i];
      } else {
        SparingSkipped(t, timers, script, c, d, k, hits);
        TurnSkipped(t, timers, d, k, hits);
      }
    }

    /** The ids of the watches handed to poll. */
    method PollSet() returns (owner: seq<int>)
      requires Valid()
      ensures forall id :: id in owner <==> WatchLive(watches, id)
      ensures forall j, k :: 0 <= j < k < |owner| ==> owner[j] != owner[k]
      ensures InSlotOrder(watches, owner)
    {
      IdsDistinct(timers, watches, nextId, log, busy);
      hide Good, InSlotOrder, NoneBeyond, WatchLive;
      NothingListed(watches);
      owner := [];
      for i := 0 to |watches|
        invariant forall id :: id in owner <==> WatchLive(watches[..i], id)
        invariant forall j, k :: 0 <= j < k < |owner| ==> owner[j] != owner[k]
        invariant InSlotOrder(watches, owner) && NoneBeyond(watches, owner, i)
      {
        LiveStep(watches, i);
        SlotNext(watches, owner, i);
        SlotSkip(watches, owner, i);
        forall j | 0 <= j < |owner| ensures owner[j] != watches[i].id {
          assert owner[j] in owner && WatchLive(watches[..i], owner[j]);
        }
        if watches[i].active { owner := owner + [watches[i].id]; }
      }
      assert watches[..|watches|] == watches;
    }

    /**
     The watch half: the ids reported ready fire at most once each, in order, with the
     descriptor and callback they were polled with, whatever slots were reused meanwhile;
     one fires if and only if no callback of an id before it cancels it.
     */
    method FireReady(ids: seq<int>) returns (ghost hits: seq<nat>, ghost fires: seq<Event>)
      requires Valid() && busy == 0
      requires forall k :: 0 <= k < |ids| ==> WatchLive(watches, ids[k])
      modifies this`timers, this`watches, this`nextId, this`log, this`calls
      ensures Valid() && old(log) <= log && Fires(log) == Fires(old(log)) + fires
      ensures Kept(old(timers), old(watches), old(nextId), timers, watches, nextId)
      ensures AsPolled(old(watches), ids, |ids|, hits, fires)
      ensures RestReleased(ids, |ids|, hits, log)
      ensures ids != [] ==> hits != [] && hits[0] == 0
      ensures Regs() == ApplyScripts(old(Regs()), script, old(calls), |hits|) && calls == old(calls) + |hits|
      ensures PolledWhen(old(watches), ids, |ids|, hits, script, old(calls))
    {
      hide Good, Fires, Ids, WatchLive, Kept, Polling, AsPolled, RestReleased, ApplyScripts, PolledWhen, Stands;
      ghost var t, w, n := timers, watches, nextId;
      GoodHasIds(t, w, n, log, busy);
      KeptRefl(t, w, n);
      hits, fires := [], [];
      PollingNone(w, ids, log);
      NoScripts(Regs(), script, calls);
      WhenNone(w, ids, script, calls);
      for k := 0 to |ids|
        invariant Valid() && busy == 0 && MidPoll(t, w, n, ids, k, hits, fires, old(log), old(calls))
      {
        hits, fires := FireNext(ids, k, t, w, n, hits, fires, old(log), old(calls));
      }
      PollingMeans(w, ids, hits, fires, old(log), log);
    }

    /** How the loop over the ready ids stands. */
    ghost predicate MidPoll(t: seq<Timer>, w: seq<Watch>, n: int, ids: seq<int>, k: nat, hits: seq<nat>, fires: seq<Event>, log0: seq<Event>, c: nat)
      reads this
    {
      && Kept(t, w, n, timers, watches, nextId) && (k == 0 ==> watches == w)
      && Polling(w, ids, k, hits, fires, log0, log)
      && calls == c + |hits| && Regs() == ApplyScripts(Reg(t, w, n), script, c, |hits|)
      && PolledWhen(w, ids, k, hits, script, c) && Stands(w, watches, script, c, |hits|)
    }

    method FireNext(ids: seq<int>, k: nat, ghost t: seq<Timer>, ghost w: seq<Watch>, ghost n: int, ghost hits: seq<nat>,
                    ghost fires: seq<Event>, ghost log0: seq<Event>, ghost c: nat)
      returns (ghost hits': seq<nat>, ghost fires': seq<Event>)
      requires Valid() && busy == 0 && MidPoll(t, w, n, ids, k, hits, fires, log0, c)
      requires k < |ids| && WatchLive(w, ids[k]) && Ids(t, w, n)
      modifies this`timers, this`watches, this`nextId, this`log, this`calls
      ensures Valid() && MidPoll(t, w, n, ids, k + 1, hits', fires', log0, c)
    {
      hide Good, Fires, Ids, WatchLive, Kept, Polling, ApplyScripts, ApplyAll, PolledAs, PolledWhen, Stands, Standing;
      ghost var before, t1, w1, n1 := log, timers, watches, nextId;
      LiveStands(t, w, n, t1, w1, n1, script, c, |hits|, ids[k]);
      PollingHits(w, ids, k, hits, fires, log0, log);
      ghost var did, e := FireOne(ids[k], t, w, n);
      WhenMore(w, ids, k, hits, script, c, did);
      if did { StandsMore(t, w, n, t1, w1, n1, timers, watches, nextId, script, c, |hits|); }
      PollingMore(w, ids, k, hits, fires, log0, before, log, did, e);
      MoreScripts(Reg(t, w, n), script, c, |hits|);
      hits', fires' := hits, fires;
      if did { hits', fires' := hits + [k], fires + [e]; }
    }

    /** Finds the watch with this id, if it is still registered, and runs its callback. */
    method FireOne(id: int, ghost t: seq<Timer>, ghost w: seq<Watch>, ghost n: int) returns (did: bool, ghost e: Event)
      requires Valid() && busy == 0 && WatchLive(w, id) && Ids(t, w, n)
      requires Kept(t, w, n, timers, watches, nextId)
      modifies this`timers, this`watches, this`nextId, this`log, this`calls
      ensures Valid() && old(log) <= log && Kept(t, w, n, timers, watches, nextId)
      ensures did ==> PolledAs(w, id, e) && Fires(log) == Fires(old(log)) + [e]
      ensures !did ==> Fires(log) == Fires(old(log)) && Release(id) in log && Regs() == old(Regs()) && calls == old(calls)
      ensures did ==> Regs() == ApplyAll(old(Regs()), script(old(calls))) && calls == old(calls) + 1
      ensures did <==> WatchLive(old(watches), id)
      ensures did ==> Kept(old(timers), old(watches), old(nextId), timers, watches, nextId)
      ensures did ==> Standing(old(watches), watches, script(old(calls)))
    {
      hide Good, Fires, Ids, ApplyAll, Standing;
      for i := 0 to |watches|
        invariant Valid() && log == old(log) && timers == old(timers) && watches == old(watches) && nextId == old(nextId) && calls == old(calls)
        invariant forall k :: 0 <= k < i && watches[k].id == id ==> !watches[k].active
      {
        if watches[i].active && watches[i].id == id {
          e := Fire(id, watches[i].fd, watches[i].cb, false);
          IdIssued(t, w, n, id);
          assert PolledAs(w, id, e);
          FireWatch(timers, watches, nextId, log, i);
          FiresMore(log, e);
          log := log + [e];
          ghost var t1, w1, n1 := timers, watches, nextId;
          Invoke();
          KeptTrans(t, w, n, t1, w1, n1, timers, watches, nextId);
          return true, e;
        }
      }
      GoneIsReleased(timers, watches, nextId, log, id, t, w, n);
      did, e := false, Release(id);
    }

    /**
     One batch; `ready` and `dead` are the ids poll reported, `now` the time after it. The callbacks
     run are those of ready watches, then those of due timers as the watch half left them (`mid`),
     each unless a callback before it in the batch cancels it; what the registries hold afterwards is
     exact; every dead watch has lost its registry reference.
     */
    method Step(ready: set<int>, dead: set<int>, now: int)
      returns (ghost ids: seq<int>, ghost hits: seq<nat>, ghost fires: seq<Event>, ghost mid: seq<Timer>, ghost timed: seq<nat>)
      requires Valid() && busy == 0
      modifies this`timers, this`watches, this`nextId, this`log, this`calls, this`busy
      ensures Valid() && busy == 0 && old(log) <= log
      ensures forall id :: id in ids <==> id in ready && WatchLive(old(watches), id)
      ensures forall j, k :: 0 <= j < k < |ids| ==> ids[j] != ids[k]
      ensures AsPolled(old(watches), ids, |ids|, hits, fires) && RestReleased(ids, |ids|, hits, log)
      ensures |old(timers)| <= |mid| && forall i :: 0 <= i < |old(timers)| ==> mid[i] == old(timers)[i] || mid[i] == old(timers)[i].(active := false)
      ensures forall k :: 0 <= k < |timed| ==> timed[k] < |mid|
      ensures forall k :: 0 <= k < |timed| ==> IsDue(mid[timed[k]], now)
      ensures forall j, k :: 0 <= j < k < |timed| ==> Earlier(mid[timed[j]], mid[timed[k]])
      ensures forall j, k :: 0 <= j < k < |timed| ==>
                mid[timed[j]].due < mid[timed[k]].due || (mid[timed[j]].due == mid[timed[k]].due && mid[timed[j]].id < mid[timed[k]].id)
      ensures forall k :: 0 <= k < |timed| ==> mid[timed[k]].active && mid[timed[k]].due <= now
      ensures forall i :: 0 <= i < |mid| ==> (IsDue(mid[i], now) <==> mid[i].active && mid[i].due <= now)
      ensures Fires(log) == Fires(old(log)) + fires + Firings(mid, timed)
      ensures forall i :: 0 <= i < |mid| && IsDue(mid[i], now) && i !in timed ==> Release(mid[i].id) in log
      ensures forall id :: id in dead && WatchLive(old(watches), id) ==> Release(id) in log
      ensures ids != [] ==> hits != [] && hits[0] == 0
      ensures InSlotOrder(old(watches), ids)
      ensures mid == ApplyScripts(old(Regs()), script, old(calls), |hits|).timers
      ensures PolledWhen(old(watches), ids, |ids|, hits, script, old(calls))
      ensures forall i: nat :: i < |mid| ==>
                (i in timed <==> IsDue(mid[i], now) && SparedEarlier(mid, script, old(calls) + |hits|, timed, i))
      ensures calls == old(calls) + |hits| + |timed|
      ensures Regs() == ApplyTurns(Retired(ApplyScripts(old(Regs()), script, old(calls), |hits|), old(watches), dead),
                                   script, old(calls) + |hits|, timed)
      ensures forall i: nat :: FirstDue(mid, now, i) ==> timed != [] && timed[0] == i
      ensures forall i :: 0 <= i < |mid| ==> (i in timed <==> FiredSince(old(log), log, mid[i].id))
    {
      hide Good, Fires, WatchLive, AsPolled, RestReleased, Ids, Earlier, IsDue, Firing, FirstDue, ApplyScripts, FiredSince, Firings, PolledWhen, SparedEarlier, ApplyTurns, InSlotOrder;
      GoodHasIds(timers, watches, nextId, log, busy);
      var owner := PollSet();
      var readyIds, deadIds := Chosen(owner, ready), Chosen(owner, dead);
      ChosenDistinct(owner, ready);
      ChosenOrder(watches, owner, ready);
      ids := readyIds;
      hits, fires := FireReady(readyIds);
      ghost var log1, watchesMid, nextMid := log, watches, nextId;
      GoodHasIds(timers, watches, nextId, log, busy);
      Retire(deadIds, old(timers), old(watches), old(nextId));
      RestMono(ids, |ids|, hits, log1, log);
      assert Regs() == Retired(Reg(timers, watchesMid, nextId), old(watches), dead);
      mid := timers;
      ghost var log2 := log;
      timed := FireDue(now);
      RestMono(ids, |ids|, hits, log2, log);
      forall id | id in dead && WatchLive(old(watches), id) ensures Release(id) in log {
        assert id in deadIds && Release(id) in log2;
      }
      MidIds(old(timers), old(watches), old(nextId), mid, watchesMid, nextMid);
      InDueOrder(mid, timed, now);
      forall i | 0 <= i < |mid| ensures i in timed <==> FiredSince(old(log), log, mid[i].id) {
        FiredTimer(old(log), log, old(watches), mid, ids, hits, fires, timed, i);
      }
    }

    /** Retires the watches whose descriptor poll found dead. */
    method Retire(ids: seq<int>, ghost t: seq<Timer>, ghost w: seq<Watch>, ghost n: int)
      requires Valid() && busy == 0 && Ids(t, w, n) && Kept(t, w, n, timers, watches, nextId)
      requires forall k :: 0 <= k < |ids| ==> WatchLive(w, ids[k])
      modifies this`watches, this`log
      ensures Valid() && old(log) <= log && Fires(log) == Fires(old(log))
      ensures forall id :: id in ids ==> Release(id) in log
      ensures |watches| == |old(watches)| && forall i :: 0 <= i < |watches| ==>
                watches[i] == if old(watches)[i].id in ids then old(watches)[i].(active := false) else old(watches)[i]
    {
      hide Good, Fires, Ids, WatchLive, Kept;
      for k := 0 to |ids|
        invariant Valid() && old(log) <= log && Fires(log) == Fires(old(log)) && Kept(t, w, n, timers, watches, nextId)
        invariant forall j :: 0 <= j < k ==> Release(ids[j]) in log
        invariant |watches| == |old(watches)| && forall i :: 0 <= i < |watches| ==>
                    watches[i] == if old(watches)[i].id in ids[..k] then old(watches)[i].(active := false) else old(watches)[i]
      {
        ghost var w1 := watches;
        if !WatchLive(watches, ids[k]) { NotLive(watches, ids[k]); GoneIsReleased(timers, watches, nextId, log, ids[k], t, w, n); }
        FiresSame(log, []);
        FiresSame(log, [Release(ids[k])]);
        StopWatch(ids[k]);
        KeptStopped(t, w, n, timers, w1, watches, nextId);
        assert ids[..k + 1] == ids[..k] + [ids[k]];
      }
      assert ids[..|ids|] == ids;
    }
  }

  // -------------------------------------------------- who is cancelled, and when

  lemma ApplyStands(r: Reg, act: Act)
    ensures Standing(r.watches, Apply(r, act).watches, [act])
  {
    hide FirstFree;
  }

  lemma StandingNone(w: seq<Watch>)
    ensures Standing(w, w, [])
  {
  }

  /** A slot that holds the watch again after a step held it before: new watches get new ids. */
  lemma SlotBack(w: seq<Watch>, n: int, t1: seq<Timer>, w1: seq<Watch>, n1: int, t2: seq<Timer>, w2: seq<Watch>, n2: int, j: nat)
    requires j < |w| <= |w1| && w[j].active && w[j].id < n <= n1 && Kept(t1, w1, n1, t2, w2, n2)
    ensures j < |w2| && (w2[j] == w[j] ==> w1[j] == w[j])
  {
  }

  lemma StandingMore(w: seq<Watch>, n: int, t1: seq<Timer>, w1: seq<Watch>, n1: int, t2: seq<Timer>, w2: seq<Watch>, n2: int, acts: seq<Act>, act: Act)
    requires Standing(w, w1, acts) && Standing(w1, w2, [act]) && n <= n1 && Kept(t1, w1, n1, t2, w2, n2)
    requires forall j :: 0 <= j < |w| ==> w[j].id < n
    ensures Standing(w, w2, acts + [act])
  {
    hide Kept;
    forall j | 0 <= j < |w| && w[j].active ensures w2[j] == w[j] <==> !Drops(acts + [act], w[j]) {
      SlotBack(w, n, t1, w1, n1, t2, w2, n2, j);
    }
  }

  lemma StandsMore(t: seq<Timer>, w: seq<Watch>, n: int, t1: seq<Timer>, w1: seq<Watch>, n1: int, t2: seq<Timer>, w2: seq<Watch>, n2: int,
                   script: nat -> seq<Act>, c: nat, k: nat)
    requires Ids(t, w, n) && Kept(t, w, n, t1, w1, n1) && Kept(t1, w1, n1, t2, w2, n2)
    requires Stands(w, w1, script, c, k) && Standing(w1, w2, script(c + k))
    ensures Stands(w, w2, script, c, k + 1)
  {
    hide Drops;
    forall j | 0 <= j < |w| && w[j].active ensures w2[j] == w[j] <==> Spares(script, c, k + 1, w[j]) {
      SlotBack(w, n, t1, w1, n1, t2, w2, n2, j);
      SparesMore(script, c, k, w[j]);
    }
  }

  lemma SparesMore(script: nat -> seq<Act>, c: nat, k: nat, x: Watch)
    ensures Spares(script, c, k + 1, x) <==> Spares(script, c, k, x) && !Drops(script(c + k), x)
  {
    hide Drops;
    forall m: nat | Spares(script, c, k, x) && !Drops(script(c + k), x) && c <= m < c + k + 1 ensures !Drops(script(m), x) {
      if m == c + k { assert script(m) == script(c + k); }
    }
  }

  /** A polled watch is still registered exactly when no callback so far cancelled it. */
  lemma LiveStands(t: seq<Timer>, w: seq<Watch>, n: int, t1: seq<Timer>, w1: seq<Watch>, n1: int, script: nat -> seq<Act>, c: nat, k: nat, id: int)
    requires Ids(t, w, n) && Kept(t, w, n, t1, w1, n1) && Stands(w, w1, script, c, k)
    ensures forall m: nat :: m < |w| && w[m].active && w[m].id == id ==> (WatchLive(w1, id) <==> Spares(script, c, k, w[m]))
  {
    hide Spares;
    forall m: nat | m < |w| && w[m].active && w[m].id == id ensures WatchLive(w1, id) <==> Spares(script, c, k, w[m]) {
      if Spares(script, c, k, w[m]) { assert w1[m].active; }
      if WatchLive(w1, id) {
        var j :| 0 <= j < |w1| && w1[j].id == id && w1[j].active;
        assert j < |w| && w[j] == w1[j];
        assert j == m;
      }
    }
  }

  lemma WhenNone(w: seq<Watch>, ids: seq<int>, script: nat -> seq<Act>, c: nat)
    ensures PolledWhen(w, ids, 0, [], script, c) && Stands(w, w, script, c, 0)
  {
  }

  lemma PollingHits(w: seq<Watch>, ids: seq<int>, k: nat, hits: seq<nat>, fires: seq<Event>, log0: seq<Event>, log: seq<Event>)
    requires Polling(w, ids, k, hits, fires, log0, log)
    ensures forall j :: 0 <= j < |hits| ==> hits[j] < k
  {
  }

  lemma WhenMore(w: seq<Watch>, ids: seq<int>, k: nat, hits: seq<nat>, script: nat -> seq<Act>, c: nat, did: bool)
    requires PolledWhen(w, ids, k, hits, script, c) && k < |ids| && forall j :: 0 <= j < |hits| ==> hits[j] < k
    requires forall m: nat :: m < |w| && w[m].active && w[m].id == ids[k] ==> (did <==> Spares(script, c, |hits|, w[m]))
    ensures PolledWhen(w, ids, k + 1, if did then hits + [k] else hits, script, c)
  {
    var hits' := if did then hits + [k] else hits;
    forall j: nat, m: nat | j < k + 1 && m < |w| && w[m].active && w[m].id == ids[j]
      ensures j in hits' <==> SparedBefore(w[m], script, c, hits', j)
    {
      SparedMore(w[m], script, c, hits, k, j);
      if j == k { SparedAll(w[m], script, c, hits, k); }
    }
  }

  lemma SparedMore(x: Watch, script: nat -> seq<Act>, c: nat, hits: seq<nat>, k: nat, j: nat)
    requires j <= k
    ensures SparedBefore(x, script, c, hits + [k], j) <==> SparedBefore(x, script, c, hits, j)
  {
    hide Drops;
    var more := hits + [k];
    if SparedBefore(x, script, c, more, j) {
      forall q | 0 <= q < |hits| && hits[q] < j ensures !Drops(script(c + q), x) {
        assert more[q] == hits[q];
      }
    }
  }

  lemma SparedAll(x: Watch, script: nat -> seq<Act>, c: nat, hits: seq<nat>, k: nat)
    requires forall j :: 0 <= j < |hits| ==> hits[j] < k
    ensures SparedBefore(x, script, c, hits, k) <==> Spares(script, c, |hits|, x)
  {
    hide Drops;
    if SparedBefore(x, script, c, hits, k) {
      forall m: nat | c <= m < c + |hits| ensures !Drops(script(m), x) {
        assert hits[m - c] < k && m == c + (m - c);
      }
    }
  }

  lemma NoTurns(r: Reg, script: nat -> seq<Act>, c: nat)
    ensures ApplyTurns(r, script, c, []) == r
  {
  }

  lemma MoreTurns(r: Reg, script: nat -> seq<Act>, c: nat, hits: seq<nat>, i: nat)
    ensures ApplyTurns(r, script, c, hits + [i]) == ApplyAll(TickAt(ApplyTurns(r, script, c, hits), i), script(c + |hits|))
  {
    assert (hits + [i])[..|hits|] == hits;
  }

  /**
   After the first k due timers: a timer that has not fired is on exactly when no callback so far
   cancelled it, and those of the first k that fired are the ones spared by the callbacks before them.
   */
  ghost predicate Sparing(t: seq<Timer>, timers: seq<Timer>, script: nat -> seq<Act>, c: nat, d: seq<nat>, k: nat, hits: seq<nat>) {
    && |t| <= |timers| && k <= |d| && (forall q :: 0 <= q < |hits| ==> hits[q] < |t|)
    && (forall i: nat :: i < |t| && i !in hits ==> (timers[i].active <==> t[i].active && SparesTimer(script, c, |hits|, t[i].id)))
    && (forall p :: 0 <= p < k ==> d[p] < |t| && (d[p] in hits <==> SparedEarlier(t, script, c, hits, d[p])))
  }

  lemma SparingNone(t: seq<Timer>, script: nat -> seq<Act>, c: nat, d: seq<nat>)
    ensures Sparing(t, t, script, c, d, 0, [])
  {
  }

  lemma SparingEnd(t: seq<Timer>, timers: seq<Timer>, script: nat -> seq<Act>, c: nat, d: seq<nat>, hits: seq<nat>)
    requires Sparing(t, timers, script, c, d, |d|, hits)
    ensures forall q :: 0 <= q < |hits| ==> hits[q] < |t|
    ensures forall i: nat :: i in d ==> i < |t| && (i in hits <==> SparedEarlier(t, script, c, hits, i))
  {
    hide SparedEarlier;
  }

  lemma TurnIds(t: seq<Timer>, timers: seq<Timer>, d: seq<nat>, k: nat, hits: seq<nat>)
    requires Turn(t, timers, d, k, hits)
    ensures |t| <= |timers| && forall i :: 0 <= i < |t| ==> timers[i].id == t[i].id
  {
  }

  /** At its turn a timer comes after all that fired, so it is on exactly when it was spared. */
  lemma SparedTurn(t: seq<Timer>, script: nat -> seq<Act>, c: nat, hits: seq<nat>, i: nat)
    requires i < |t| && forall q :: 0 <= q < |hits| ==> hits[q] < |t|
    requires forall q :: 0 <= q < |hits| ==> Earlier(t[hits[q]], t[i])
    ensures SparedEarlier(t, script, c, hits, i) <==> SparesTimer(script, c, |hits|, t[i].id)
  {
    hide Earlier;
    if SparedEarlier(t, script, c, hits, i) {
      forall m: nat | c <= m < c + |hits| ensures CancelTimer(t[i].id) !in script(m) {
        assert hits[m - c] < |t| && m == c + (m - c);
      }
    }
  }

  lemma SparedLater(t: seq<Timer>, script: nat -> seq<Act>, c: nat, hits: seq<nat>, i: nat, x: nat)
    requires i < |t| && x < |t| && (forall q :: 0 <= q < |hits| ==> hits[q] < |t|) && !Earlier(t[x], t[i])
    ensures SparedEarlier(t, script, c, hits + [x], i) <==> SparedEarlier(t, script, c, hits, i)
  {
    hide Earlier;
    var more := hits + [x];
    if SparedEarlier(t, script, c, more, i) {
      forall q | 0 <= q < |hits| && Earlier(t[hits[q]], t[i]) ensures CancelTimer(t[i].id) !in script(c + q) {
        assert more[q] == hits[q];
      }
    }
  }

  lemma SparingSkipped(t: seq<Timer>, timers: seq<Timer>, script: nat -> seq<Act>, c: nat, d: seq<nat>, k: nat, hits: seq<nat>)
    requires Sparing(t, timers, script, c, d, k, hits) && k < |d| && d[k] < |t| && d[k] !in hits && t[d[k]].active && !timers[d[k]].active
    requires forall q :: 0 <= q < |hits| ==> Earlier(t[hits[q]], t[d[k]])
    ensures Sparing(t, timers, script, c, d, k + 1, hits)
  {
    hide Earlier, SparesTimer, SparedEarlier;
    SparedTurn(t, script, c, hits, d[k]);
  }

  lemma SparingFired(t: seq<Timer>, before: seq<Timer>, after: seq<Timer>, script: nat -> seq<Act>, c: nat, d: seq<nat>, k: nat, hits: seq<nat>)
    requires Sparing(t, before, script, c, d, k, hits) && k < |d| && d[k] < |t| && d[k] !in hits && before[d[k]].active && t[d[k]].active
    requires forall q :: 0 <= q < |hits| ==> Earlier(t[hits[q]], t[d[k]])
    requires forall a, b :: 0 <= a < b < |d| ==> d[a] < |t| && d[b] < |t| && Earlier(t[d[a]], t[d[b]])
    requires |before| <= |after| && forall i :: 0 <= i < |t| ==> before[i].id == t[i].id
    requires forall i :: 0 <= i < |before| && i != d[k] ==>
               after[i] == before[i].(active := before[i].active && CancelTimer(before[i].id) !in script(c + |hits|))
    ensures Sparing(t, after, script, c, d, k + 1, hits + [d[k]])
  {
    hide Earlier, SparesTimer, SparedEarlier;
    var hits' := hits + [d[k]];
    forall i: nat | i < |t| && i !in hits' ensures after[i].active <==> t[i].active && SparesTimer(script, c, |hits'|, t[i].id) {
      assert i !in hits && i != d[k];
      TimerMore(script, c, |hits|, t[i].id);
    }
    forall p | 0 <= p < k + 1 ensures d[p] < |t| && (d[p] in hits' <==> SparedEarlier(t, script, c, hits', d[p])) {
      if p < k {
        NotBoth(t[d[p]], t[d[k]]);
        assert d[p] != d[k];
      } else {
        NotBoth(t[d[k]], t[d[k]]);
        SparedTurn(t, script, c, hits, d[k]);
      }
      SparedLater(t, script, c, hits, d[p], d[k]);
    }
  }

  lemma TimerMore(script: nat -> seq<Act>, c: nat, k: nat, id: int)
    ensures SparesTimer(script, c, k + 1, id) <==> SparesTimer(script, c, k, id) && CancelTimer(id) !in script(c + k)
  {
    forall m: nat | SparesTimer(script, c, k, id) && CancelTimer(id) !in script(c + k) && c <= m < c + k + 1 ensures CancelTimer(id) !in script(m) {
      if m == c + k { assert script(m) == script(c + k); }
    }
  }

  lemma InDueOrder(mid: seq<Timer>, timed: seq<nat>, now: int)
    requires forall k :: 0 <= k < |timed| ==> timed[k] < |mid|
    requires forall k :: 0 <= k < |timed| ==> IsDue(mid[timed[k]], now)
    requires forall j, k :: 0 <= j < k < |timed| ==> Earlier(mid[timed[j]], mid[timed[k]])
    ensures forall j, k :: 0 <= j < k < |timed| ==>
              mid[timed[j]].due < mid[timed[k]].due || (mid[timed[j]].due == mid[timed[k]].due && mid[timed[j]].id < mid[timed[k]].id)
    ensures forall k :: 0 <= k < |timed| ==> mid[timed[k]].active && mid[timed[k]].due <= now
    ensures forall i :: 0 <= i < |mid| ==> (IsDue(mid[i], now) <==> mid[i].active && mid[i].due <= now)
  {
  }

  /** A callback of this id ran between the two logs. */
  ghost predicate FiredSince(log0: seq<Event>, log: seq<Event>, id: int) {
    exists k :: |Fires(log0)| <= k < |Fires(log)| && Fires(log)[k].id == id
  }

  lemma GoodHasIds(t: seq<Timer>, w: seq<Watch>, n: int, log: seq<Event>, busy: int)
    requires Good(t, w, n, log, busy)
    ensures Ids(t, w, n)
  {
  }

  /** Timers present in mid-batch share no id with each other or with the watches polled. */
  lemma MidIds(t: seq<Timer>, w: seq<Watch>, n: int, mid: seq<Timer>, w': seq<Watch>, n': int)
    requires Ids(t, w, n) && Kept(t, w, n, mid, w', n') && Ids(mid, w', n')
    ensures forall i, k :: 0 <= i < k < |mid| ==> mid[i].id < mid[k].id
    ensures forall i, j :: 0 <= i < |mid| && 0 <= j < |w| ==> mid[i].id != w[j].id
  {
    forall i, j | 0 <= i < |mid| && 0 <= j < |w| ensures mid[i].id != w[j].id {
      if i < |t| { assert mid[i].id == t[i].id; }
    }
  }

  /** The timers whose callback ran in the batch are exactly those in `timed`. */
  lemma FiredTimer(log0: seq<Event>, log: seq<Event>, w: seq<Watch>, mid: seq<Timer>, ids: seq<int>, hits: seq<nat>, fires: seq<Event>,
                   timed: seq<nat>, i: nat)
    requires AsPolled(w, ids, |ids|, hits, fires) && i < |mid|
    requires forall j, k :: 0 <= j < k < |mid| ==> mid[j].id < mid[k].id
    requires forall j, k :: 0 <= j < |mid| && 0 <= k < |w| ==> mid[j].id != w[k].id
    requires forall k :: 0 <= k < |timed| ==> timed[k] < |mid|
    requires Fires(log) == Fires(log0) + fires + Firings(mid, timed)
    ensures i in timed <==> FiredSince(log0, log, mid[i].id)
  {
    hide Fires;
    var f, g, m := Fires(log0), Fires(log), |Fires(log0)| + |fires|;
    if i in timed {
      var k :| 0 <= k < |timed| && timed[k] == i;
      assert g[m + k] == Firings(mid, timed)[k] == Firing(mid[i]);
    }
    if FiredSince(log0, log, mid[i].id) {
      var k :| |f| <= k < |g| && g[k].id == mid[i].id;
      WatchFires(w, ids, hits, fires, mid[i].id);
      JoinAt(f, fires, Firings(mid, timed), k, mid[i].id);
      var q := k - m;
      assert g[k] == Firings(mid, timed)[q] == Firing(mid[timed[q]]);
      assert timed[q] == i;
    }
  }

  lemma JoinAt(f: seq<Event>, fires: seq<Event>, more: seq<Event>, k: nat, id: int)
    requires |f| <= k < |f| + |fires| + |more| && (f + fires + more)[k].id == id
    requires forall q :: 0 <= q < |fires| ==> fires[q].id != id
    ensures k >= |f| + |fires|
  {
  }

  lemma WatchFires(w: seq<Watch>, ids: seq<int>, hits: seq<nat>, fires: seq<Event>, id: int)
    requires AsPolled(w, ids, |ids|, hits, fires) && forall j :: 0 <= j < |w| ==> w[j].id != id
    ensures forall q :: 0 <= q < |fires| ==> fires[q].id != id
  {
    forall q | 0 <= q < |fires| ensures fires[q].id != id {
      assert PolledAs(w, ids[hits[q]], fires[q]);
    }
  }

  lemma NotLive(w: seq<Watch>, id: int)
    requires !WatchLive(w, id)
    ensures forall k :: 0 <= k < |w| && w[k].id == id ==> !w[k].active
  {
  }

  lemma KeptStopped(t: seq<Timer>, w: seq<Watch>, n: int, t1: seq<Timer>, w1: seq<Watch>, w2: seq<Watch>, n1: int)
    requires Kept(t, w, n, t1, w1, n1) && |w1| == |w2|
    requires forall i :: 0 <= i < |w2| ==> w2[i] == w1[i] || w2[i] == w1[i].(active := false)
    ensures Kept(t, w, n, t1, w2, n1)
  {
  }

  lemma RestMono(ids: seq<int>, k: nat, hits: seq<nat>, log: seq<Event>, log': seq<Event>)
    requires RestReleased(ids, k, hits, log) && log <= log'
    ensures RestReleased(ids, k, hits, log')
  {
  }

  /** The ids are listed in the order of their watches' slots. */
  ghost predicate InSlotOrder(w: seq<Watch>, ids: seq<int>) {
    forall j, k, a, b :: 0 <= j < k < |ids| && 0 <= a < |w| && 0 <= b < |w| && w[a].id == ids[j] && w[b].id == ids[k] ==> a < b
  }

  /** No watch from slot i on is listed. */
  ghost predicate NoneBeyond(w: seq<Watch>, owner: seq<int>, i: nat) {
    forall j, a :: 0 <= j < |owner| && i <= a < |w| ==> w[a].id != owner[j]
  }

  lemma NothingListed(w: seq<Watch>)
    ensures InSlotOrder(w, []) && NoneBeyond(w, [], 0) && forall id :: !WatchLive(w[..0], id)
  {
  }

  lemma SlotSkip(w: seq<Watch>, owner: seq<int>, i: nat)
    requires NoneBeyond(w, owner, i)
    ensures NoneBeyond(w, owner, i + 1)
  {
  }

  /** The watch in slot i goes behind those of the slots before it. */
  lemma SlotNext(w: seq<Watch>, owner: seq<int>, i: nat)
    requires i < |w| && InSlotOrder(w, owner) && NoneBeyond(w, owner, i)
    requires forall j, k :: 0 <= j < k < |w| ==> w[j].id != w[k].id
    ensures InSlotOrder(w, owner + [w[i].id]) && NoneBeyond(w, owner + [w[i].id], i + 1)
  {
  }

  lemma {:induction false} ChosenOrder(w: seq<Watch>, ids: seq<int>, s: set<int>)
    requires InSlotOrder(w, ids)
    ensures InSlotOrder(w, Chosen(ids, s))
  {
    if ids != [] {
      OrderTail(w, ids);
      ChosenOrder(w, ids[1..], s);
      var r := Chosen(ids[1..], s);
      if ids[0] in s { OrderFront(w, ids, r); }
    }
  }

  lemma OrderTail(w: seq<Watch>, ids: seq<int>)
    requires InSlotOrder(w, ids) && ids != []
    ensures InSlotOrder(w, ids[1..])
  {
    forall j, k, a, b | 0 <= j < k < |ids[1..]| && 0 <= a < |w| && 0 <= b < |w| && w[a].id == ids[1..][j] && w[b].id == ids[1..][k] ensures a < b {
      assert ids[j + 1] == ids[1..][j] && ids[k + 1] == ids[1..][k];
    }
  }

  lemma OrderFront(w: seq<Watch>, ids: seq<int>, r: seq<int>)
    requires InSlotOrder(w, ids) && ids != [] && InSlotOrder(w, r) && forall x :: x in r ==> x in ids[1..]
    ensures InSlotOrder(w, [ids[0]] + r)
  {
    var q := [ids[0]] + r;
    forall j, k, a, b | 0 <= j < k < |q| && 0 <= a < |w| && 0 <= b < |w| && w[a].id == q[j] && w[b].id == q[k] ensures a < b {
      assert q[k] == r[k - 1];
      if j > 0 {
        assert q[j] == r[j - 1];
      } else {
        assert r[k - 1] in ids[1..];
        var m :| 0 <= m < |ids[1..]| && ids[1..][m] == r[k - 1];
        assert ids[m + 1] == q[k];
      }
    }
  }

  lemma {:induction false} ChosenDistinct(ids: seq<int>, s: set<int>)
    requires forall j, k :: 0 <= j < k < |ids| ==> ids[j] != ids[k]
    ensures forall j, k :: 0 <= j < k < |Chosen(ids, s)| ==> Chosen(ids, s)[j] != Chosen(ids, s)[k]
  {
    if ids != [] {
      ChosenDistinct(ids[1..], s);
      var r := Chosen(ids[1..], s);
      forall k | 0 <= k < |r| ensures r[k] != ids[0] {
        assert r[k] in ids[1..];
      }
    }
  }

  /** Event `e` is the callback of the watch that had this id in `w`, on its own descriptor. */
  ghost predicate PolledAs(w: seq<Watch>, id: int, e: Event) {
    exists j :: 0 <= j < |w| && w[j].id == id && w[j].active && e == Fire(id, w[j].fd, w[j].cb, false)
  }

  function Swapped(s: seq<nat>, b: nat): seq<nat>
    requires 0 < b < |s|
  {
    s[b := s[b - 1]][b - 1 := s[b]]
  }

  /** Sorted up to a, but for the element at b, which is earlier than all behind it. */
  ghost predicate Sinking(t: seq<Timer>, s: seq<nat>, a: nat, b: nat) {
    && b <= a < |s| && (forall k :: 0 <= k < |s| ==> s[k] < |t|)
    && (forall p, q :: 0 <= p < q <= a && p != b && q != b ==> !Earlier(t[s[q]], t[s[p]]))
    && (forall q :: b < q <= a ==> Earlier(t[s[b]], t[s[q]]))
  }

  lemma SinkStart(t: seq<Timer>, s: seq<nat>, a: nat)
    requires a < |s| && forall k :: 0 <= k < |s| ==> s[k] < |t|
    requires forall p, q :: 0 <= p < q < a ==> !Earlier(t[s[q]], t[s[p]])
    ensures Sinking(t, s, a, a)
  {
    hide Earlier;
  }

  lemma SinkDown(t: seq<Timer>, s: seq<nat>, a: nat, b: nat)
    requires Sinking(t, s, a, b) && b > 0 && Earlier(t[s[b]], t[s[b - 1]])
    ensures Sinking(t, Swapped(s, b), a, b - 1)
  {
    hide Earlier;
  }

  lemma SinkEnd(t: seq<Timer>, s: seq<nat>, a: nat, b: nat)
    requires Sinking(t, s, a, b) && (b > 0 ==> !Earlier(t[s[b]], t[s[b - 1]]))
    ensures forall p, q :: 0 <= p < q <= a ==> !Earlier(t[s[q]], t[s[p]])
  {
    forall p, q | 0 <= p < q <= a ensures !Earlier(t[s[q]], t[s[p]]) {
      if p == b { assert Earlier(t[s[b]], t[s[q]]); }
      if q == b && p < b - 1 { assert !Earlier(t[s[b - 1]], t[s[p]]); }
    }
  }

  /** Among the first k ids those at positions `hits` fired, each once and in order, as `fires`. */
  ghost predicate AsPolled(w: seq<Watch>, ids: seq<int>, k: nat, hits: seq<nat>, fires: seq<Event>) {
    && |hits| == |fires| && k <= |ids|
    && (forall j :: 0 <= j < |hits| ==> hits[j] < k)
    && (forall i, j :: 0 <= i < j < |hits| ==> hits[i] < hits[j])
    && (forall j :: 0 <= j < |hits| ==> PolledAs(w, ids[hits[j]], fires[j]))
  }

  /** How the watch half stands after the first k ids. */
  ghost predicate Polling(w: seq<Watch>, ids: seq<int>, k: nat, hits: seq<nat>, fires: seq<Event>, log0: seq<Event>, log: seq<Event>) {
    && AsPolled(w, ids, k, hits, fires) && RestReleased(ids, k, hits, log) && log0 <= log && Fires(log) == Fires(log0) + fires
    && (k > 0 ==> hits != [] && hits[0] == 0)
  }

  lemma PollingNone(w: seq<Watch>, ids: seq<int>, log: seq<Event>)
    ensures Polling(w, ids, 0, [], [], log, log)
  {
    hide Fires;
    PolledNone(w, ids);
    RestNone(ids, log);
    assert Fires(log) + [] == Fires(log);
  }

  lemma PollingMore(w: seq<Watch>, ids: seq<int>, k: nat, hits: seq<nat>, fires: seq<Event>, log0: seq<Event>, log: seq<Event>, log': seq<Event>,
                    did: bool, e: Event)
    requires Polling(w, ids, k, hits, fires, log0, log) && k < |ids| && log <= log' && (k == 0 ==> did)
    requires did ==> PolledAs(w, ids[k], e) && Fires(log') == Fires(log) + [e]
    requires !did ==> Fires(log') == Fires(log) && Release(ids[k]) in log'
    ensures if did then Polling(w, ids, k + 1, hits + [k], fires + [e], log0, log') else Polling(w, ids, k + 1, hits, fires, log0, log')
  {
    hide Fires, AsPolled, RestReleased, PolledAs;
    PolledMore(w, ids, k, hits, fires, e);
    RestMore(ids, k, hits, log, log');
    if did {
      assert Fires(log0) + (fires + [e]) == Fires(log0) + fires + [e];
      if k == 0 { NoHits(w, ids, hits, fires); }
    }
  }

  lemma NoHits(w: seq<Watch>, ids: seq<int>, hits: seq<nat>, fires: seq<Event>)
    requires AsPolled(w, ids, 0, hits, fires)
    ensures hits == []
  {
    assert forall j :: 0 <= j < |hits| ==> hits[j] < 0;
    NoneBelow(hits);
  }

  lemma NoneBelow(s: seq<nat>)
    requires forall j :: 0 <= j < |s| ==> s[j] < 0
    ensures s == []
  {
    if |s| > 0 { NatAt(s, 0); }
  }

  lemma NatAt(s: seq<nat>, j: nat)
    requires j < |s|
    ensures s[j] >= 0
  {
  }

  lemma PollingMeans(w: seq<Watch>, ids: seq<int>, hits: seq<nat>, fires: seq<Event>, log0: seq<Event>, log: seq<Event>)
    requires Polling(w, ids, |ids|, hits, fires, log0, log)
    ensures log0 <= log && Fires(log) == Fires(log0) + fires && AsPolled(w, ids, |ids|, hits, fires)
    ensures RestReleased(ids, |ids|, hits, log) && (ids != [] ==> hits != [] && hits[0] == 0)
  {
    hide Fires, AsPolled, RestReleased;
  }

  lemma NoScripts(r: Reg, script: nat -> seq<Act>, c: nat)
    ensures ApplyScripts(r, script, c, 0) == r
  {
  }

  lemma MoreScripts(r: Reg, script: nat -> seq<Act>, c: nat, n: nat)
    ensures ApplyScripts(r, script, c, n + 1) == ApplyAll(ApplyScripts(r, script, c, n), script(c + n))
  {
  }

  lemma PolledNone(w: seq<Watch>, ids: seq<int>)
    ensures AsPolled(w, ids, 0, [], [])
  {
  }

  lemma PolledMore(w: seq<Watch>, ids: seq<int>, k: nat, hits: seq<nat>, fires: seq<Event>, e: Event)
    requires AsPolled(w, ids, k, hits, fires) && k < |ids|
    ensures AsPolled(w, ids, k + 1, hits, fires)
    ensures PolledAs(w, ids[k], e) ==> AsPolled(w, ids, k + 1, hits + [k], fires + [e])
  {
    hide PolledAs;
  }

  /** Every id among the first k that did not fire has had its reference released. */
  ghost predicate RestReleased(ids: seq<int>, k: nat, hits: seq<nat>, log: seq<Event>) {
    k <= |ids| && forall j: nat :: j < k && j !in hits ==> Release(ids[j]) in log
  }

  lemma RestNone(ids: seq<int>, log: seq<Event>)
    ensures RestReleased(ids, 0, [], log)
  {
  }

  lemma RestMore(ids: seq<int>, k: nat, hits: seq<nat>, log: seq<Event>, log': seq<Event>)
    requires RestReleased(ids, k, hits, log) && k < |ids| && log <= log'
    ensures RestReleased(ids, k + 1, hits + [k], log')
    ensures Release(ids[k]) in log' ==> RestReleased(ids, k + 1, hits, log')
  {
    forall j: nat | j < k + 1 && j !in hits + [k] ensures Release(ids[j]) in log' {
      assert j !in hits && j != k;
    }
  }

  lemma IdIssued(t: seq<Timer>, w: seq<Watch>, n: int, id: int)
    requires Ids(t, w, n) && WatchLive(w, id)
    ensures 1 <= id < n
  {
  }

  function DueBelow(t: seq<Timer>, now: int, n: nat): (r: seq<nat>)
    requires n <= |t|
  {
    if n == 0 then [] else DueBelow(t, now, n - 1) + if IsDue(t[n - 1], now) then [n - 1] else []
  }

  lemma {:induction false} DueIs(t: seq<Timer>, now: int, n: nat)
    requires n <= |t|
    ensures Distinct(DueBelow(t, now, n))
    ensures forall i :: i in DueBelow(t, now, n) <==> 0 <= i < n && IsDue(t[i], now)
  {
    if n > 0 { DueIs(t, now, n - 1); }
  }

  lemma {:induction false} DueGrows(t: seq<Timer>, now: int, m: nat, n: nat)
    requires m <= n <= |t|
    ensures |DueBelow(t, now, m)| <= |DueBelow(t, now, n)|
  {
    if m < n { DueGrows(t, now, m, n - 1); }
  }

  /** The firings of the timers `hits`, in order. */
  function Firings(t: seq<Timer>, hits: seq<nat>): (r: seq<Event>)
    requires forall k :: 0 <= k < |hits| ==> hits[k] < |t|
  {
    seq(|hits|, k requires 0 <= k < |hits| => Firing(t[hits[k]]))
  }

  /** Timer i is due, and no other due timer comes before it. */
  ghost predicate FirstDue(t: seq<Timer>, now: int, i: nat) {
    i < |t| && IsDue(t[i], now) && forall j :: 0 <= j < |t| && IsDue(t[j], now) && j != i ==> Earlier(t[i], t[j])
  }

  lemma NotBoth(x: Timer, y: Timer)
    ensures !(Earlier(x, y) && Earlier(y, x))
  {
  }

  lemma FirstIsFirst(t: seq<Timer>, now: int, d: seq<nat>, i: nat)
    requires FirstDue(t, now, i) && (forall j :: j in d <==> 0 <= j < |t| && IsDue(t[j], now))
    requires forall a :: 0 <= a < |d| ==> d[a] < |t|
    requires forall a, b :: 0 <= a < b < |d| ==> Earlier(t[d[a]], t[d[b]])
    ensures d != [] && d[0] == i
  {
    assert i in d;
    var p :| 0 <= p < |d| && d[p] == i;
    assert d[0] in d;
    assert p > 0 ==> Earlier(t[d[0]], t[i]);
    NotBoth(t[i], t[d[0]]);
  }

  /** How the batch stands after the first k due timers of `d`. */
  ghost predicate Turn(t: seq<Timer>, timers: seq<Timer>, d: seq<nat>, k: nat, hits: seq<nat>) {
    && |t| <= |timers| && k <= |d|
    && (forall i :: 0 <= i < |t| ==> timers[i].id == t[i].id)
    && (forall i :: 0 <= i < |t| && i !in hits ==> timers[i] == t[i] || timers[i] == t[i].(active := false))
    && (forall i :: i in hits ==> i < |t| && i in d[..k])
    && (forall i :: i in d[..k] ==> i < |t| && (i in hits || !timers[i].active))
    && (forall j, l :: 0 <= j < l < |hits| ==> hits[j] < |t| && hits[l] < |t| && Earlier(t[hits[j]], t[hits[l]]))
    && (k == 0 ==> timers == t && hits == [])
    && (k > 0 ==> hits != [] && hits[0] == d[0])
  }

  lemma TurnNone(t: seq<Timer>, d: seq<nat>)
    ensures Turn(t, t, d, 0, [])
  {
  }

  /** The timer whose turn it is has not fired yet, and is as it was if it is active. */
  lemma TurnAt(t: seq<Timer>, timers: seq<Timer>, d: seq<nat>, k: nat, hits: seq<nat>)
    requires Turn(t, timers, d, k, hits) && k < |d|
    requires forall i :: 0 <= i < |d| ==> d[i] < |t|
    requires forall a, b :: 0 <= a < b < |d| ==> Earlier(t[d[a]], t[d[b]])
    requires forall i :: 0 <= i < |d| ==> t[d[i]].active
    ensures d[k] < |timers| && d[k] !in hits && (timers[d[k]].active ==> timers[d[k]] == t[d[k]])
    ensures k == 0 ==> timers[d[k]].active
    ensures forall j :: 0 <= j < |hits| ==> hits[j] < |t| && Earlier(t[hits[j]], t[d[k]])
  {
    NotYet(t, d, k, hits);
  }

  lemma TurnSkipped(t: seq<Timer>, timers: seq<Timer>, d: seq<nat>, k: nat, hits: seq<nat>)
    requires Turn(t, timers, d, k, hits) && 0 < k < |d| && d[k] < |t| && !timers[d[k]].active
    ensures Turn(t, timers, d, k + 1, hits)
  {
    hide Earlier;
    assert d[..k + 1] == d[..k] + [d[k]];
    forall i | i in d[..k + 1] ensures i < |t| && (i in hits || !timers[i].active) {
      assert i in d[..k] || i == d[k];
    }
  }

  lemma TurnEnd(t: seq<Timer>, timers: seq<Timer>, d: seq<nat>, hits: seq<nat>)
    requires Turn(t, timers, d, |d|, hits)
    ensures |t| <= |timers| && forall i :: 0 <= i < |t| ==> timers[i].id == t[i].id
    ensures forall i :: i in hits ==> i in d
    ensures forall i :: i in d && i !in hits ==> i < |t| && !timers[i].active
    ensures forall j :: 0 <= j < |hits| ==> hits[j] < |t|
    ensures forall j, l :: 0 <= j < l < |hits| ==> Earlier(t[hits[j]], t[hits[l]])
    ensures d != [] ==> hits != [] && hits[0] == d[0]
  {
    hide Earlier;
    assert d[..|d|] == d;
    forall j | 0 <= j < |hits| ensures hits[j] < |t| { assert hits[j] in hits; }
  }

  lemma FiringsMore(t: seq<Timer>, hits: seq<nat>, i: nat)
    requires i < |t| && forall k :: 0 <= k < |hits| ==> hits[k] < |t|
    ensures Firings(t, hits + [i]) == Firings(t, hits) + [Firing(t[i])]
  {
    hide Firing;
  }

  lemma DueIsActive(t: Timer, now: int)
    requires IsDue(t, now)
    ensures t.active
  {
  }

  lemma ApplyMore(r: Reg, acts: seq<Act>, act: Act)
    ensures ApplyAll(r, acts + [act]) == Apply(ApplyAll(r, acts), act)
  {
    assert (acts + [act])[..|acts|] == acts;
  }

  function Fires(log: seq<Event>): (r: seq<Event>) {
    if log == [] then []
    else Fires(log[..|log| - 1]) + if log[|log| - 1].Fire? then [log[|log| - 1]] else []
  }

  /** The callback run that a timer at its turn gives rise to. */
  function Firing(t: Timer): Event {
    Fire(t.id, t.ticks + 1, t.cb, t.interval <= 0)
  }

  lemma FiresMore(log: seq<Event>, e: Event)
    requires e.Fire?
    ensures Fires(log + [e]) == Fires(log) + [e]
  {
    assert (log + [e])[..|log|] == log;
  }

  lemma {:induction false} FiresSame(log: seq<Event>, es: seq<Event>)
    requires forall e :: e in es ==> e.Release?
    ensures Fires(log + es) == Fires(log)
    decreases |es|
  {
    if es == [] {
      assert log + es == log;
    } else {
      var p := es[..|es| - 1];
      FiresSame(log, p);
      assert (log + es)[..|log + es| - 1] == log + p;
      assert es[|es| - 1] in es;
    }
  }

  lemma KeptRefl(t: seq<Timer>, w: seq<Watch>, n: int)
    ensures Kept(t, w, n, t, w, n)
  {
  }

  lemma GoodIds(t: seq<Timer>, w: seq<Watch>, n: int, log: seq<Event>, busy: int, i: nat)
    requires Good(t, w, n, log, busy) && i < |t|
    ensures t[i].id != 0
  {
  }

  /** A timer that is not running is off exactly when its reference is gone. */
  lemma TimerState(t: seq<Timer>, w: seq<Watch>, n: int, log: seq<Event>, busy: int, i: nat)
    requires Good(t, w, n, log, busy) && i < |t| && t[i].id != busy
    ensures t[i].active <==> Release(t[i].id) !in log
  {
    assert t[i].active ==> TimerLive(t, t[i].id);
    NotWatch(t, w, n, i);
    if TimerLive(t, t[i].id) {
      var k :| 0 <= k < |t| && t[k].id == t[i].id && t[k].active;
      assert k == i;
    }
  }

  lemma IdsDistinct(t: seq<Timer>, w: seq<Watch>, n: int, log: seq<Event>, busy: int)
    requires Good(t, w, n, log, busy)
    ensures forall i, k :: 0 <= i < k < |t| ==> t[i].id < t[k].id
    ensures forall j, k :: 0 <= j < k < |w| ==> w[j].id != w[k].id
    ensures forall j :: 0 <= j < |w| ==> w[j].id < n
  {
  }

  /** With distinct ids, sorted means strictly sorted. */
  lemma SortedStrictly(t: seq<Timer>, found: seq<nat>, d: seq<nat>)
    requires forall i, k :: 0 <= i < k < |t| ==> t[i].id < t[k].id
    requires multiset(found) == multiset(d) && Distinct(found)
    requires forall k :: 0 <= k < |d| ==> d[k] < |t|
    requires forall a, b :: 0 <= a < b < |d| ==> !Earlier(t[d[b]], t[d[a]])
    ensures forall i :: i in d <==> i in found
    ensures forall a, b :: 0 <= a < b < |d| ==> Earlier(t[d[a]], t[d[b]])
  {
    forall i ensures i in d <==> i in found {
      assert i in d <==> i in multiset(d);
      assert i in found <==> i in multiset(found);
    }
    forall a, b | 0 <= a < b < |d| ensures Earlier(t[d[a]], t[d[b]]) {
      DistinctCount(found, d[a]);
      CountTwice(d, a, b);
      assert d[a] != d[b];
    }
  }

  lemma {:induction false} DistinctCount(s: seq<nat>, x: nat)
    requires Distinct(s)
    ensures multiset(s)[x] <= 1
  {
    if s != [] {
      var p := s[..|s| - 1];
      DistinctCount(p, x);
      assert s == p + [s[|s| - 1]];
    }
  }

  lemma CountTwice(s: seq<nat>, a: nat, b: nat)
    requires a < b < |s|
    ensures s[a] == s[b] ==> multiset(s)[s[a]] >= 2
  {
    assert s == s[..a] + [s[a]] + s[a + 1..b] + [s[b]] + s[b + 1..];
  }

  lemma NotYet(t: seq<Timer>, d: seq<nat>, k: nat, hits: seq<nat>)
    requires k < |d| && forall i :: i in hits ==> i in d[..k]
    requires forall i :: 0 <= i < |d| ==> d[i] < |t|
    requires forall a, b :: 0 <= a < b < |d| ==> Earlier(t[d[a]], t[d[b]])
    ensures d[k] !in hits
    ensures forall j :: 0 <= j < |hits| ==> hits[j] < |t| && Earlier(t[hits[j]], t[d[k]])
  {
    forall j | 0 <= j < |hits| ensures hits[j] < |t| && Earlier(t[hits[j]], t[d[k]]) {
      assert hits[j] in d[..k];
      var a :| 0 <= a < k && d[..k][a] == hits[j];
      assert Earlier(t[d[a]], t[d[k]]);
    }
  }

  lemma TurnFired(t: seq<Timer>, before: seq<Timer>, after: seq<Timer>, d: seq<nat>, k: nat, hits: seq<nat>)
    requires Turn(t, before, d, k, hits) && k < |d| && d[k] < |t| && |before| <= |after|
    requires d[k] !in hits && forall j :: 0 <= j < |hits| ==> hits[j] < |t| && Earlier(t[hits[j]], t[d[k]])
    requires after[d[k]].id == before[d[k]].id
    requires forall i :: 0 <= i < |before| && i != d[k] ==> after[i] == before[i] || after[i] == before[i].(active := false)
    ensures Turn(t, after, d, k + 1, hits + [d[k]])
  {
    assert d[..k + 1] == d[..k] + [d[k]];
    forall i | 0 <= i < |t| && i !in hits + [d[k]]
      ensures after[i] == t[i] || after[i] == t[i].(active := false)
    {
      assert i != d[k] && i !in hits;
    }
    forall i | i in hits + [d[k]] ensures i < |t| && i in d[..k + 1] {
      assert i in hits || i == d[k];
    }
    forall i | i in d[..k + 1] ensures i < |t| && (i in hits + [d[k]] || !after[i].active) {
      assert i in d[..k] || i == d[k];
    }
  }

  lemma LiveStep(w: seq<Watch>, i: nat)
    requires i < |w|
    ensures forall id :: WatchLive(w[..i + 1], id) <==> WatchLive(w[..i], id) || (w[i].active && id == w[i].id)
    ensures forall id :: WatchLive(w[..i], id) ==> exists j :: 0 <= j < i && w[j].id == id
  {
    forall id ensures WatchLive(w[..i + 1], id) <==> WatchLive(w[..i], id) || (w[i].active && id == w[i].id) {
      if WatchLive(w[..i], id) {
        var k :| 0 <= k < i && w[..i][k].id == id && w[..i][k].active;
        assert w[..i + 1][k].active;
      }
      if w[i].active && id == w[i].id { assert w[..i + 1][i].active; }
      if WatchLive(w[..i + 1], id) {
        var k :| 0 <= k < i + 1 && w[..i + 1][k].id == id && w[..i + 1][k].active;
        assert k < i ==> w[..i][k].active;
      }
    }
    forall id | WatchLive(w[..i], id) ensures exists j :: 0 <= j < i && w[j].id == id {
      var k :| 0 <= k < i && w[..i][k].id == id && w[..i][k].active;
      assert w[k].id == id;
    }
  }

  /** A watch that was polled and is no longer registered has had its reference released. */
  lemma GoneIsReleased(t: seq<Timer>, w: seq<Watch>, n: int, log: seq<Event>, id: int, t0: seq<Timer>, w0: seq<Watch>, n0: int)
    requires Good(t, w, n, log, 0) && Ids(t0, w0, n0) && WatchLive(w0, id) && Kept(t0, w0, n0, t, w, n)
    requires forall k :: 0 <= k < |w| && w[k].id == id ==> !w[k].active
    ensures Release(id) in log
  {
    forall i | 0 <= i < |t| ensures t[i].id != id {
      assert i < |t0| ==> t[i].id == t0[i].id;
    }
    assert !TimerLive(t, id) && !WatchLive(w, id);
  }

  // ------------------------------------------------------------------------- runs

  /** The first callback of the run does `acts`; all others do nothing. */
  function FirstDoes(acts: seq<Act>): nat -> seq<Act> {
    (k: nat) => if k == 0 then acts else []
  }

  /** A ready watch adds a timer without delay: the timer fires in the same batch. */
  method ZeroDelayFires() returns (l: Loop)
    ensures Fires(l.log) == [Fire(1, 3, 7, false), Fire(2, 1, 9, true)]
  {
    hide Good, Fires;
    l := new Loop(FirstDoes([AddTimer(5, 0, 0, 9)]));
    var id := l.StartWatch(3, 7, false);
    ghost var r, log0 := l.Regs(), l.log;
    assert Placed([], 0, Watch(1, 3, false, 7, true)) == [Watch(1, 3, false, 7, true)];
    assert FirstFree([]) == 0 && l.watches == [Watch(1, 3, false, 7, true)];
    ghost var ids, hits, fires, mid, timed := l.Step({1}, {}, 5);
    OnlyReady(r.watches, ids, hits, fires);
    OneScript(r, l.script);
    assert mid == [Timer(2, 5, 0, 0, 9, true)];
    OneTimer(mid, timed, log0, l.log, fires);
  }

  lemma OnlyReady(w: seq<Watch>, ids: seq<int>, hits: seq<nat>, fires: seq<Event>)
    requires w == [Watch(1, 3, false, 7, true)] && (forall id :: id in ids <==> id in {1} && WatchLive(w, id))
    requires forall j, k :: 0 <= j < k < |ids| ==> ids[j] != ids[k]
    requires AsPolled(w, ids, |ids|, hits, fires) && (ids != [] ==> hits != [] && hits[0] == 0)
    ensures |hits| == 1 && fires == [Fire(1, 3, 7, false)]
  {
    assert WatchLive(w, 1) by { assert w[0].active; }
    assert 1 in ids;
    forall j | 0 <= j < |ids| ensures ids[j] == 1 {
      assert ids[j] in ids;
    }
    TwoDiffer(ids);
    TwoGrow(hits);
    assert PolledAs(w, ids[hits[0]], fires[0]);
  }

  lemma TwoDiffer(s: seq<int>)
    requires forall j, k :: 0 <= j < k < |s| ==> s[j] != s[k]
    ensures |s| <= 1 || s[0] != s[1]
  {
  }

  lemma TwoGrow(s: seq<nat>)
    requires forall j, k :: 0 <= j < k < |s| ==> s[j] < s[k]
    ensures |s| <= 1 || s[0] < s[1]
  {
  }

  lemma TwoEarlier(t: seq<Timer>, s: seq<nat>)
    requires forall k :: 0 <= k < |s| ==> s[k] < |t|
    requires forall j, k :: 0 <= j < k < |s| ==> Earlier(t[s[j]], t[s[k]])
    ensures |s| <= 1 || Earlier(t[s[0]], t[s[1]])
  {
  }

  lemma OneScript(r: Reg, script: nat -> seq<Act>)
    requires script(0) == [AddTimer(5, 0, 0, 9)] && r.timers == [] && r.nextId == 2
    ensures ApplyScripts(r, script, 0, 1).timers == [Timer(2, 5, 0, 0, 9, true)]
  {
    assert ApplyScripts(r, script, 0, 0) == r;
    assert script(0)[..0] == [];
    assert ApplyAll(r, []) == r;
    assert ApplyAll(r, script(0)) == Apply(r, script(0)[0]);
  }

  lemma OneTimer(mid: seq<Timer>, timed: seq<nat>, log0: seq<Event>, log: seq<Event>, fires: seq<Event>)
    requires mid == [Timer(2, 5, 0, 0, 9, true)] && log0 == [] && fires == [Fire(1, 3, 7, false)]
    requires forall k :: 0 <= k < |timed| ==> timed[k] < |mid|
    requires forall j, k :: 0 <= j < k < |timed| ==> Earlier(mid[timed[j]], mid[timed[k]])
    requires forall i: nat :: FirstDue(mid, 5, i) ==> timed != [] && timed[0] == i
    requires Fires(log) == Fires(log0) + fires + Firings(mid, timed)
    ensures Fires(log) == [Fire(1, 3, 7, false), Fire(2, 1, 9, true)]
  {
    assert FirstDue(mid, 5, 0);
    TwoEarlier(mid, timed);
    assert Firings(mid, timed) == [Fire(2, 1, 9, true)];
  }

  /** A repeating timer whose callback cancels it: its reference is gone before the callback returns. */
  method SelfCancelReleases() returns (l: Loop)
    ensures Fires(l.log) == [Fire(1, 1, 9, false)] && Release(1) in l.log
  {
    hide Good;
    l := new Loop(FirstDoes([CancelTimer(1)]));
    var id := l.StartTimer(0, 0, 1, 9);
    assert Fires(l.log) == [];
    hide Fires;
    l.FireTimer(0);
  }
}
