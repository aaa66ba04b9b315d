/**
 The scheduler's intrusive queues. A task has one `next` field, shared by the run
 queue and the parked list, so it can be on one list at a time. Tasks are numbered;
 NIL stands for the null pointer. The ghost sequences give the lists' contents.
 */
module TaskQueues {
  import opened Util

  const NIL: int := -1

  /** Following `next` from `head` visits exactly `q`, ending at `tail`. */
  ghost predicate IsList(next: seq<int>, head: int, tail: int, q: seq<nat>) {
    && Distinct(q)
    && (forall i :: 0 <= i < |q| ==> q[i] < |next|)
    && (if q == [] then head == tail == NIL else head == q[0] && tail == q[|q| - 1])
    && (forall i :: 0 <= i < |q| ==> next[q[i]] == Succ(q, i))
  }

  function Succ(q: seq<nat>, i: nat): int
    requires i < |q|
  {
    if i + 1 < |q| then q[i + 1] else NIL
  }

  ghost predicate Apart(p: seq<nat>, q: seq<nat>) {
    forall t :: t in p ==> t !in q
  }

  /** Writing the `next` field of a task that is on no list disturbs no list. */
  lemma ListFrame(next: seq<int>, head: int, tail: int, q: seq<nat>, t: nat, v: int)
    requires IsList(next, head, tail, q) && t < |next| && t !in q
    ensures IsList(next[t := v], head, tail, q)
  {}

  lemma ListAppend(next: seq<int>, head: int, tail: int, q: seq<nat>, t: nat)
    requires IsList(next, head, tail, q) && t < |next| && t !in q
    ensures var next' := if tail == NIL then next[t := NIL] else next[t := NIL][tail := t];
            IsList(next', if tail == NIL then t else head, t, q + [t])
  {
    var next' := if tail == NIL then next[t := NIL] else next[t := NIL][tail := t];
    var q' := q + [t];
    forall i | 0 <= i < |q'| ensures next'[q'[i]] == Succ(q', i) {
      if i < |q| { assert next[q[i]] == Succ(q, i); }
      if i < |q| - 1 { assert q[i] != q[|q| - 1]; }
    }
  }

  lemma ListTail(next: seq<int>, head: int, tail: int, q: seq<nat>)
    requires IsList(next, head, tail, q) && q != []
    ensures IsList(next, Succ(q, 0), if |q| == 1 then NIL else tail, q[1..])
  {
    var q' := q[1..];
    forall i | 0 <= i < |q'| ensures next[q'[i]] == Succ(q', i) {
      assert next[q[i + 1]] == Succ(q, i + 1);
    }
  }

  /** Dropping the element at position k from a list. */
  function Without(q: seq<nat>, k: nat): seq<nat>
    requires k < |q|
  {
    q[..k] + q[k + 1..]
  }

  lemma WithoutDistinct(q: seq<nat>, k: nat)
    requires Distinct(q) && k < |q|
    ensures |Without(q, k)| == |q| - 1 && Distinct(Without(q, k)) && q[k] !in Without(q, k)
    ensures forall t :: t in Without(q, k) ==> t in q
    ensures forall i :: 0 <= i < |q| - 1 ==> Without(q, k)[i] == q[if i < k then i else i + 1]
  {}

  /** The link of a remaining task once the predecessor skips the k-th one. */
  lemma LinkSkips(next: seq<int>, q: seq<nat>, q': seq<nat>, k: nat, i: nat, j: nat)
    requires k < |q| && |q'| == |q| - 1 && i < |q'| && j == if i < k then i else i + 1
    requires q[k] < |next| && q[j] < |next| && (k > 0 ==> q[k - 1] < |next|)
    requires next[q[j]] == Succ(q, j) && next[q[k]] == Succ(q, k)
    requires k > 0 && j != k - 1 ==> q[j] != q[k - 1]
    requires q'[i] == q[j] && (i + 1 < |q'| ==> q'[i + 1] == q[if i + 1 < k then i + 1 else i + 2])
    ensures var next' := if k > 0 then next[q[k - 1] := next[q[k]]] else next;
            next'[q'[i]] == Succ(q', i)
  {
  }

  /** Unlinking in the middle: the predecessor skips the removed task, or the head moves on. */
  lemma ListUnlink(next: seq<int>, head: int, tail: int, q: seq<nat>, k: nat)
    requires IsList(next, head, tail, q) && k < |q|
    ensures var next' := if k > 0 then next[q[k - 1] := next[q[k]]] else next;
            IsList(next', if k > 0 then head else next[q[k]],
                   if k < |q| - 1 then tail else if k > 0 then q[k - 1] else NIL, Without(q, k))
  {
    hide Without;
    var next' := if k > 0 then next[q[k - 1] := next[q[k]]] else next;
    var q' := Without(q, k);
    WithoutDistinct(q, k);
    assert |next'| == |next| && next[q[k]] == Succ(q, k);
    forall i | 0 <= i < |q'| ensures q'[i] < |next'| && next'[q'[i]] == Succ(q', i) {
      LinkAt(next, head, tail, q, q', k, i);
    }
    if q' != [] { assert q'[0] == q[if 0 < k then 0 else 1] && q'[|q'| - 1] == q[if |q'| - 1 < k then |q'| - 1 else |q'|]; }
  }

  lemma LinkAt(next: seq<int>, head: int, tail: int, q: seq<nat>, q': seq<nat>, k: nat, i: nat)
    requires IsList(next, head, tail, q) && k < |q| && |q'| == |q| - 1 && i < |q'|
    requires forall j :: 0 <= j < |q'| ==> q'[j] == q[if j < k then j else j + 1]
    ensures q'[i] < |next|
    ensures var next' := if k > 0 then next[q[k - 1] := next[q[k]]] else next;
            next'[q'[i]] == Succ(q', i)
  {
    hide Succ;
    var j := if i < k then i else i + 1;
    assert q'[i] == q[j] && q[j] < |next| && next[q[j]] == Succ(q, j) && next[q[k]] == Succ(q, k);
    LinkSkips(next, q, q', k, i, j);
  }

  /** Unlinking a parked task leaves the run queue alone. */
  lemma UnlinkRun(next: seq<int>, runHead: int, runTail: int, runq: seq<nat>, head: int, tail: int, parked: seq<nat>, k: nat)
    requires IsList(next, runHead, runTail, runq) && IsList(next, head, tail, parked)
    requires Apart(runq, parked) && k < |parked|
    ensures Apart(runq, Without(parked, k)) && parked[k] !in Without(parked, k)
    ensures parked[k] < |next| && (tail == parked[k] <==> k == |parked| - 1)
    ensures k > 0 ==> parked[k - 1] < |next| && parked[k - 1] != parked[k]
    ensures k > 0 ==> IsList(next[parked[k - 1] := next[parked[k]]], runHead, runTail, runq)
  {
    hide Succ, Without;
    WithoutDistinct(parked, k);
    ListIsTail(next, head, tail, parked, k);
    if k > 0 {
      assert parked[k - 1] in parked;
      hide IsList;
      ListFrame(next, runHead, runTail, runq, parked[k - 1], next[parked[k]]);
    }
  }

  /** The tasks of `q` that are, or are not, in `ready`, in order. */
  function Left(q: seq<nat>, ready: set<nat>): (r: seq<nat>)
    ensures forall t :: t in r ==> t in q && t !in ready
  {
    if q == [] then [] else (if q[0] in ready then [] else [q[0]]) + Left(q[1..], ready)
  }

  lemma {:induction false} ChosenAppend(q: seq<nat>, t: nat, ready: set<nat>)
    ensures Chosen(q + [t], ready) == Chosen(q, ready) + (if t in ready then [t] else [])
    ensures Left(q + [t], ready) == Left(q, ready) + (if t in ready then [] else [t])
  {
    if q != [] {
      assert (q + [t])[1..] == q[1..] + [t];
      ChosenAppend(q[1..], t, ready);
    }
  }

  class Queues {
    var next: seq<int>
    var runHead: int
    var runTail: int
    var parkHead: int
    var parkTail: int
    ghost var runq: seq<nat>
    ghost var parked: seq<nat>

    ghost predicate Valid()
      reads this
    {
      && IsList(next, runHead, runTail, runq)
      && IsList(next, parkHead, parkTail, parked)
      && Apart(runq, parked)
    }

    constructor (n: nat)
      ensures Valid() && runq == [] && parked == [] && |next| == n
    {
      next := seq(n, _ => NIL);
      runHead, runTail, parkHead, parkTail := NIL, NIL, NIL, NIL;
      runq, parked := [], [];
    }

    method RunqAppend(t: nat)
      requires Valid() && t < |next| && t !in runq && t !in parked
      modifies this
      ensures Valid() && |next| == |old(next)|
      ensures runq == old(runq) + [t] && parked == old(parked)
    {
      ListAppend(next, runHead, runTail, runq, t);
      ListFrame(next, parkHead, parkTail, parked, t, NIL);
      next := next[t := NIL];
      if runTail != NIL {
        ListFrame(next, parkHead, parkTail, parked, runTail, t);
        next := next[runTail := t];
      } else {
        runHead := t;
      }
      runTail := t;
      runq := runq + [t];
    }

    method RunqPop() returns (t: int)
      requires Valid()
      modifies this
      ensures Valid() && |next| == |old(next)| && parked == old(parked)
      ensures old(runq) == [] ==> t == NIL && runq == []
      ensures old(runq) != [] ==> t == old(runq)[0] && runq == old(runq)[1..]
    {
      t := runHead;
      if t == NIL { return; }
      ListTail(next, runHead, runTail, runq);
      assert t == runq[0] && next[t] == Succ(runq, 0);
      runHead := next[t];
      if runHead == NIL { runTail := NIL; }
      ListFrame(next, runHead, runTail, runq[1..], t, NIL);
      ListFrame(next, parkHead, parkTail, parked, t, NIL);
      next := next[t := NIL];
      runq := runq[1..];
    }

    method ParkedAppend(t: nat)
      requires Valid() && t < |next| && t !in runq && t !in parked
      modifies this
      ensures Valid() && |next| == |old(next)|
      ensures parked == old(parked) + [t] && runq == old(runq)
    {
      assert parkTail != NIL ==> parkTail in parked;
      ListAppend(next, parkHead, parkTail, parked, t);
      ListFrame(next, runHead, runTail, runq, t, NIL);
      next := next[t := NIL];
      if parkTail != NIL {
        ListFrame(next, runHead, runTail, runq, parkTail, t);
        next := next[parkTail := t];
      } else {
        parkHead := t;
      }
      parkTail := t;
      parked := parked + [t];
    }

    /** The pointer surgery that takes the k-th parked task out of the list. */
    method Unlink(prev: int, t: nat, ghost k: nat)
      requires Valid() && k < |parked| && t == parked[k] && prev == if k > 0 then parked[k - 1] else NIL
      modifies this
      ensures Valid() && |next| == |old(next)| && runq == old(runq)
      ensures parked == Without(old(parked), k) && t !in parked && next[t] == old(next)[t]
    {
      hide Without, IsList, Apart, Distinct;
      ListUnlink(next, parkHead, parkTail, parked, k);
      UnlinkRun(next, runHead, runTail, runq, parkHead, parkTail, parked, k);
      if prev != NIL {
        next := next[prev := next[t]];
      } else {
        parkHead := next[t];
      }
      if parkTail == t { parkTail := prev; }
      parked := Without(parked, k);
    }

    /** Unlinks the k-th parked task and clears its link. */
    method Detach(prev: int, t: nat, ghost k: nat)
      requires Valid() && k < |parked| && t == parked[k] && prev == if k > 0 then parked[k - 1] else NIL
      modifies this
      ensures Valid() && |next| == |old(next)| && runq == old(runq)
      ensures parked == Without(old(parked), k) && t !in parked
    {
      hide Without, Apart;
      ParkedNotRunning(runq, parked, k, next, parkHead, parkTail);
      Unlink(prev, t, k);
      ListFrame(next, parkHead, parkTail, parked, t, NIL);
      ListFrame(next, runHead, runTail, runq, t, NIL);
      next := next[t := NIL];
    }

    /** Unlinks one task from wherever it stands in the parked list. */
    method ParkedRemove(t: nat) returns (found: bool)
      requires Valid()
      modifies this
      ensures Valid() && |next| == |old(next)| && runq == old(runq)
      ensures found <==> t in old(parked)
      ensures !found ==> parked == old(parked)
      ensures found ==> t !in parked && exists k :: 0 <= k < |old(parked)| && old(parked)[k] == t && parked == Without(old(parked), k)
    {
      hide Without, Apart;
      var prev, it := NIL, parkHead;
      ghost var k := 0;
      while it != NIL
        invariant 0 <= k <= |parked|
        invariant it == if k < |parked| then parked[k] else NIL
        invariant prev == if k > 0 then parked[k - 1] else NIL
        invariant forall j :: 0 <= j < k ==> parked[j] != t
        decreases |parked| - k
      {
        assert next[parked[k]] == Succ(parked, k);
        if it == t {
          Detach(prev, t, k);
          return true;
        }
        prev, it := it, next[it];
        k := k + 1;
      }
      found := false;
    }

    /** One pass in park order: every ready task moves to the run queue, the others keep their order. */
    method PollParked(ready: set<nat>) returns (woke: bool)
      requires Valid()
      modifies this
      ensures Valid() && |next| == |old(next)|
      ensures parked == Left(old(parked), ready) && runq == old(runq) + Chosen(old(parked), ready)
      ensures woke <==> Chosen(old(parked), ready) != []
    {
      hide IsList, Apart, Left, Chosen, Without, Distinct, Scan;
      woke := false;
      var prev, t := NIL, parkHead;
      ghost var k, q := 0, parked;
      ScanStart(q, ready, next, parkHead, parkTail);
      while t != NIL
        invariant Valid() && |next| == |old(next)|
        invariant k <= |q| && Scan(q, k, ready, parked, prev, t)
        invariant runq == old(runq) + Chosen(q[..k], ready)
        invariant woke <==> Chosen(q[..k], ready) != []
        decreases |q| - k
      {
        ghost var m := |Left(q[..k], ready)|;
        ScanNext(q, k, ready, parked, prev, t, next, parkHead, parkTail);
        var nxt := next[t];
        if t in ready {
          ParkedNotRunning(runq, parked, m, next, parkHead, parkTail);
          Unlink(prev, t, m);
          RunqAppend(t);
          woke := true;
        } else {
          prev := t;
        }
        k := k + 1;
        t := nxt;
      }
      ScanEnd(q, k, ready, parked, prev);
    }

    /** Takes the first task off the parked list. */
    method ParkedPop() returns (t: nat)
      requires Valid() && parked != []
      modifies this
      ensures Valid() && |next| == |old(next)| && runq == old(runq)
      ensures t == old(parked)[0] && parked == old(parked)[1..] && t !in parked && t !in runq && t < |next|
    {
      ParkedNotRunning(runq, parked, 0, next, parkHead, parkTail);
      ListTail(next, parkHead, parkTail, parked);
      t := parkHead;
      assert t == parked[0] && next[t] == Succ(parked, 0) && t !in parked[1..];
      parkHead := next[t];
      if parkHead == NIL { parkTail := NIL; }
      parked := parked[1..];
    }

    /** Empties the parked list onto the run queue, in park order. */
    method DrainAll()
      requires Valid()
      modifies this
      ensures Valid() && |next| == |old(next)|
      ensures parked == [] && runq == old(runq) + old(parked)
    {
      hide Apart, Distinct, IsList;
      ghost var q, k := parked, 0;
      while parkHead != NIL
        invariant Valid() && |next| == |old(next)| && k <= |q| && q == old(parked)
        invariant parked == q[k..] && runq == old(runq) + q[..k]
        decreases |q| - k
      {
        HeadMeansNonempty(next, parkHead, parkTail, parked);
        DrainOne();
        assert q[..k + 1] == q[..k] + [q[k]];
        k := k + 1;
      }
      HeadMeansNonempty(next, parkHead, parkTail, parked);
    }

    method DrainOne()
      requires Valid() && parked != []
      modifies this
      ensures Valid() && |next| == |old(next)|
      ensures parked == old(parked)[1..] && runq == old(runq) + [old(parked)[0]]
    {
      hide Apart, Distinct, IsList;
      var t := ParkedPop();
      RunqAppend(t);
    }
  }

  lemma HeadMeansNonempty(next: seq<int>, head: int, tail: int, q: seq<nat>)
    requires IsList(next, head, tail, q)
    ensures head != NIL <==> q != []
  {}

  lemma ListIsTail(next: seq<int>, head: int, tail: int, q: seq<nat>, k: nat)
    requires IsList(next, head, tail, q) && k < |q|
    ensures tail == q[k] <==> k == |q| - 1
  {}

  /** The state of a scan that has dealt with the first k tasks of `q`. */
  ghost predicate Scan(q: seq<nat>, k: nat, ready: set<nat>, parked: seq<nat>, prev: int, t: int)
    requires k <= |q|
  {
    var kept := Left(q[..k], ready);
    && parked == kept + q[k..]
    && t == (if k < |q| then q[k] else NIL)
    && prev == (if kept == [] then NIL else kept[|kept| - 1])
  }

  lemma ScanStart(q: seq<nat>, ready: set<nat>, next: seq<int>, head: int, tail: int)
    requires IsList(next, head, tail, q)
    ensures Scan(q, 0, ready, q, NIL, head) && Chosen(q[..0], ready) == []
  {
    assert q[..0] == [];
  }

  lemma ScanEnd(q: seq<nat>, k: nat, ready: set<nat>, parked: seq<nat>, prev: int)
    requires k <= |q| && Scan(q, k, ready, parked, prev, NIL)
    ensures parked == Left(q, ready) && q[..k] == q
  {
    assert q[..|q|] == q;
  }

  lemma Split(kept: seq<nat>, q: seq<nat>, k: nat)
    requires k < |q|
    ensures kept + q[k..] == (kept + [q[k]]) + q[k + 1..]
    ensures Without(kept + q[k..], |kept|) == kept + q[k + 1..]
    ensures q[..k + 1] == q[..k] + [q[k]]
  {}

  lemma ScanAt(q: seq<nat>, k: nat, ready: set<nat>, parked: seq<nat>, prev: int, t: int, next: seq<int>, head: int, tail: int)
    requires k <= |q| && Scan(q, k, ready, parked, prev, t) && t != NIL && IsList(next, head, tail, parked)
    ensures var m := |Left(q[..k], ready)|;
            && k < |q| && m < |parked| && parked[m] == t && 0 <= t < |next| && next[t] == (if k + 1 < |q| then q[k + 1] else NIL)
            && prev == (if m > 0 then parked[m - 1] else NIL)
  {
    hide Left, Distinct;
    var m := |Left(q[..k], ready)|;
    assert parked[m] == q[k];
    assert next[parked[m]] == Succ(parked, m);
    assert m + 1 < |parked| ==> parked[m + 1] == q[k + 1];
  }

  lemma ScanNext(q: seq<nat>, k: nat, ready: set<nat>, parked: seq<nat>, prev: int, t: int, next: seq<int>, head: int, tail: int)
    requires k <= |q| && Scan(q, k, ready, parked, prev, t) && t != NIL && IsList(next, head, tail, parked)
    ensures var m := |Left(q[..k], ready)|;
            && k < |q| && m < |parked| && parked[m] == t && 0 <= t < |next| && next[t] == (if k + 1 < |q| then q[k + 1] else NIL)
            && prev == (if m > 0 then parked[m - 1] else NIL)
            && (t !in ready ==> Scan(q, k + 1, ready, parked, t, next[t]))
            && (t in ready ==> Scan(q, k + 1, ready, Without(parked, m), prev, next[t]))
    ensures Chosen(q[..k + 1], ready) == Chosen(q[..k], ready) + (if t in ready then [t as nat] else [])
  {
    hide IsList, Left, Chosen, Without;
    ScanAt(q, k, ready, parked, prev, t, next, head, tail);
    Split(Left(q[..k], ready), q, k);
    ChosenAppend(q[..k], q[k], ready);
  }

  lemma ParkedNotRunning(runq: seq<nat>, parked: seq<nat>, m: nat, next: seq<int>, head: int, tail: int)
    requires Apart(runq, parked) && m < |parked| && IsList(next, head, tail, parked)
    ensures parked[m] !in runq && parked[m] < |next|
  {
    assert parked[m] in parked;
  }
}
