/**
 The reachability walk of the C++ emitter. Starting from the entry it follows direct
 calls, constructors, resolved and by-name dynamic calls and closures; an instantiated
 class brings in its members, and a by-name call brings in the method of that name of
 every class that can be a receiver. Functions and classes are numbered.
 */
module Reach {
  import opened Util

  datatype Inst =
    | Call(b: int)
    | NewObject(b: int, cls: Option<nat>)
    | CallDyn(target: Option<int>, name: string)
    | MakeClosure(b: int)
    | Collection
    | MakeRange
    | Other

  /** A callable declaration and, when it was lowered, its function. */
  datatype Member = Member(name: string, fn: Option<nat>, isCtor: bool)

  /** `members` are the callable members, inherited ones included; `own` those of the class body. */
  datatype Class = Class(name: string, isValue: bool, isGlobal: bool, slots: seq<Member>, members: seq<Member>, own: seq<Member>)

  datatype Module = Module(functions: seq<seq<Inst>>, classes: seq<Class>, entry: nat, ginit: int)

  ghost predicate WellFormed(m: Module) {
    && m.entry < |m.functions| && m.ginit < |m.functions|
    && (forall f, i :: 0 <= f < |m.functions| && 0 <= i < |m.functions[f]| ==> GoodInst(m, m.functions[f][i]))
    && (forall c :: 0 <= c < |m.classes| ==> GoodClass(m, m.classes[c]))
  }

  predicate GoodInst(m: Module, x: Inst) {
    x.NewObject? && x.cls.Some? ==> x.cls.value < |m.classes|
  }

  predicate GoodClass(m: Module, c: Class) {
    GoodMembers(m, c.slots) && GoodMembers(m, c.members) && GoodMembers(m, c.own)
  }

  predicate GoodMembers(m: Module, ms: seq<Member>) {
    forall i :: 0 <= i < |ms| && ms[i].fn.Some? ==> ms[i].fn.value < |m.functions|
  }

  /** The stream-iteration members, which are never followed by name or by instantiation. */
  predicate StreamProtocol(name: string, cls: string) {
    || (name == "iterator" && (cls == "InStream" || cls == "StreamSeq"))
    || ((name == "hasNext" || name == "next") && cls == "StreamIterator")
  }

  lemma StreamProtocolIs(name: string, cls: string)
    ensures StreamProtocol(name, cls) <==>
              (name, cls) in {("iterator", "InStream"), ("iterator", "StreamSeq"), ("hasNext", "StreamIterator"), ("next", "StreamIterator")}
  {
  }

  // -------------------------------------------------------------- the reference

  /** What has been found live: functions, instantiated classes, names called by name, functions of closures. */
  datatype Found = Found(fns: set<nat>, classes: set<nat>, names: set<string>, closures: set<int>)

  predicate Within(a: Found, b: Found) {
    a.fns <= b.fns && a.classes <= b.classes && a.names <= b.names && a.closures <= b.closures
  }

  predicate Has(m: Module, s: Found, idx: int) {
    0 <= idx < |m.functions| ==> idx in s.fns
  }

  /** What one instruction of a live function demands. */
  predicate InstDone(m: Module, s: Found, x: Inst) {
    match x
    case Call(b) => Has(m, s, b)
    case NewObject(b, cls) => Has(m, s, b) && (cls.Some? ==> cls.value in s.classes)
    case CallDyn(Some(t), _) => Has(m, s, t)
    case CallDyn(None, name) => name in s.names
    case MakeClosure(b) => Has(m, s, b) && b in s.closures
    case _ => true
  }

  /** What an instantiated class demands: its members, stream protocol apart. */
  predicate ClassDone(m: Module, s: Found, c: nat) {
    c < |m.classes| ==>
      var k := m.classes[c];
      forall i :: 0 <= i < |k.members| && k.members[i].fn.Some? && !StreamProtocol(k.members[i].name, k.name) ==>
        k.members[i].fn.value in s.fns
  }

  predicate Receiver(m: Module, s: Found, c: nat) {
    c < |m.classes| && (m.classes[c].isValue || c in s.classes)
  }

  /** The by-name rule: method f of class c answers to `name`. */
  predicate Answers(m: Module, name: string, f: nat, c: nat) {
    && c < |m.classes| && m.classes[c].isGlobal && !StreamProtocol(name, m.classes[c].name)
    && exists i :: 0 <= i < |m.classes[c].slots| && m.classes[c].slots[i].name == name && m.classes[c].slots[i].fn == Some(f)
  }

  ghost predicate FnDone(m: Module, s: Found, f: nat, pc: nat) {
    f < |m.functions| && pc <= |m.functions[f]| && forall i :: 0 <= i < pc ==> InstDone(m, s, m.functions[f][i])
  }

  ghost predicate AllDone(m: Module, s: Found, f: nat) {
    f < |m.functions| ==> FnDone(m, s, f, |m.functions[f]|)
  }

  /** Closed under every rule. */
  ghost predicate Closed(m: Module, base: set<nat>, s: Found) {
    && base <= s.fns
    && (forall f :: f in s.fns ==> AllDone(m, s, f))
    && (forall c :: c in s.classes ==> ClassDone(m, s, c))
    && ByNameClosed(m, s)
  }

  ghost predicate ByNameClosed(m: Module, s: Found) {
    forall name, f, c :: name in s.names && Answers(m, name, f, c) && Receiver(m, s, c) ==> f in s.fns
  }

  ghost predicate Least(m: Module, base: set<nat>, s: Found) {
    Closed(m, base, s) && Below(m, base, s)
  }

  ghost predicate Below(m: Module, base: set<nat>, s: Found) {
    forall s' :: Closed(m, base, s') ==> Within(s, s')
  }

  lemma ClosedMono(m: Module, base: set<nat>, base': set<nat>, s: Found)
    requires base <= base' && Closed(m, base', s)
    ensures Closed(m, base, s)
  {
    hide AllDone, ClassDone, ByNameClosed;
  }

  /** What lies below the closed sets of some roots lies below those of more roots. */
  lemma BelowMore(m: Module, base: set<nat>, base': set<nat>, s: Found)
    requires Below(m, base, s) && base <= base'
    ensures Below(m, base', s)
  {
    hide Closed;
    forall s' | Closed(m, base', s') ensures Within(s, s') {
      ClosedMono(m, base, base', s');
    }
  }

  // ------------------------------------------------------------------ the walk

  lemma InstMono(m: Module, s: Found, s': Found, x: Inst)
    requires Within(s, s') && InstDone(m, s, x)
    ensures InstDone(m, s', x)
  {
  }

  lemma FnMono(m: Module, s: Found, s': Found, f: nat, pc: nat)
    requires Within(s, s') && FnDone(m, s, f, pc)
    ensures FnDone(m, s', f, pc)
  {
    hide InstDone;
    forall i | 0 <= i < pc ensures InstDone(m, s', m.functions[f][i]) {
      InstMono(m, s, s', m.functions[f][i]);
    }
  }

  /** Everything live is scanned, waiting, or `cur`. */
  ghost predicate Pending(m: Module, s: Found, work: seq<nat>, cur: int) {
    && (forall f :: f in s.fns ==> f < |m.functions|)
    && (forall f :: f in work ==> f in s.fns)
    && (forall f :: f in s.fns && f !in work && f != cur ==> AllDone(m, s, f))
  }

  ghost predicate NewWork(work0: seq<nat>, fns0: set<nat>, work: seq<nat>) {
    forall f :: f in work ==> f in work0 || f !in fns0
  }

  /** The functions in `work` have no instructions. */
  predicate Idle(m: Module, work: seq<nat>) {
    forall i :: 0 <= i < |work| ==> work[i] < |m.functions| && m.functions[work[i]] == []
  }

  lemma PendingGrows(m: Module, s: Found, work: seq<nat>, cur: int, s': Found, f: nat)
    requires Pending(m, s, work, cur) && f < |m.functions| && s' == s.(fns := s.fns + {f})
    ensures Pending(m, s', work + [f], cur)
  {
    hide FnDone;
    forall g | g in s'.fns && g !in work + [f] && g != cur ensures AllDone(m, s', g) {
      assert g != f && g !in work;
      assert AllDone(m, s, g);
      FnMono(m, s, s', g, |m.functions[g]|);
    }
  }

  lemma PendingFinds(m: Module, s: Found, work: seq<nat>, cur: int, s': Found)
    requires Pending(m, s, work, cur) && Within(s, s') && s'.fns == s.fns
    ensures Pending(m, s', work, cur)
  {
    hide FnDone;
    forall g | g in s'.fns && g !in work && g != cur ensures AllDone(m, s', g) {
      assert AllDone(m, s, g);
      FnMono(m, s, s', g, |m.functions[g]|);
    }
  }

  /** The classes' demands are met, `but` excepted. */
  ghost predicate ClassesDoneBut(m: Module, s: Found, but: set<nat>) {
    forall c :: c in s.classes && c !in but ==> ClassDone(m, s, c)
  }

  /** A table of dispatch classes holds only receivers that answer to a name called by name. */
  ghost predicate TableSound(m: Module, s: Found, table: seq<nat>) {
    forall c :: c in table ==> Receiver(m, s, c) && AnswersSome(m, s.names, c)
  }

  ghost predicate AnswersSome(m: Module, names: set<string>, c: nat) {
    exists name, f: nat :: name in names && Answers(m, name, f, c)
  }

  /** It holds every value class that answers to one of `names`. */
  ghost predicate TableHolds(m: Module, names: set<string>, table: seq<nat>) {
    forall name, f: nat, c: nat :: name in names && Answers(m, name, f, c) && m.classes[c].isValue ==> c in table
  }

  /** The indexed methods of one name, as (function, class) pairs. */
  function Targets(m: Module, name: string, k: nat): (r: seq<(nat, nat)>)
    requires k <= |m.classes|
    ensures forall t :: t in r <==> Answers(m, name, t.0, t.1) && t.1 < k
  {
    if k == 0 then []
    else
      var p := Targets(m, name, k - 1);
      var c := m.classes[k - 1];
      if c.isGlobal && !StreamProtocol(name, c.name) then p + SlotTargets(c, name, k - 1, |c.slots|) else p
  }

  function SlotTargets(c: Class, name: string, id: nat, n: nat): (r: seq<(nat, nat)>)
    requires n <= |c.slots|
    ensures forall t :: t in r <==> t.1 == id && exists i :: 0 <= i < n && c.slots[i].name == name && c.slots[i].fn == Some(t.0)
  {
    if n == 0 then []
    else
      var p, x := SlotTargets(c, name, id, n - 1), c.slots[n - 1];
      if x.name == name && x.fn.Some? then p + [(x.fn.value, id)] else p
  }

  // Why a mark is forced: every closed set holds it.

  lemma InstForced(m: Module, base: set<nat>, s: Found, s': Found, f: nat, i: nat)
    requires Closed(m, base, s') && Within(s, s') && f in s.fns && f < |m.functions| && i < |m.functions[f]|
    ensures InstDone(m, s', m.functions[f][i])
  {
    hide ClassDone, ByNameClosed, InstDone;
    assert AllDone(m, s', f);
  }

  lemma MemberForced(m: Module, base: set<nat>, s: Found, s': Found, c: nat, i: nat)
    requires Closed(m, base, s') && Within(s, s') && c in s.classes && c < |m.classes| && i < |m.classes[c].members|
    requires m.classes[c].members[i].fn.Some? && !StreamProtocol(m.classes[c].members[i].name, m.classes[c].name)
    ensures m.classes[c].members[i].fn.value in s'.fns
  {
    hide AllDone, ByNameClosed;
    assert ClassDone(m, s', c);
  }

  lemma NameForced(m: Module, base: set<nat>, s: Found, s': Found, name: string, f: nat, c: nat)
    requires Closed(m, base, s') && Within(s, s') && name in s.names && Answers(m, name, f, c) && Receiver(m, s, c)
    ensures f in s'.fns
  {
    hide AllDone, ClassDone, Answers;
  }

  class Walk {
    const m: Module
    var reachable: set<nat>
    var work: seq<nat>
    var instClasses: seq<nat>
    var byNameSeen: set<string>
    var byNameClasses: seq<nat>
    var closureFns: seq<int>

    ghost function State(): Found
      reads this
    {
      Found(reachable, (set c | c in instClasses), byNameSeen, (set b | b in closureFns))
    }

    /** Invariant of the walk over the roots `base`, while function `cur` is being scanned. */
    ghost predicate Walking(base: set<nat>, cur: int)
      reads this
    {
      WellFormed(m) && Pending(m, State(), work, cur) && Below(m, base, State())
    }

    ghost predicate Valid(base: set<nat>, cur: int)
      reads this
    {
      && Walking(base, cur) && ClassesDoneBut(m, State(), {})
      && TableSound(m, State(), byNameClasses) && TableHolds(m, byNameSeen, byNameClasses) && Distinct(closureFns)
    }

    /** Marks only add work, and only functions not marked before. */
    twostate predicate Grew()
      reads this
    {
      Within(old(State()), State()) && (reachable == old(reachable) ==> work == old(work)) && NewWork(old(work), old(reachable), work)
    }

    /** Adds a function that every closed set over `base` holds. */
    method Mark(idx: int, ghost base: set<nat>, ghost cur: int)
      requires Walking(base, cur)
      requires forall s' :: Closed(m, base, s') && Within(State(), s') ==> Has(m, s', idx)
      modifies this`reachable, this`work
      ensures Walking(base, cur) && Grew() && Has(m, State(), idx)
      ensures reachable == old(reachable) + (if 0 <= idx < |m.functions| then {idx} else {})
    {
      hide Closed, Pending, WellFormed;
      if 0 <= idx < |m.functions| && idx !in reachable {
        PendingGrows(m, State(), work, cur, State().(fns := reachable + {idx}), idx);
        reachable := reachable + {idx};
        work := work + [idx];
      }
    }

    /** A class seen instantiated for the first time brings in its members. */
    method Instantiate(c: nat, ghost base: set<nat>, ghost cur: int)
      requires Valid(base, cur) && c < |m.classes|
      requires forall s' :: Closed(m, base, s') && Within(State(), s') ==> c in s'.classes
      modifies this`reachable, this`work, this`instClasses
      ensures Valid(base, cur) && Grew() && State().classes == old(State()).classes + {c}
    {
      hide Closed, Pending, WellFormed, InstDone, ClassDone, TableHolds, Receiver;
      if c in instClasses { return; }
      ghost var s0 := State();
      PendingFinds(m, s0, work, cur, s0.(classes := s0.classes + {c}));
      TableKept(m, s0, s0.(classes := s0.classes + {c}), byNameClasses);
      ClassesKept(m, s0, s0.(classes := s0.classes + {c}), {});
      instClasses := instClasses + [c];
      assert State() == s0.(classes := s0.classes + {c});
      var ms, name := m.classes[c].members, m.classes[c].name;
      for i := 0 to |ms|
        invariant Walking(base, cur) && ClassesDoneBut(m, State(), {c}) && TableSound(m, State(), byNameClasses)
        invariant State().classes == s0.classes + {c} && byNameSeen == s0.names && s0.fns <= reachable
        invariant (reachable == s0.fns ==> work == old(work)) && NewWork(old(work), s0.fns, work)
        invariant forall j :: 0 <= j < i && ms[j].fn.Some? && !StreamProtocol(ms[j].name, name) ==> ms[j].fn.value in reachable
      {
        if !StreamProtocol(ms[i].name, name) && ms[i].fn.Some? {
          ghost var s1 := State();
          MemberInRange(m, c, i);
          forall s' | Closed(m, base, s') && Within(s1, s') ensures Has(m, s', ms[i].fn.value) {
            MemberForced(m, base, s1, s', c, i);
          }
          Mark(ms[i].fn.value, base, cur);
          TableKept(m, s1, State(), byNameClasses);
          ClassesKept(m, s1, State(), {c});
        }
      }
      MembersIn(m, State(), c);
    }

    /** Puts a dispatch class into the table, once. */
    method Table(c: nat)
      modifies this`byNameClasses
      ensures c in byNameClasses && forall x :: x in byNameClasses <==> x in old(byNameClasses) || x == c
    {
      if c !in byNameClasses { byNameClasses := byNameClasses + [c]; }
    }

    /** One candidate of a by-name call: only a possible receiver is marked. */
    method MarkTarget(name: string, f: nat, c: nat, ghost base: set<nat>, ghost cur: int)
      requires Walking(base, cur) && name in byNameSeen && Answers(m, name, f, c)
      requires ClassesDoneBut(m, State(), {}) && TableSound(m, State(), byNameClasses)
      modifies this`reachable, this`work, this`byNameClasses
      ensures Walking(base, cur) && Grew() && ClassesDoneBut(m, State(), {}) && TableSound(m, State(), byNameClasses)
      ensures Receiver(m, State(), c) ==> f in reachable && c in byNameClasses
      ensures forall x :: x in byNameClasses <==> x in old(byNameClasses) || (x == c && Receiver(m, old(State()), c))
      ensures !Receiver(m, old(State()), c) ==> byNameClasses == old(byNameClasses)
    {
      hide Closed, Pending, WellFormed, ClassDone, Answers, TableSound, Below;
      ghost var s0 := State();
      AnswerInRange(m, name, f, c);
      if m.classes[c].isValue || c in instClasses {
        forall s' | Closed(m, base, s') && Within(s0, s') ensures Has(m, s', f) {
          NameForced(m, base, s0, s', name, f, c);
        }
        Mark(f, base, cur);
        TableKept(m, s0, State(), byNameClasses);
        ClassesKept(m, s0, State(), {});
        ghost var table := byNameClasses;
        Table(c);
        TableMore(m, State(), table, byNameClasses, name, f, c);
      }
    }

    method MarkByName(name: string, ghost base: set<nat>, ghost cur: int)
      requires Valid(base, cur)
      requires forall s' :: Closed(m, base, s') && Within(State(), s') ==> name in s'.names
      modifies this`reachable, this`work, this`byNameSeen, this`byNameClasses
      ensures Valid(base, cur) && Grew() && byNameSeen == old(byNameSeen) + {name}
      ensures forall x :: x in byNameClasses <==> x in old(byNameClasses) || (Receiver(m, old(State()), x) && AnswersSome(m, {name}, x))
      ensures (forall x: nat :: AnswersSome(m, {name}, x) ==> !Receiver(m, old(State()), x)) ==> byNameClasses == old(byNameClasses)
    {
      hide Closed, Pending, WellFormed, ClassDone, Answers, Receiver, TableHolds, TableSound;
      ghost var s0, s1 := State(), State().(names := byNameSeen + {name});
      PendingFinds(m, s0, work, cur, s1);
      TableKept(m, s0, s1, byNameClasses);
      ClassesKept(m, s0, s1, {});
      byNameSeen := byNameSeen + {name};
      hide ClassesDoneBut, Below;
      var ts := Targets(m, name, |m.classes|);
      for i := 0 to |ts|
        invariant Walking(base, cur) && ClassesDoneBut(m, State(), {}) && TableSound(m, State(), byNameClasses)
        invariant byNameSeen == s1.names && Within(s0, State()) && (reachable == s0.fns ==> work == old(work)) && NewWork(old(work), s0.fns, work)
        invariant instClasses == old(instClasses)
        invariant forall x :: x in old(byNameClasses) ==> x in byNameClasses
        invariant forall j :: 0 <= j < i && Receiver(m, s1, ts[j].1) ==> ts[j].1 in byNameClasses
        invariant forall x :: x in byNameClasses ==> x in old(byNameClasses) || (Receiver(m, s1, x) && AnswersSome(m, {name}, x))
        invariant (forall x: nat :: AnswersSome(m, {name}, x) ==> !Receiver(m, s1, x)) ==> byNameClasses == old(byNameClasses)
      {
        assert ts[i] in ts;
        assert AnswersSome(m, {name}, ts[i].1);
        SameReceivers(m, s1, State());
        MarkTarget(name, ts[i].0, ts[i].1, base, cur);
        SameReceivers(m, s1, State());
      }
      SameReceivers(m, s0, s1);
      TargetsAnswer(m, name, ts);
      TableCovers(m, s0.names, name, old(byNameClasses), byNameClasses, ts, s1);
    }

    /** Tries again every name seen so far, now that more classes may be instantiated. */
    method Sweep(ghost base: set<nat>) returns (progressed: bool)
      requires Valid(base, -1)
      modifies this`reachable, this`work, this`byNameClasses
      ensures Valid(base, -1) && old(reachable) <= reachable
      ensures progressed ==> old(reachable) < reachable
      ensures !progressed ==> reachable == old(reachable) && work == old(work) && ByNameClosed(m, State())
      ensures !progressed ==> byNameClasses == old(byNameClasses)
    {
      hide Closed, Pending, WellFormed, ClassDone, Answers, Receiver, TableHolds, TableSound, NamesClosed, ClassesDoneBut, Below;
      progressed := false;
      var todo := byNameSeen;
      NoNames(m, State());
      assert byNameSeen - todo == {};
      while todo != {}
        invariant Valid(base, -1) && todo <= byNameSeen && old(reachable) <= reachable
        invariant progressed ==> old(reachable) < reachable
        invariant !progressed ==> reachable == old(reachable) && work == old(work) && byNameClasses == old(byNameClasses)
        invariant NamesClosed(m, State(), byNameSeen - todo)
      {
        var name :| name in todo;
        ghost var s0, done := State(), byNameSeen - todo;
        var more := SweepName(name, base);
        todo := todo - {name};
        NamesMore(m, s0, State(), done, name);
        assert done + {name} == byNameSeen - todo;
        progressed := progressed || more;
      }
      AllNames(m, State());
    }

    method SweepName(name: string, ghost base: set<nat>) returns (progressed: bool)
      requires Valid(base, -1) && name in byNameSeen
      modifies this`reachable, this`work, this`byNameClasses
      ensures Valid(base, -1) && old(reachable) <= reachable
      ensures progressed ==> old(reachable) < reachable
      ensures !progressed ==> reachable == old(reachable) && work == old(work) && byNameClasses == old(byNameClasses)
      ensures NamesClosed(m, State(), {name})
    {
      hide Closed, Pending, WellFormed, ClassDone, Answers, TableHolds, TableSound, NamesClosed, ClassesDoneBut, Below;
      progressed := false;
      var ts := Targets(m, name, |m.classes|);
      for i := 0 to |ts|
        invariant Valid(base, -1) && old(reachable) <= reachable
        invariant progressed ==> old(reachable) < reachable
        invariant !progressed ==> reachable == old(reachable) && work == old(work) && byNameClasses == old(byNameClasses)
        invariant forall j :: 0 <= j < i && Receiver(m, State(), ts[j].1) ==> ts[j].0 in reachable
      {
        assert ts[i] in ts;
        AnswerInRange(m, name, ts[i].0, ts[i].1);
        if (m.classes[ts[i].1].isValue || ts[i].1 in instClasses) && ts[i].0 !in reachable {
          ghost var table := byNameClasses;
          MarkTarget(name, ts[i].0, ts[i].1, base, -1);
          TableWider(m, byNameSeen, table, byNameClasses);
          progressed := true;
        }
      }
      NameClosed(m, State(), name, ts);
    }

    /** Follows one instruction of the function being scanned. */
    method Follow(f: nat, pc: nat, ghost base: set<nat>)
      requires Valid(base, f) && f in reachable && f < |m.functions| && pc < |m.functions[f]|
      modifies this`reachable, this`work, this`instClasses, this`byNameSeen, this`byNameClasses, this`closureFns
      ensures Valid(base, f) && Grew() && InstDone(m, State(), m.functions[f][pc])
      ensures Noted(m, m.functions[f][pc], old(State()), old(byNameClasses), State(), byNameClasses)
    {
      hide Closed, Pending, ClassDone, Answers, TableHolds, TableSound, Below, Receiver;
      ghost var s0 := State();
      forall s' | Closed(m, base, s') && Within(s0, s') ensures InstDone(m, s', m.functions[f][pc]) {
        InstForced(m, base, s0, s', f, pc);
      }
      assert GoodInst(m, m.functions[f][pc]);
      hide WellFormed, ClassesDoneBut, AnswersSome;
      match m.functions[f][pc]
      case Call(b) => MarkOnly(b, base, f);
      case NewObject(b, cls) =>
        MarkOnly(b, base, f);
        if cls.Some? { Instantiate(cls.value, base, f); }
      case CallDyn(Some(t), _) => MarkOnly(t, base, f);
      case CallDyn(None, name) => MarkByName(name, base, f);
      case MakeClosure(b) =>
        MarkOnly(b, base, f);
        NoteClosure(b, base, f);
      case _ =>
    }

    /** Lists a function that a closure is made of, once. */
    method NoteClosure(b: int, ghost base: set<nat>, ghost cur: int)
      requires Valid(base, cur)
      requires forall s' :: Closed(m, base, s') && Within(State(), s') ==> b in s'.closures
      modifies this`closureFns
      ensures Valid(base, cur) && b in closureFns && State() == old(State()).(closures := old(State()).closures + {b})
    {
      hide Closed, Pending, WellFormed, ClassDone, Answers, TableHolds, TableSound, ClassesDoneBut;
      ghost var s0, s1 := State(), State().(closures := State().closures + {b});
      PendingFinds(m, s0, work, cur, s1);
      TableKept(m, s0, s1, byNameClasses);
      ClassesKept(m, s0, s1, {});
      assert {} + (s1.classes - s0.classes) == {};
      if b !in closureFns { closureFns := closureFns + [b]; }
      assert State() == s1;
    }

    method MarkOnly(idx: int, ghost base: set<nat>, ghost cur: int)
      requires Valid(base, cur)
      requires forall s' :: Closed(m, base, s') && Within(State(), s') ==> Has(m, s', idx)
      modifies this`reachable, this`work
      ensures Valid(base, cur) && Grew() && Has(m, State(), idx)
    {
      hide Closed, Pending, WellFormed, ClassDone, Answers, TableHolds, TableSound, ClassesDoneBut, Below;
      ghost var s0 := State();
      Mark(idx, base, cur);
      TableKept(m, s0, State(), byNameClasses);
      ClassesKept(m, s0, State(), {});
      assert {} + (State().classes - s0.classes) == {};
    }

    method Scan(f: nat, ghost base: set<nat>)
      requires Valid(base, f) && f in reachable && f < |m.functions|
      modifies this`reachable, this`work, this`instClasses, this`byNameSeen, this`byNameClasses, this`closureFns
      ensures Valid(base, -1) && Grew()
      ensures m.functions[f] == [] ==> State() == old(State()) && work == old(work) && byNameClasses == old(byNameClasses)
    {
      hide Closed, WellFormed, ClassDone, Answers, TableHolds, TableSound, ClassesDoneBut, Below, InstDone;
      for pc := 0 to |m.functions[f]|
        invariant Valid(base, f) && Grew() && FnDone(m, State(), f, pc)
        invariant pc == 0 ==> State() == old(State()) && work == old(work) && byNameClasses == old(byNameClasses)
      {
        ghost var s0 := State();
        Follow(f, pc, base);
        FnMono(m, s0, State(), f, pc);
      }
    }

    /** Empties the worklist, taking the newest function first. */
    method Drain(ghost base: set<nat>)
      requires Valid(base, -1)
      modifies this`reachable, this`work, this`instClasses, this`byNameSeen, this`byNameClasses, this`closureFns
      ensures Valid(base, -1) && work == [] && old(reachable) <= reachable
      ensures Idle(m, old(work)) ==> State() == old(State()) && byNameClasses == old(byNameClasses)
    {
      hide Closed, WellFormed, ClassDone, Answers, TableHolds, TableSound, ClassesDoneBut, Below, AllDone;
      while work != []
        invariant Valid(base, -1) && old(reachable) <= reachable
        invariant Idle(m, old(work)) ==> Idle(m, work) && State() == old(State()) && byNameClasses == old(byNameClasses)
        decreases Unmarked(m, reachable), |work|
      {
        ghost var r := reachable;
        var f := work[|work| - 1];
        PopPending(m, State(), work);
        work := work[..|work| - 1];
        Scan(f, base);
        MarkedLess(m, State(), r, work);
      }
    }

    /** Drain and sweep until neither finds anything: the least closed set. */
    method Fixpoint(ghost base: set<nat>)
      requires Valid(base, -1) && base <= reachable
      modifies this`reachable, this`work, this`instClasses, this`byNameSeen, this`byNameClasses, this`closureFns
      ensures Valid(base, -1) && base <= reachable && work == [] && Least(m, base, State())
    {
      hide WellFormed, ClassDone, Answers, TableHolds, TableSound, Below, AllDone, Closed, Pending, ByNameClosed, ClassesDoneBut;
      var again := true;
      while again
        invariant Valid(base, -1) && base <= reachable && (!again ==> work == [] && ByNameClosed(m, State()))
        decreases again, Unmarked(m, reachable)
      {
        Drain(base);
        ghost var r := reachable;
        again := Sweep(base);
        MarkedLess(m, State(), r, work);
      }
      IsClosed(m, base, State());
    }

    constructor (m: Module)
      requires WellFormed(m)
      ensures this.m == m && Valid(Roots(m), -1) && reachable == Roots(m)
      ensures work == [m.entry] + (if m.ginit >= 0 then [m.ginit as nat] else [])
      ensures instClasses == [] && byNameSeen == {} && byNameClasses == [] && closureFns == []
    {
      this.m := m;
      reachable, work := {m.entry}, [m.entry];
      instClasses, byNameSeen, byNameClasses, closureFns := [], {}, [], [];
      new;
      if m.ginit >= 0 {
        reachable, work := reachable + {m.ginit as nat}, work + [m.ginit as nat];
      }
      StartBelow(m, State());
    }

    /** Does some reachable function use arrays or maps, or ranges? */
    method Uses() returns (coll: bool, range: bool)
      requires WellFormed(m)
      ensures coll <==> UsesOp(m, reachable, Collection)
      ensures range <==> UsesOp(m, reachable, MakeRange)
    {
      hide WellFormed;
      coll, range := false, false;
      for f := 0 to |m.functions|
        invariant coll <==> UsesBelow(m, reachable, Collection, f, 0)
        invariant range <==> UsesBelow(m, reachable, MakeRange, f, 0)
      {
        if f in reachable {
          for i := 0 to |m.functions[f]|
            invariant coll <==> UsesBelow(m, reachable, Collection, f, i)
            invariant range <==> UsesBelow(m, reachable, MakeRange, f, i)
          {
            UsesStep(m, reachable, Collection, f, i);
            UsesStep(m, reachable, MakeRange, f, i);
            if m.functions[f][i].Collection? { coll := true; }
            if m.functions[f][i].MakeRange? { range := true; }
          }
        }
        UsesNext(m, reachable, Collection, f);
        UsesNext(m, reachable, MakeRange, f);
      }
      UsesAll(m, reachable, Collection);
      UsesAll(m, reachable, MakeRange);
    }

    /** Makes the methods written in one collection class roots of the walk. */
    method Seed(c: nat, ghost base: set<nat>)
      requires Valid(base, -1) && base <= reachable && c < |m.classes|
      modifies this`reachable, this`work
      ensures Valid(base + OwnFns(m, c), -1) && base + OwnFns(m, c) <= reachable
    {
      hide Closed, Pending, ClassDone, Answers, TableHolds, TableSound, ClassesDoneBut, Below;
      assert GoodClass(m, m.classes[c]);
      hide WellFormed;
      ghost var all := base + OwnFns(m, c);
      BelowMore(m, base, all, State());
      var ms := m.classes[c].own;
      for i := 0 to |ms|
        invariant Valid(all, -1) && base <= reachable
        invariant forall j :: 0 <= j < i && !ms[j].isCtor && ms[j].fn.Some? ==> ms[j].fn.value in reachable
      {
        if !ms[i].isCtor && ms[i].fn.Some? {
          RootForced(m, all, ms[i].fn.value);
          MarkOnly(ms[i].fn.value, all, -1);
        }
      }
    }

    /**
     The whole walk: the least set closed over the roots, then, if it uses collections or
     ranges, the least set closed over the roots and the methods of those classes.
     */
    method Generate()
      requires Valid(Roots(m), -1) && reachable == Roots(m)
      modifies this`reachable, this`work, this`instClasses, this`byNameSeen, this`byNameClasses, this`closureFns
      ensures exists s :: Least(m, Roots(m), s) && Least(m, Roots(m) + Seeds(m, s.fns), State())
      ensures forall c :: c in instClasses || c in byNameClasses <==> Dispatches(m, State(), c)
      ensures Distinct(closureFns) && forall b :: b in closureFns <==> MadeOf(m, reachable, b)
    {
      hide Closed, Pending, ClassDone, Answers, Dispatches, TableHolds, TableSound, ClassesDoneBut, Below, Seeds, UsesOp, MadeOf;
      ghost var base := Roots(m);
      Fixpoint(base);
      ghost var s1 := State();
      var coll, range := Uses();
      if coll || range {
        if coll { base := SeedNamed("Array", base); base := SeedNamed("Map", base); }
        if range { base := SeedNamed("Range", base); }
        Fixpoint(base);
      }
      SeedsAre(m, s1.fns, coll, range);
      assert base == Roots(m) + Seeds(m, s1.fns);
      DispatchIs(m, State(), byNameClasses);
      ClosuresAre(m, base, State());
    }

    method SeedNamed(name: string, ghost base: set<nat>) returns (ghost base': set<nat>)
      requires Valid(base, -1) && base <= reachable
      modifies this`reachable, this`work
      ensures Valid(base', -1) && base' <= reachable && base' == base + NamedFns(m, name)
    {
      hide Closed, Pending, ClassDone, Answers, TableHolds, TableSound, ClassesDoneBut, Below, WellFormed;
      base' := base + NamedFns(m, name);
      var c := Lookup(m, name, 0);
      if c < |m.classes| { Seed(c, base); } else { assert base' == base; }
    }
  }

  /** The entry and, when there is one, the initializer of globals. */
  function Roots(m: Module): set<nat> {
    {m.entry} + if m.ginit >= 0 then {m.ginit as nat} else {}
  }

  lemma StartBelow(m: Module, s: Found)
    requires s == Found(Roots(m), {}, {}, {})
    ensures Below(m, Roots(m), s)
  {
  }

  /** The global class of a name, or the number of classes. */
  function Lookup(m: Module, name: string, k: nat): (c: nat)
    requires k <= |m.classes|
    ensures k <= c <= |m.classes|
    ensures c < |m.classes| ==> m.classes[c].isGlobal && m.classes[c].name == name
    ensures forall j :: k <= j < c ==> !(m.classes[j].isGlobal && m.classes[j].name == name)
    decreases |m.classes| - k
  {
    if k == |m.classes| || (m.classes[k].isGlobal && m.classes[k].name == name) then k else Lookup(m, name, k + 1)
  }

  /** The functions of the methods written in a class body, constructors apart. */
  function OwnFns(m: Module, c: nat): (r: set<nat>)
    requires c < |m.classes|
  {
    set i | 0 <= i < |m.classes[c].own| && !m.classes[c].own[i].isCtor && m.classes[c].own[i].fn.Some? :: m.classes[c].own[i].fn.value
  }

  function NamedFns(m: Module, name: string): set<nat> {
    var c := Lookup(m, name, 0);
    if c < |m.classes| then OwnFns(m, c) else {}
  }

  predicate UsesOp(m: Module, fns: set<nat>, op: Inst) {
    exists f, i :: 0 <= f < |m.functions| && f in fns && 0 <= i < |m.functions[f]| && m.functions[f][i] == op
  }

  /** The collection methods that a program with these functions needs. */
  function Seeds(m: Module, fns: set<nat>): set<nat> {
    (if UsesOp(m, fns, Collection) then NamedFns(m, "Array") + NamedFns(m, "Map") else {}) +
    (if UsesOp(m, fns, MakeRange) then NamedFns(m, "Range") else {})
  }

  lemma SeedsAre(m: Module, fns: set<nat>, coll: bool, range: bool)
    requires coll == UsesOp(m, fns, Collection) && range == UsesOp(m, fns, MakeRange)
    ensures Seeds(m, fns) == (if coll then NamedFns(m, "Array") + NamedFns(m, "Map") else {}) + (if range then NamedFns(m, "Range") else {})
  {
  }

  /** Used before instruction i of function n. */
  ghost predicate UsesBelow(m: Module, fns: set<nat>, op: Inst, n: nat, i: nat) {
    exists f, k :: 0 <= f < |m.functions| && f in fns && 0 <= k < |m.functions[f]| && m.functions[f][k] == op && (f < n || (f == n && k < i))
  }

  lemma UsesStep(m: Module, fns: set<nat>, op: Inst, f: nat, i: nat)
    requires f < |m.functions| && f in fns && i < |m.functions[f]|
    ensures UsesBelow(m, fns, op, f, i + 1) <==> UsesBelow(m, fns, op, f, i) || m.functions[f][i] == op
  {
    if m.functions[f][i] == op { assert UsesBelow(m, fns, op, f, i + 1); }
  }

  lemma UsesNext(m: Module, fns: set<nat>, op: Inst, f: nat)
    requires f < |m.functions|
    ensures UsesBelow(m, fns, op, f + 1, 0) <==> UsesBelow(m, fns, op, f, |m.functions[f]|)
    ensures f !in fns ==> (UsesBelow(m, fns, op, f, |m.functions[f]|) <==> UsesBelow(m, fns, op, f, 0))
  {
  }

  lemma UsesAll(m: Module, fns: set<nat>, op: Inst)
    ensures UsesBelow(m, fns, op, |m.functions|, 0) <==> UsesOp(m, fns, op)
  {
  }

  lemma RootForced(m: Module, base: set<nat>, f: nat)
    requires f in base
    ensures forall s' :: Closed(m, base, s') ==> Has(m, s', f)
  {
    hide AllDone, ClassDone, ByNameClosed;
  }

  /** What one name of the dispatch rule demands. */
  ghost predicate NamesClosed(m: Module, s: Found, names: set<string>) {
    forall name, f: nat, c: nat :: name in names && Answers(m, name, f, c) && Receiver(m, s, c) ==> f in s.fns
  }

  lemma NoNames(m: Module, s: Found)
    ensures NamesClosed(m, s, {})
  {
  }

  lemma AllNames(m: Module, s: Found)
    requires NamesClosed(m, s, s.names - {})
    ensures ByNameClosed(m, s)
  {
    hide Answers, Receiver;
    assert s.names - {} == s.names;
  }

  lemma NamesMore(m: Module, s: Found, s': Found, names: set<string>, name: string)
    requires NamesClosed(m, s, names) && NamesClosed(m, s', {name}) && Within(s, s') && s'.classes == s.classes
    ensures NamesClosed(m, s', names + {name})
  {
    hide Answers;
  }

  lemma NameClosed(m: Module, s: Found, name: string, ts: seq<(nat, nat)>)
    requires ts == Targets(m, name, |m.classes|)
    requires forall j :: 0 <= j < |ts| && Receiver(m, s, ts[j].1) ==> ts[j].0 in s.fns
    ensures NamesClosed(m, s, {name})
  {
    hide Targets;
    forall f: nat, c: nat | Answers(m, name, f, c) && Receiver(m, s, c) ensures f in s.fns {
      assert (f, c) in ts;
      var j :| 0 <= j < |ts| && ts[j] == (f, c);
    }
  }

  lemma TableWider(m: Module, names: set<string>, table: seq<nat>, table': seq<nat>)
    requires TableHolds(m, names, table) && forall x :: x in table ==> x in table'
    ensures TableHolds(m, names, table')
  {
    hide Answers;
  }

  ghost function Unmarked(m: Module, fns: set<nat>): set<nat> {
    UpTo(|m.functions|) - fns
  }

  function UpTo(n: nat): (r: set<nat>)
    ensures forall f :: f in r <==> 0 <= f < n
  {
    if n == 0 then {} else UpTo(n - 1) + {n - 1}
  }

  lemma MarkedLess(m: Module, s: Found, r: set<nat>, work: seq<nat>)
    requires r <= s.fns && Pending(m, s, work, -1)
    ensures r == s.fns || Unmarked(m, s.fns) < Unmarked(m, r)
  {
    if r != s.fns {
      var f :| f in s.fns && f !in r;
      assert f in Unmarked(m, r) && f !in Unmarked(m, s.fns);
    }
  }

  lemma PopPending(m: Module, s: Found, work: seq<nat>)
    requires Pending(m, s, work, -1) && work != []
    ensures Pending(m, s, work[..|work| - 1], work[|work| - 1])
    ensures work[|work| - 1] in s.fns && work[|work| - 1] < |m.functions|
  {
    hide AllDone;
    var p, f := work[..|work| - 1], work[|work| - 1];
    assert f in work;
    forall g | g in work && g != f ensures g in p {
      var i :| 0 <= i < |work| && work[i] == g;
      assert p[i] == g;
    }
    forall g | g in p ensures g in work {}
  }

  lemma IsClosed(m: Module, base: set<nat>, s: Found)
    requires base <= s.fns && Pending(m, s, [], -1) && ClassesDoneBut(m, s, {}) && ByNameClosed(m, s)
    ensures Closed(m, base, s)
  {
    hide AllDone, ClassDone, ByNameClosed;
  }

  /** What one instruction adds to the classes, the names and the dispatch table. */
  ghost predicate Noted(m: Module, x: Inst, s: Found, table: seq<nat>, s': Found, table': seq<nat>) {
    && s'.classes == s.classes + (if x.NewObject? && x.cls.Some? then {x.cls.value} else {})
    && s'.closures == s.closures + (if x.MakeClosure? then {x.b} else {})
    && s'.names == s.names + (if x.CallDyn? && x.target.None? then {x.name} else {})
    && (if x.CallDyn? && x.target.None?
        then
          && (forall c :: c in table' <==> c in table || (Receiver(m, s, c) && AnswersSome(m, {x.name}, c)))
          && ((forall c: nat :: AnswersSome(m, {x.name}, c) ==> !Receiver(m, s, c)) ==> table' == table)
        else table' == table)
  }

  lemma TargetsAnswer(m: Module, name: string, ts: seq<(nat, nat)>)
    requires ts == Targets(m, name, |m.classes|)
    ensures forall x: nat :: AnswersSome(m, {name}, x) ==> exists j :: 0 <= j < |ts| && ts[j].1 == x
  {
    hide Targets;
    forall x: nat | AnswersSome(m, {name}, x) ensures exists j :: 0 <= j < |ts| && ts[j].1 == x {
      var n, f: nat :| n in {name} && Answers(m, n, f, x);
      assert (f, x) in ts;
      var j :| 0 <= j < |ts| && ts[j] == (f, x);
    }
  }

  lemma SameReceivers(m: Module, s: Found, s': Found)
    requires s.classes == s'.classes
    ensures forall c :: Receiver(m, s, c) <==> Receiver(m, s', c)
  {
  }

  lemma TableCovers(m: Module, names: set<string>, name: string, table: seq<nat>, table': seq<nat>, ts: seq<(nat, nat)>, s: Found)
    requires TableHolds(m, names, table) && (forall x :: x in table ==> x in table')
    requires ts == Targets(m, name, |m.classes|)
    requires forall j :: 0 <= j < |ts| && Receiver(m, s, ts[j].1) ==> ts[j].1 in table'
    ensures TableHolds(m, names + {name}, table')
  {
    hide Targets;
    forall n, f: nat, c: nat | n in names + {name} && Answers(m, n, f, c) && m.classes[c].isValue ensures c in table' {
      if n == name {
        assert (f, c) in ts;
        var j :| 0 <= j < |ts| && ts[j] == (f, c);
        assert Receiver(m, s, ts[j].1);
      }
    }
  }

  lemma MemberInRange(m: Module, c: nat, i: nat)
    requires WellFormed(m) && c < |m.classes| && i < |m.classes[c].members| && m.classes[c].members[i].fn.Some?
    ensures m.classes[c].members[i].fn.value < |m.functions|
  {
    assert GoodClass(m, m.classes[c]);
  }

  lemma AnswerInRange(m: Module, name: string, f: nat, c: nat)
    requires WellFormed(m) && Answers(m, name, f, c)
    ensures f < |m.functions| && c < |m.classes|
  {
    assert GoodClass(m, m.classes[c]);
  }

  lemma TableMore(m: Module, s: Found, table: seq<nat>, table': seq<nat>, name: string, f: nat, c: nat)
    requires TableSound(m, s, table) && Receiver(m, s, c) && name in s.names && Answers(m, name, f, c)
    requires forall x :: x in table' <==> x in table || x == c
    ensures TableSound(m, s, table')
  {
    hide Answers;
    assert AnswersSome(m, s.names, c);
  }

  lemma TableKept(m: Module, s: Found, s': Found, table: seq<nat>)
    requires TableSound(m, s, table) && Within(s, s')
    ensures TableSound(m, s', table)
  {
    hide Answers;
    forall c | c in table ensures Receiver(m, s', c) && AnswersSome(m, s'.names, c) {
      assert AnswersSome(m, s.names, c);
    }
  }

  lemma ClassesKept(m: Module, s: Found, s': Found, but: set<nat>)
    requires ClassesDoneBut(m, s, but) && Within(s, s')
    ensures ClassesDoneBut(m, s', but + (s'.classes - s.classes))
  {
    forall c | c in s'.classes && c !in but + (s'.classes - s.classes) ensures ClassDone(m, s', c) {
      assert ClassDone(m, s, c);
    }
  }

  lemma MembersIn(m: Module, s: Found, c: nat)
    requires c < |m.classes| && ClassesDoneBut(m, s, {c})
    requires var k := m.classes[c];
             forall j :: 0 <= j < |k.members| && k.members[j].fn.Some? && !StreamProtocol(k.members[j].name, k.name) ==>
               k.members[j].fn.value in s.fns
    ensures ClassesDoneBut(m, s, {})
  {
  }

  /** Some function of `fns` makes a closure of b. */
  ghost predicate MadeOf(m: Module, fns: set<nat>, b: int) {
    exists f, i :: f in fns && f < |m.functions| && 0 <= i < |m.functions[f]| && m.functions[f][i] == MakeClosure(b)
  }

  /** The least closed set lists exactly the functions that live code makes closures of. */
  lemma ClosuresAre(m: Module, base: set<nat>, s: Found)
    requires Least(m, base, s)
    ensures forall b :: b in s.closures <==> MadeOf(m, s.fns, b)
  {
    var made := set f, i | f in s.fns && f < |m.functions| && 0 <= i < |m.functions[f]| && m.functions[f][i].MakeClosure? :: m.functions[f][i].b;
    var s' := s.(closures := made);
    forall f | f in s'.fns ensures AllDone(m, s', f) {
      assert AllDone(m, s, f);
      if f < |m.functions| {
        forall i | 0 <= i < |m.functions[f]| ensures InstDone(m, s', m.functions[f][i]) {
          assert InstDone(m, s, m.functions[f][i]);
        }
      }
    }
    forall c | c in s'.classes ensures ClassDone(m, s', c) { assert ClassDone(m, s, c); }
    hide Answers;
    assert Closed(m, base, s');
    forall b ensures b in s.closures <==> MadeOf(m, s.fns, b) {
      if MadeOf(m, s.fns, b) {
        var f, i :| f in s.fns && f < |m.functions| && 0 <= i < |m.functions[f]| && m.functions[f][i] == MakeClosure(b);
        assert AllDone(m, s, f) && InstDone(m, s, m.functions[f][i]);
      }
      if b in s.closures { assert b in made; }
    }
  }

  // -------------------------------------------------------- the order of discovery

  /** What the two class lists give the by-name dispatcher: the instantiated classes and the value classes that answer. */
  ghost predicate Dispatches(m: Module, s: Found, c: nat) {
    c in s.classes || (c < |m.classes| && m.classes[c].isValue && AnswersSome(m, s.names, c))
  }

  lemma DispatchIs(m: Module, s: Found, table: seq<nat>)
    requires TableSound(m, s, table) && TableHolds(m, s.names, table)
    ensures forall c: nat :: c in s.classes || c in table <==> Dispatches(m, s, c)
  {
    hide Answers;
    forall c: nat ensures c in s.classes || c in table <==> Dispatches(m, s, c) {
      if c < |m.classes| && m.classes[c].isValue && AnswersSome(m, s.names, c) {
        var name, f: nat :| name in s.names && Answers(m, name, f, c);
      }
    }
  }

  /** What one complete walk leaves behind. */
  ghost predicate Walked(m: Module, s: Found, table: seq<nat>) {
    && (exists s1 :: Least(m, Roots(m), s1) && Least(m, Roots(m) + Seeds(m, s1.fns), s))
    && (forall c :: c in s.classes || c in table <==> Dispatches(m, s, c))
  }

  /**
   Two walks of one module, whatever order they took work and names in, find the same
   functions, classes and names, and the dispatcher gets cases for the same classes.
   */
  lemma OrderFree(m: Module, s: Found, table: seq<nat>, s': Found, table': seq<nat>)
    requires Walked(m, s, table) && Walked(m, s', table')
    ensures s == s' && forall c: nat :: c in s.classes || c in table <==> c in s'.classes || c in table'
  {
    hide Closed, Seeds, Dispatches;
    var s1 :| Least(m, Roots(m), s1) && Least(m, Roots(m) + Seeds(m, s1.fns), s);
    var s2 :| Least(m, Roots(m), s2) && Least(m, Roots(m) + Seeds(m, s2.fns), s');
    assert Within(s1, s2) && Within(s2, s1);
    assert s1.fns == s2.fns;
    assert Within(s, s') && Within(s', s);
  }

  /** The entry calls `f` by name and constructs class 0, which answers to it, in one order or the other. */
  function TwoSteps(callFirst: bool): Module {
    var call, make := CallDyn(None, "f"), NewObject(-1, Some(0));
    var f := Member("f", Some(1), false);
    Module([if callFirst then [call, make] else [make, call], []], [Class("C", false, true, [f], [f], [f])], 0, -1)
  }

  lemma TwoStepsGood(callFirst: bool)
    ensures WellFormed(TwoSteps(callFirst))
  {
  }

  lemma OnlyC(callFirst: bool)
    ensures forall c: nat :: AnswersSome(TwoSteps(callFirst), {"f"}, c) <==> c == 0
  {
    var m := TwoSteps(callFirst);
    assert m.classes[0].slots[0].name == "f" && m.classes[0].slots[0].fn == Some(1);
    assert Answers(m, "f", 1, 0);
    assert "f" in {"f"} && AnswersSome(m, {"f"}, 0);
  }

  /** The walk of that module up to the end of its entry function, popped and followed as `Drain` does. */
  method ScanEntry(callFirst: bool) returns (w: Walk)
    ensures fresh(w) && w.m == TwoSteps(callFirst) && w.Valid(Roots(w.m), -1) && Idle(w.m, w.work)
    ensures w.State() == Found({0, 1}, {0}, {"f"}, {})
    ensures 0 in w.byNameClasses <==> !callFirst
  {
    hide WellFormed, Closed, ClassDone, Answers, TableHolds, TableSound, ClassesDoneBut, Below, AnswersSome, ByNameClosed;
    TwoStepsGood(callFirst);
    OnlyC(callFirst);
    var m := TwoSteps(callFirst);
    w := new Walk(m);
    ghost var base := Roots(m);
    PopPending(m, w.State(), w.work);
    w.work := w.work[..|w.work| - 1];
    ghost var s0 := w.State();
    assert s0.closures == {} && s0.classes == {};
    w.Follow(0, 0, base);
    ghost var s1, work1 := w.State(), w.work;
    w.Follow(0, 1, base);
    BothDone(callFirst, s1, w.State());
    MembersOfC(callFirst, w.State());
    FirstScanned(m, w.State(), w.work);
    OnlySecond(callFirst, s0, s1, work1, w.State(), w.work);
  }

  /**
   The walk of that module: its table of by-name classes holds class 0 exactly when the
   constructor comes first, though the class is live either way.
   */
  method TwoStepWalk(callFirst: bool) returns (w: Walk)
    ensures w.m == TwoSteps(callFirst) && w.Valid(Roots(w.m), -1) && w.work == [] && ByNameClosed(w.m, w.State())
    ensures w.State() == Found({0, 1}, {0}, {"f"}, {})
    ensures 0 in w.byNameClasses <==> !callFirst
  {
    hide WellFormed, Closed, ClassDone, Answers, TableHolds, TableSound, ClassesDoneBut, Below, AnswersSome, ByNameClosed, Idle;
    w := ScanEntry(callFirst);
    ghost var base := Roots(w.m);
    w.Drain(base);
    var again := w.Sweep(base);
    InRange(w.m, w.State(), w.work);
  }

  lemma FirstScanned(m: Module, s: Found, work: seq<nat>)
    requires Pending(m, s, work, 0) && AllDone(m, s, 0)
    ensures Pending(m, s, work, -1)
  {
    hide AllDone;
  }

  lemma OnlySecond(callFirst: bool, s0: Found, s1: Found, work1: seq<nat>, s: Found, work: seq<nat>)
    requires 0 in s0.fns && Within(s0, s1) && NewWork([], s0.fns, work1) && NewWork(work1, s1.fns, work)
    requires Pending(TwoSteps(callFirst), s, work, -1)
    ensures Idle(TwoSteps(callFirst), work) && s.fns <= {0, 1}
  {
    forall i | 0 <= i < |work| ensures work[i] == 1 {
      assert work[i] in work;
      assert work[i] != 0;
    }
  }

  lemma BothDone(callFirst: bool, s1: Found, s2: Found)
    requires var m := TwoSteps(callFirst); InstDone(m, s1, m.functions[0][0]) && Within(s1, s2) && InstDone(m, s2, m.functions[0][1])
    ensures AllDone(TwoSteps(callFirst), s2, 0)
  {
    var m := TwoSteps(callFirst);
    InstMono(m, s1, s2, m.functions[0][0]);
    hide InstDone;
  }

  lemma MembersOfC(callFirst: bool, s: Found)
    requires ClassesDoneBut(TwoSteps(callFirst), s, {}) && 0 in s.classes
    ensures 1 in s.fns
  {
    var m := TwoSteps(callFirst);
    assert ClassDone(m, s, 0);
    assert m.classes[0].members[0].fn == Some(1) && !StreamProtocol("f", "C");
  }

  lemma InRange(m: Module, s: Found, work: seq<nat>)
    requires Pending(m, s, work, -1) && |m.functions| == 2
    ensures s.fns <= {0, 1}
  {
  }
}
