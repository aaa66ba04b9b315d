/**
 Automatic reference counting with recursive free and weak proxies.

 Memory is a sequence of blocks indexed by address; a freed address may be handed
 out again. The ghost multiset `ext` holds the references owned outside the heap
 (locals, registries, slots a running free has not dropped yet), so that every
 count can be compared with the owners that really exist.
 */
module Arc {

  /** A slot holds an immediate or a reference; `deep` slots also reclaim value structs. */
  datatype Slot = Imm | Ref(addr: nat, deep: bool)

  datatype Kind = Plain | Struct | Proxy(target: Target)

  datatype Target = Nobody | To(addr: nat)

  /** `raw` lists the addresses that the inline element words of an array name; nothing counts or follows them. */
  datatype Blk = Free | Blk(kind: Kind, rc: nat, slots: seq<Slot>, raw: seq<nat>)

  datatype Entry = Entry(target: nat, proxy: nat)

  function SlotRef(s: Slot): multiset<nat> {
    if s.Ref? then multiset{s.addr} else multiset{}
  }

  function Refs(s: seq<Slot>, i: nat): (m: multiset<nat>)
    requires i <= |s|
    decreases |s| - i
  {
    if i == |s| then multiset{}
    else SlotRef(s[i]) + Refs(s, i + 1)
  }

  function RefsOf(b: Blk): multiset<nat> {
    if b.Free? then multiset{} else Refs(b.slots, 0)
  }

  function Held(mem: seq<Blk>, dead: set<nat>, a: nat): multiset<nat> {
    if a >= |mem| || a in dead then multiset{} else RefsOf(mem[a])
  }

  /** References held by the blocks below `n`, leaving out the blocks in `dead`. */
  function Total(mem: seq<Blk>, dead: set<nat>, n: nat): multiset<nat>
    requires n <= |mem|
  {
    if n == 0 then multiset{}
    else Total(mem, dead, n - 1) + Held(mem, dead, n - 1)
  }

  /** Everybody who owns a reference: outside owners and slots of blocks not in `dead`. */
  function Owners(mem: seq<Blk>, dead: set<nat>, ext: multiset<nat>): multiset<nat> {
    ext + Total(mem, dead, |mem|)
  }

  predicate Alive(mem: seq<Blk>, a: nat) {
    a < |mem| && mem[a].Blk?
  }

  predicate IsStruct(mem: seq<Blk>, a: nat) {
    Alive(mem, a) && mem[a].kind.Struct?
  }

  /** Whoever holds `a` is its only owner, as far as counts tell. */
  predicate LastOwner(mem: seq<Blk>, a: nat) {
    Alive(mem, a) && (mem[a].kind.Struct? || mem[a].rc == 1)
  }

  /** The count of block `a` is right, given the owners `o`. */
  predicate RightCount(b: Blk, o: nat) {
    b.Free? || (if b.kind.Struct? then b.rc == 0 && o <= 1 else b.rc == o)
  }

  /**
   The ARC invariant. Every counted block's count is its number of owners, a value struct
   has at most one, nothing owned is free or being freed, and a value struct is only held
   in slots that will reclaim it.
   */
  ghost predicate Inv(mem: seq<Blk>, dying: set<nat>, ext: multiset<nat>) {
    && (forall b :: b in Owners(mem, dying, ext) ==> Alive(mem, b) && b !in dying)
    && (forall b :: 0 <= b < |mem| ==> RightCount(mem[b], Owners(mem, dying, ext)[b]))
    && (forall a, i :: 0 <= a < |mem| && mem[a].Blk? && a !in dying && 0 <= i < |mem[a].slots| ==> GoodSlot(mem, mem[a].slots[i]))
    && (forall a :: 0 <= a < |mem| && mem[a].Blk? && mem[a].kind.Proxy? ==> mem[a].slots == [])
  }

  predicate GoodSlot(mem: seq<Blk>, s: Slot) {
    s.Ref? && IsStruct(mem, s.addr) ==> s.deep
  }

  // --------------------------------------------------------------- sum lemmas

  lemma {:induction false} TotalSame(mem: seq<Blk>, dead: set<nat>, mem': seq<Blk>, dead': set<nat>, n: nat)
    requires n <= |mem| && n <= |mem'|
    requires forall a :: 0 <= a < n ==> Held(mem, dead, a) == Held(mem', dead', a)
    ensures Total(mem, dead, n) == Total(mem', dead', n)
  {
    if n > 0 {
      TotalSame(mem, dead, mem', dead', n - 1);
      assert Held(mem, dead, n - 1) == Held(mem', dead', n - 1);
    }
  }

  lemma TotalUpdate(mem: seq<Blk>, dead: set<nat>, a: nat, b: Blk)
    requires a < |mem|
    requires a in dead || RefsOf(b) == RefsOf(mem[a])
    ensures Total(mem[a := b], dead, |mem|) == Total(mem, dead, |mem|)
  {
    hide RefsOf;
    TotalSame(mem, dead, mem[a := b], dead, |mem|);
  }

  lemma {:induction false} TotalDying(mem: seq<Blk>, dead: set<nat>, a: nat, n: nat)
    requires a < |mem| && a !in dead && n <= |mem|
    ensures Total(mem, dead, n) == Total(mem, dead + {a}, n) + (if a < n then RefsOf(mem[a]) else multiset{})
  {
    hide RefsOf;
    if n > 0 { TotalDying(mem, dead, a, n - 1); }
  }

  lemma SameRefs(b: Blk, b': Blk)
    requires b.Blk? && b'.Blk? && b.slots == b'.slots
    ensures RefsOf(b) == RefsOf(b')
  {}

  // ------------------------------------------------------------ state changes

  /** A block without owners starts to die: its references become loose ones. */
  lemma StartDying(mem: seq<Blk>, dying: set<nat>, ext: multiset<nat>, a: nat)
    requires Inv(mem, dying, ext) && Alive(mem, a) && a !in dying && Owners(mem, dying, ext)[a] == 0
    ensures Inv(mem, dying + {a}, ext + RefsOf(mem[a]))
    ensures Owners(mem, dying + {a}, ext + RefsOf(mem[a])) == Owners(mem, dying, ext)
  {
    hide RefsOf, Total;
    TotalDying(mem, dying, a, |mem|);
    assert Owners(mem, dying + {a}, ext + RefsOf(mem[a])) == Owners(mem, dying, ext);
  }

  /** A dying block whose references are all dropped becomes free memory. */
  lemma FinishDying(mem: seq<Blk>, dying: set<nat>, ext: multiset<nat>, a: nat)
    requires Inv(mem, dying, ext) && a in dying && a < |mem|
    ensures Inv(mem[a := Free], dying - {a}, ext)
    ensures Owners(mem[a := Free], dying - {a}, ext) == Owners(mem, dying, ext)
  {
    hide Total;
    var mem' := mem[a := Free];
    assert dying - {a} + {a} == dying;
    TotalDying(mem', dying - {a}, a, |mem|);
    TotalUpdate(mem, dying, a, Free);
    assert Owners(mem', dying - {a}, ext) == Owners(mem, dying, ext);
  }

  /** Changing one count together with the outside references to it. */
  lemma Recount(mem: seq<Blk>, dying: set<nat>, ext: multiset<nat>, a: nat, r: nat, ext': multiset<nat>)
    requires Inv(mem, dying, ext) && Alive(mem, a) && !IsStruct(mem, a) && a !in dying
    requires forall b :: b != a ==> ext'[b] == ext[b]
    requires r - ext'[a] == mem[a].rc - ext[a]
    ensures Inv(mem[a := mem[a].(rc := r)], dying, ext')
    ensures Total(mem[a := mem[a].(rc := r)], dying, |mem|) == Total(mem, dying, |mem|)
  {
    hide Total, RefsOf;
    var mem' := mem[a := mem[a].(rc := r)];
    SameRefs(mem[a], mem'[a]);
    TotalUpdate(mem, dying, a, mem'[a]);
    var o, o' := Owners(mem, dying, ext), Owners(mem', dying, ext');
    assert o'[a] == o[a] - ext[a] + ext'[a];
    assert forall b :: b != a ==> o'[b] == o[b];
    hide Owners;
    forall b | 0 <= b < |mem'| ensures RightCount(mem'[b], o'[b]) {
      assert RightCount(mem[b], o[b]);
    }
    forall b | b in o' ensures Alive(mem', b) && b !in dying {
      if b != a { assert b in o; }
    }
    forall x, i | 0 <= x < |mem'| && mem'[x].Blk? && x !in dying && 0 <= i < |mem'[x].slots|
      ensures GoodSlot(mem', mem'[x].slots[i])
    {
      assert GoodSlot(mem, mem[x].slots[i]);
    }
  }

  lemma DropCount(mem: seq<Blk>, dying: set<nat>, ext: multiset<nat>, a: nat)
    requires Inv(mem, dying, ext) && a in ext && Alive(mem, a) && !IsStruct(mem, a)
    ensures mem[a].rc >= 1 && Inv(mem[a := mem[a].(rc := mem[a].rc - 1)], dying, ext - multiset{a})
    ensures Owners(mem[a := mem[a].(rc := mem[a].rc - 1)], dying, ext - multiset{a}) == Owners(mem, dying, ext) - multiset{a}
  {
    hide Total;
    assert a in Owners(mem, dying, ext);
    assert RightCount(mem[a], Owners(mem, dying, ext)[a]);
    Recount(mem, dying, ext, a, mem[a].rc - 1, ext - multiset{a});
    hide Inv;
    var mem' := mem[a := mem[a].(rc := mem[a].rc - 1)];
    assert Owners(mem', dying, ext - multiset{a}) == Owners(mem, dying, ext) - multiset{a};
  }

  lemma DropStruct(mem: seq<Blk>, dying: set<nat>, ext: multiset<nat>, a: nat)
    requires Inv(mem, dying, ext) && a in ext && IsStruct(mem, a)
    ensures Inv(mem, dying, ext - multiset{a})
    ensures Owners(mem, dying, ext - multiset{a})[a] == 0
    ensures Owners(mem, dying, ext - multiset{a}) == Owners(mem, dying, ext) - multiset{a}
  {
    hide Total;
    assert RightCount(mem[a], Owners(mem, dying, ext)[a]);
    assert Owners(mem, dying, ext - multiset{a}) == Owners(mem, dying, ext) - multiset{a};
  }

  lemma AddCount(mem: seq<Blk>, dying: set<nat>, ext: multiset<nat>, a: nat)
    requires Inv(mem, dying, ext) && Alive(mem, a) && !IsStruct(mem, a) && a !in dying
    ensures Inv(mem[a := mem[a].(rc := mem[a].rc + 1)], dying, ext + multiset{a})
  {
    Recount(mem, dying, ext, a, mem[a].rc + 1, ext + multiset{a});
  }

  // ------------------------------------------------------------- weak proxies

  /**
   The weak table: targets are live objects or value structs, each listed once, and a proxy
   holds a target exactly when the table lists the pair. Reclaiming a value struct does not
   look at the table: `lost` names the structs reclaimed with an entry perhaps left behind.
   */
  ghost predicate WeakInv(mem: seq<Blk>, dying: set<nat>, table: seq<Entry>, lost: set<nat>) {
    && (forall i :: 0 <= i < |table| ==> GoodEntry(mem, dying, lost, table[i]))
    && (forall c :: c in lost ==> c < |mem| && (mem[c].Free? || c in dying))
    && (forall i, j :: 0 <= i < j < |table| ==> table[i].target != table[j].target)
    && (forall p :: 0 <= p < |mem| && mem[p].Blk? && mem[p].kind.Proxy? && mem[p].kind.target.To? ==>
          Entry(mem[p].kind.target.addr, p) in table)
  }

  predicate GoodEntry(mem: seq<Blk>, dying: set<nat>, lost: set<nat>, e: Entry) {
    && (e.target in lost || (Alive(mem, e.target) && e.target !in dying && !mem[e.target].kind.Proxy?))
    && Alive(mem, e.proxy) && e.proxy !in dying && mem[e.proxy].kind == Proxy(To(e.target))
  }

  /** Position of the entry for `t`, or the table's length. */
  function WeakFind(table: seq<Entry>, t: nat): (i: nat)
    ensures i <= |table|
    ensures i < |table| ==> table[i].target == t
    ensures forall j :: 0 <= j < i ==> table[j].target != t
  {
    if table == [] || table[0].target == t then 0 else 1 + WeakFind(table[1..], t)
  }

  /** Swap-delete: the last entry takes the place of the removed one. */
  function RemoveAt(table: seq<Entry>, i: nat): (r: seq<Entry>)
    requires i < |table|
    ensures |r| == |table| - 1
    ensures forall j :: 0 <= j < |r| ==> r[j] == if j == i then table[|table| - 1] else table[j]
  {
    var last := |table| - 1;
    table[i := table[last]][..last]
  }

  lemma RemovedEntry(table: seq<Entry>, i: nat, e: Entry)
    requires i < |table|
    requires forall i, j :: 0 <= i < j < |table| ==> table[i].target != table[j].target
    ensures e in RemoveAt(table, i) <==> e in table && e != table[i]
  {
    var r, last := RemoveAt(table, i), |table| - 1;
    if e in table && e != table[i] {
      var j :| 0 <= j < |table| && table[j] == e;
      assert r[if j == last then i else j] == e;
    }
    if e in r {
      var j :| 0 <= j < |r| && r[j] == e;
    }
  }

  /** Entry `i` goes away together with its target or its proxy. */
  lemma WeakRemove(mem: seq<Blk>, dying: set<nat>, table: seq<Entry>, lost: set<nat>, i: nat)
    requires WeakInv(mem, dying, table, lost) && i < |table|
    ensures var p := table[i].proxy;
            Alive(mem, p) && mem[p].kind.Proxy? &&
            WeakInv(mem[p := mem[p].(kind := Proxy(Nobody))], dying, RemoveAt(table, i), lost)
    ensures forall e :: e in RemoveAt(table, i) ==> e.target != table[i].target && e.proxy != table[i].proxy
  {
    assert GoodEntry(mem, dying, lost, table[i]);
    var p, r := table[i].proxy, RemoveAt(table, i);
    var mem' := mem[p := mem[p].(kind := Proxy(Nobody))];
    forall e ensures e in r <==> e in table && e != table[i] { RemovedEntry(table, i, e); }
    forall e | e in r ensures e.target != table[i].target && e.proxy != p && GoodEntry(mem', dying, lost, e) {
      assert e in table;
      var j :| 0 <= j < |table| && table[j] == e;
      assert GoodEntry(mem, dying, lost, table[j]);
    }
    forall x, y | 0 <= x < y < |r| ensures r[x].target != r[y].target {
      assert r[x] in r && r[y] in r;
    }
    forall q | 0 <= q < |mem'| && mem'[q].Blk? && mem'[q].kind.Proxy? && mem'[q].kind.target.To?
      ensures Entry(mem'[q].kind.target.addr, q) in r
    {
      assert Entry(mem[q].kind.target.addr, q) in table;
    }
  }

  // ------------------------------------------------------- what a free has done

  predicate SameBody(b: Blk, b0: Blk) {
    b.Free? == b0.Free? && (b.Blk? ==> b.slots == b0.slots && b.raw == b0.raw && (b.kind == b0.kind || (b.kind.Proxy? && b0.kind.Proxy?)))
  }

  predicate InLog(log: seq<nat>, a: nat) {
    a in log
  }

  function LogSet(log: seq<nat>): set<nat> {
    set a | a in log
  }

  /**
   `log` lists the blocks that died since memory was `mem0`, in order. Each was, when its
   turn came, owned by nobody: every owner it had had died before it.
   */
  ghost predicate Hist(mem0: seq<Blk>, base: multiset<nat>, mem: seq<Blk>, dying: set<nat>, log: seq<nat>) {
    && |mem| == |mem0|
    && (forall c :: 0 <= c < |mem| && !InLog(log, c) ==> SameBody(mem[c], mem0[c]))
    && (forall c :: 0 <= c < |mem| && InLog(log, c) ==> mem0[c].Blk? && (mem[c].Free? || c in dying))
    && (forall c :: c in dying ==> InLog(log, c))
    && (forall i :: 0 <= i < |log| ==> log[i] < |mem0|)
    && Derived(mem0, base, log)
  }

  ghost predicate Derived(mem0: seq<Blk>, base: multiset<nat>, log: seq<nat>) {
    forall i :: 0 <= i < |log| ==> log[i] !in log[..i] && Owners(mem0, LogSet(log[..i]), base)[log[i]] == 0
  }

  lemma SameTotal(mem0: seq<Blk>, base: multiset<nat>, mem: seq<Blk>, dying: set<nat>, log: seq<nat>)
    requires Hist(mem0, base, mem, dying, log)
    ensures Total(mem, dying, |mem|) == Total(mem0, LogSet(log), |mem0|)
  {
    forall a | 0 <= a < |mem| ensures Held(mem, dying, a) == Held(mem0, LogSet(log), a) {
      if !InLog(log, a) && mem[a].Blk? {
        assert SameBody(mem[a], mem0[a]);
        SameRefs(mem[a], mem0[a]);
      }
    }
    TotalSame(mem, dying, mem0, LogSet(log), |mem|);
  }

  lemma DerivedAppend(mem0: seq<Blk>, base: multiset<nat>, log: seq<nat>, a: nat)
    requires Derived(mem0, base, log) && a !in log && Owners(mem0, LogSet(log), base)[a] == 0
    ensures Derived(mem0, base, log + [a])
  {
    hide Owners, LogSet;
    var log' := log + [a];
    forall i | 0 <= i < |log'| ensures log'[i] !in log'[..i] && Owners(mem0, LogSet(log'[..i]), base)[log'[i]] == 0 {
      assert log'[..i] == if i < |log| then log[..i] else log;
    }
  }

  lemma HistDie(mem0: seq<Blk>, base: multiset<nat>, mem: seq<Blk>, dying: set<nat>, ext: multiset<nat>, log: seq<nat>, a: nat)
    requires Hist(mem0, base, mem, dying, log) && base <= ext
    requires Alive(mem, a) && a !in dying && Owners(mem, dying, ext)[a] == 0
    ensures Hist(mem0, base, mem, dying + {a}, log + [a])
  {
    UnownedThen(mem0, base, mem, dying, ext, log, a);
    hide Owners, Derived, LogSet, SameBody;
    assert !InLog(log, a);
    DerivedAppend(mem0, base, log, a);
    forall c ensures InLog(log + [a], c) <==> InLog(log, c) || c == a {}
    hide InLog;
  }

  /** A block without owners now had none in the memory the free began with, once the logged ones are gone. */
  lemma UnownedThen(mem0: seq<Blk>, base: multiset<nat>, mem: seq<Blk>, dying: set<nat>, ext: multiset<nat>, log: seq<nat>, a: nat)
    requires Hist(mem0, base, mem, dying, log) && base <= ext && Owners(mem, dying, ext)[a] == 0
    ensures Owners(mem0, LogSet(log), base)[a] == 0
  {
    hide Hist, LogSet, Total;
    SameTotal(mem0, base, mem, dying, log);
    HistSize(mem0, base, mem, dying, log);
  }

  lemma HistSize(mem0: seq<Blk>, base: multiset<nat>, mem: seq<Blk>, dying: set<nat>, log: seq<nat>)
    requires Hist(mem0, base, mem, dying, log)
    ensures |mem| == |mem0|
  {
    hide Derived;
  }

  lemma HistFree(mem0: seq<Blk>, base: multiset<nat>, mem: seq<Blk>, dying: set<nat>, log: seq<nat>, a: nat)
    requires Hist(mem0, base, mem, dying, log) && a in dying && a < |mem|
    ensures Hist(mem0, base, mem[a := Free], dying - {a}, log)
  {
    hide Derived;
  }

  lemma HistChange(mem0: seq<Blk>, base: multiset<nat>, mem: seq<Blk>, dying: set<nat>, log: seq<nat>, a: nat, b: Blk)
    requires Hist(mem0, base, mem, dying, log) && Alive(mem, a) && b.Blk?
    requires b.slots == mem[a].slots && b.raw == mem[a].raw && (b.kind == mem[a].kind || (b.kind.Proxy? && mem[a].kind.Proxy?))
    ensures Hist(mem0, base, mem[a := b], dying, log)
  {
    hide Derived;
  }

  /** The kind of an owned block has not changed since `mem0`. */
  lemma SameStruct(mem0: seq<Blk>, base: multiset<nat>, mem: seq<Blk>, dying: set<nat>, ext: multiset<nat>, log: seq<nat>, a: nat)
    requires Hist(mem0, base, mem, dying, log) && Inv(mem, dying, ext) && a in Owners(mem, dying, ext)
    ensures Alive(mem, a) && a !in dying && !InLog(log, a) && IsStruct(mem, a) == IsStruct(mem0, a)
  {
    hide Derived, Owners;
    assert SameBody(mem[a], mem0[a]);
  }

  // ---------------------------------------------------------------- the heap

  ghost function LiveSet(mem: seq<Blk>, dying: set<nat>): set<nat> {
    set a | 0 <= a < |mem| && mem[a].Blk? && a !in dying
  }

  lemma LiveSame(mem: seq<Blk>, mem': seq<Blk>, dying: set<nat>)
    requires |mem| == |mem'| && forall c :: 0 <= c < |mem| ==> mem[c].Blk? == mem'[c].Blk?
    ensures LiveSet(mem, dying) == LiveSet(mem', dying)
  {}

  lemma LiveDying(mem: seq<Blk>, dying: set<nat>, a: nat)
    requires Alive(mem, a) && a !in dying
    ensures LiveSet(mem, dying + {a}) < LiveSet(mem, dying)
  {
    assert a in LiveSet(mem, dying) && a !in LiveSet(mem, dying + {a});
  }

  lemma LiveDead(mem: seq<Blk>, dying: set<nat>, a: nat)
    requires a < |mem| && a in dying
    ensures LiveSet(mem[a := Free], dying - {a}) == LiveSet(mem, dying)
  {}

  lemma LooseEnough(ext: multiset<nat>, base: multiset<nat>, a: nat)
    requires base + multiset{a} <= ext
    ensures base <= ext - multiset{a} && a in ext
  {}

  lemma RefsStep(s: seq<Slot>, i: nat, kept: multiset<nat>, base: multiset<nat>)
    requires i < |s| && base <= kept
    ensures s[i].Imm? ==> Refs(s, i) == Refs(s, i + 1)
    ensures s[i].Ref? ==> base + multiset{s[i].addr} <= kept + Refs(s, i) &&
                          kept + Refs(s, i) - multiset{s[i].addr} == kept + Refs(s, i + 1)
    ensures base <= kept + Refs(s, i)
  {}

  lemma RefsEnd(s: seq<Slot>)
    ensures Refs(s, |s|) == multiset{}
  {}

  /** The state a free starts from: memory, the outside references it may not touch, all owners, the weak table. */
  datatype Start = Start(mem: seq<Blk>, base: multiset<nat>, owners: multiset<nat>, table: seq<Entry>, lost: set<nat>)

  /** The value structs among the logged blocks. */
  function Structs(mem0: seq<Blk>, log: seq<nat>): set<nat> {
    set c | c in log && IsStruct(mem0, c)
  }

  /** What a free has done to the table: an entry goes with its proxy, or with its target unless that is a value struct. */
  ghost predicate TableAfter(mem0: seq<Blk>, table0: seq<Entry>, table: seq<Entry>, log: seq<nat>) {
    forall e :: e in table <==> e in table0 && !InLog(log, e.proxy) && (InLog(log, e.target) ==> IsStruct(mem0, e.target))
  }

  ghost predicate Tracked(o0: multiset<nat>, mem: seq<Blk>, dying: set<nat>, o: multiset<nat>, but: set<nat>) {
    && o <= o0
    && (forall c :: c in but ==> c in o0)
    && forall c :: 0 <= c < |mem| && mem[c].Blk? && c !in dying && c !in but && c !in o ==> c !in o0
  }

  class Heap {
    var mem: seq<Blk>
    var table: seq<Entry>
    ghost var dying: set<nat>
    ghost var ext: multiset<nat>
    ghost var log: seq<nat>
    ghost var lost: set<nat>

    /** Holds between operations and, with `dying` naming the blocks on the stack, during a free. */
    ghost predicate Ok()
      reads this
    {
      Inv(mem, dying, ext) && WeakInv(mem, dying, table, lost)
    }

    /** No block has lost its last owner unnoticed since the free began, `but` excepted. */
    ghost predicate Tracks(g: Start, but: set<nat>)
      reads this
    {
      && Tracked(g.owners, mem, dying, Owners(mem, dying, ext), but)
      && (forall i :: 0 <= i < |log| ==> log[i] in g.owners)
      && lost == g.lost + Structs(g.mem, log)
    }

    ghost predicate Lists(g: Start)
      reads this`table, this`log
    {
      TableAfter(g.mem, g.table, table, log)
    }

    ghost function Live(): set<nat>
      reads this
    {
      LiveSet(mem, dying)
    }

    /** What every step of a free keeps, relative to the memory `mem0` it started from. */
    twostate predicate Freeing(g: Start)
      reads this
    {
      && Ok() && Hist(g.mem, g.base, mem, dying, log) && Tracks(g, {}) && Lists(g)
      && dying == old(dying) && |old(mem)| == |mem|
      && Live() <= old(Live())
      && (forall c :: c in dying && c < |mem| ==> mem[c] == old(mem)[c])
    }

    /** Clears the proxy of `a`, if it has one, before anything else of `a` is taken apart. */
    method WeakInvalidate(a: nat, ghost g: Start)
      requires Ok() && Hist(g.mem, g.base, mem, dying, log)
      modifies this`mem, this`table
      ensures forall e :: e in table <==> e in old(table) && e.target != a
      ensures Ok() && Hist(g.mem, g.base, mem, dying, log) && |mem| == |old(mem)|
      ensures forall c :: c in dying && c < |mem| ==> mem[c] == old(mem)[c]
      ensures forall e :: e in table ==> e.target != a
      ensures forall c :: 0 <= c < |mem| ==> SameBody(mem[c], old(mem)[c]) && (mem[c].Blk? ==> mem[c].rc == old(mem)[c].rc)
      ensures Live() == old(Live())
    {
      hide Inv, Hist, WeakInv, RemoveAt;
      var i := WeakFind(table, a);
      if i == |table| {
        NoEntry(mem, dying, table, lost, a);
      } else {
        EntryAt(mem, dying, table, lost, i);
        var p := table[i].proxy;
        WeakRemove(mem, dying, table, lost, i);
        RemovedTarget(mem, dying, table, lost, i);
        HistChange(g.mem, g.base, mem, dying, log, p, mem[p].(kind := Proxy(Nobody)));
        ClearProxy(mem, dying, ext, p);
        mem := mem[p := mem[p].(kind := Proxy(Nobody))];
        table := RemoveAt(table, i);
      }
    }

    /** Drops one owned reference to `a`; the last one frees the block and what only it kept alive. */
    method Release(a: nat, ghost g: Start)
      requires Ok() && Hist(g.mem, g.base, mem, dying, log) && Tracks(g, {}) && Lists(g)
      requires a in ext && g.base + multiset{a} <= ext
      modifies this
      ensures Freeing(g)
      ensures ext == if IsStruct(old(mem), a) then old(ext) else old(ext) - multiset{a}
      ensures IsStruct(old(mem), a) ==> mem == old(mem)
      ensures !IsStruct(old(mem), a) ==> !IsStruct(mem, a)
      ensures LastOwner(old(mem), a) ==> IsStruct(old(mem), a) || mem[a].Free?
      decreases Live(), 5
    {
      hide Inv, Hist, WeakInv, RightCount, Owners, Tracked, LiveSet, SameBody, TableAfter, Structs;
      OwnedAlive(mem, dying, ext, a);
      if !IsStruct(mem, a) { DropCount(mem, dying, ext, a); }
      if !Alive(mem, a) || IsStruct(mem, a) || mem[a].rc == 0 { return; }
      Decrement(a, g);
      FreeIfLast(a, g);
    }

    /** The count is right again: without an owner the block is freed. */
    method FreeIfLast(a: nat, ghost g: Start)
      requires Ok() && Hist(g.mem, g.base, mem, dying, log) && Tracks(g, {a}) && Lists(g) && g.base <= ext
      requires Alive(mem, a) && !IsStruct(mem, a) && a !in dying && mem[a].rc == Owners(mem, dying, ext)[a]
      modifies this
      ensures Freeing(g) && ext == old(ext) && !IsStruct(mem, a)
      ensures old(mem)[a].rc == 0 ==> mem[a].Free?
      decreases Live(), 4
    {
      hide Inv, Hist, WeakInv, RightCount, Owners, Tracked, LiveSet, SameBody, TableAfter, Structs;
      if mem[a].rc == 0 {
        RecursiveFree(a, g);
      } else {
        TrackKept(g.owners, mem, dying, Owners(mem, dying, ext), a);
      }
    }

    /** The count alone; the block may now have no owner. */
    method Decrement(a: nat, ghost g: Start)
      requires Ok() && Hist(g.mem, g.base, mem, dying, log) && Tracks(g, {}) && Lists(g)
      requires a in ext && g.base + multiset{a} <= ext && Alive(mem, a) && !IsStruct(mem, a) && mem[a].rc > 0
      modifies this`mem, this`ext
      ensures Ok() && Hist(g.mem, g.base, mem, dying, log) && Tracks(g, {a}) && a !in dying
      ensures mem == old(mem)[a := old(mem)[a].(rc := old(mem)[a].rc - 1)] && ext == old(ext) - multiset{a}
      ensures Live() == old(Live()) && g.base <= ext
      ensures mem[a].rc == Owners(mem, dying, ext)[a]
    {
      hide Inv, Hist, WeakInv, RightCount, Owners, Tracked, LiveSet, SameBody, TableAfter, Structs;
      OwnedAlive(mem, dying, ext, a);
      TrackDrop(g.owners, mem, dying, Owners(mem, dying, ext), a);
      DropCount(mem, dying, ext, a);
      ghost var before := mem;
      HistChange(g.mem, g.base, mem, dying, log, a, mem[a].(rc := mem[a].rc - 1));
      WeakRecount(mem, dying, table, lost, a, mem[a].rc - 1);
      mem := mem[a := mem[a].(rc := mem[a].rc - 1)];
      ext := ext - multiset{a};
      LiveSame(before, mem, dying);
      TrackSame(g.owners, before, mem, dying, Owners(mem, dying, ext), {a});
      LooseEnough(old(ext), g.base, a);
      CountIsOwners(mem, dying, ext, a);
    }

    /** Frees a block nobody owns any more. */
    method RecursiveFree(a: nat, ghost g: Start)
      requires Ok() && Hist(g.mem, g.base, mem, dying, log) && g.base <= ext
      requires Alive(mem, a) && !IsStruct(mem, a) && a !in dying && Owners(mem, dying, ext)[a] == 0 && Tracks(g, {a}) && Lists(g)
      modifies this
      ensures Freeing(g)
      ensures ext == old(ext) && mem[a].Free?
      decreases Live(), 3
    {
      hide Inv, Hist, WeakInv, RightCount, Owners, Tracked, TableAfter, Structs;
      if mem[a].kind.Proxy? {
        FreeProxy(a, g);
      } else {
        NotLogged(g.mem, g.base, mem, dying, log, a);
        NeverAProxy(mem, dying, table, lost, a);
        WeakInvalidate(a, g);
        TableDrop(g.mem, g.table, old(table), table, log, a);
        SameOwners(old(mem), mem, dying, ext);
        TrackSame(g.owners, old(mem), mem, dying, Owners(mem, dying, ext), {a});
        assert SameBody(mem[a], old(mem)[a]);
        FreeWalk(a, g);
      }
    }

    /** A dying proxy takes its table entry with it. */
    method FreeProxy(a: nat, ghost g: Start)
      requires Ok() && Hist(g.mem, g.base, mem, dying, log) && g.base <= ext
      requires Alive(mem, a) && mem[a].kind.Proxy? && a !in dying && Owners(mem, dying, ext)[a] == 0 && Tracks(g, {a}) && Lists(g)
      modifies this
      ensures Freeing(g)
      ensures ext == old(ext) && mem[a].Free?
    {
      hide Inv, Hist, WeakInv, RightCount, Owners, Tracked, TableAfter, Structs;
      NotLogged(g.mem, g.base, mem, dying, log, a);
      StructsMore(g.mem, log, a);
      TrackDie(g.owners, mem, dying, Owners(mem, dying, ext), a);
      TrackFree(g.owners, mem, dying + {a}, Owners(mem, dying, ext), a);
      ProxyHoldsNothing(mem, dying, ext, a);
      StartDying(mem, dying, ext, a);
      HistDie(g.mem, g.base, mem, dying, ext, log, a);
      FinishDying(mem, dying + {a}, ext + RefsOf(mem[a]), a);
      HistFree(g.mem, g.base, mem, dying + {a}, log + [a], a);
      assert dying + {a} - {a} == dying && ext + RefsOf(mem[a]) == ext;
      var t := mem[a].kind.target;
      if t.To? {
        var i := WeakFind(table, t.addr);
        ProxyEntry(mem, dying, table, lost, a);
        if i < |table| && table[i].proxy == a {
          WeakRemove(mem, dying, table, lost, i);
          ProxyGone(mem, dying, table, lost, i, a);
          TableProxy(g.mem, g.table, table, RemoveAt(table, i), log, a);
          WeakFree(mem[a := mem[a].(kind := Proxy(Nobody))], dying, RemoveAt(table, i), lost, a);
          assert mem[a := mem[a].(kind := Proxy(Nobody))][a := Free] == mem[a := Free];
          table := RemoveAt(table, i);
        }
      } else {
        IdleProxy(mem, dying, table, lost, a);
        TableProxy(g.mem, g.table, table, table, log, a);
        WeakFree(mem, dying, table, lost, a);
      }
      log := log + [a];
      mem := mem[a := Free];
    }

    /** Takes an ownerless block apart: drops every slot, then returns the memory. */
    method FreeWalk(a: nat, ghost g: Start)
      requires Ok() && Hist(g.mem, g.base, mem, dying, log) && g.base <= ext
      requires Alive(mem, a) && !mem[a].kind.Proxy? && a !in dying && Owners(mem, dying, ext)[a] == 0 && Tracks(g, {a})
      requires TableAfter(g.mem, g.table, table, log + [a])
      requires IsStruct(mem, a) || forall e :: e in table ==> e.target != a
      modifies this
      ensures Freeing(g)
      ensures ext == old(ext) && mem[a].Free?
      decreases Live(), 2
    {
      hide Inv, Hist, WeakInv, RightCount, Owners, GoodSlot, InLog, LiveSet, Refs, Tracked, TableAfter, Structs;
      NotLogged(g.mem, g.base, mem, dying, log, a);
      StructsMore(g.mem, log, a);
      TrackDie(g.owners, mem, dying, Owners(mem, dying, ext), a);
      SlotsStayGood(g.mem, g.base, mem, dying, ext, log, a);
      StartDying(mem, dying, ext, a);
      HistDie(g.mem, g.base, mem, dying, ext, log, a);
      WeakDying(mem, dying, table, lost, a);
      LiveDying(mem, dying, a);
      lost := if IsStruct(mem, a) then lost + {a} else lost;
      log, dying := log + [a], dying + {a};
      ext := ext + RefsOf(mem[a]);
      WalkSlots(a, old(ext), g);
      LiveDead(mem, dying, a);
      TrackFree(g.owners, mem, dying, Owners(mem, dying, ext), a);
      FinishDying(mem, dying, ext, a);
      HistFree(g.mem, g.base, mem, dying, log, a);
      WeakDead(mem, dying, table, lost, a);
      mem := mem[a := Free];
      dying := dying - {a};
      assert dying == old(dying);
    }

    /** Drops the slots of a dying block one after the other. */
    method WalkSlots(a: nat, ghost kept: multiset<nat>, ghost g: Start)
      requires Ok() && Hist(g.mem, g.base, mem, dying, log) && Tracks(g, {}) && Lists(g)
      requires Alive(mem, a) && a in dying && g.base <= kept && ext == kept + RefsOf(mem[a])
      requires forall i :: 0 <= i < |mem[a].slots| ==> GoodSlot(g.mem, mem[a].slots[i])
      modifies this
      ensures Freeing(g) && ext == kept
      decreases Live(), 7
    {
      hide Inv, Hist, WeakInv, RightCount, Owners, GoodSlot, InLog, LiveSet, Refs, Tracked, TableAfter, Structs;
      var slots := mem[a].slots;
      for i := 0 to |slots|
        invariant Freeing(g) && ext == kept + Refs(slots, i)
      {
        RefsStep(slots, i, kept, g.base);
        DropSlot(slots[i], g);
      }
      RefsEnd(slots);
    }

    /** One round of the walk: release the slot's reference, then reclaim an inline struct. */
    method DropSlot(s: Slot, ghost g: Start)
      requires Ok() && Hist(g.mem, g.base, mem, dying, log) && Tracks(g, {}) && Lists(g) && GoodSlot(g.mem, s)
      requires g.base <= ext && (s.Ref? ==> g.base + multiset{s.addr} <= ext)
      modifies this
      ensures Freeing(g)
      ensures ext == if s.Ref? then old(ext) - multiset{s.addr} else old(ext)
      decreases Live(), 6
    {
      hide Inv, Hist, WeakInv, Tracked, Owners, TableAfter, Structs;
      if s.Ref? {
        OwnedAlive(mem, dying, ext, s.addr);
        SameStruct(g.mem, g.base, mem, dying, ext, log, s.addr);
        Release(s.addr, g);
        if s.deep { VFree(s.addr, g); }
      }
    }

    /** Reclaims a value struct; anything else is left alone. */
    method VFree(a: nat, ghost g: Start)
      requires Ok() && Hist(g.mem, g.base, mem, dying, log) && g.base <= ext && Tracks(g, {}) && Lists(g)
      requires IsStruct(mem, a) ==> a in ext && g.base + multiset{a} <= ext
      modifies this
      ensures Freeing(g)
      ensures ext == if IsStruct(old(mem), a) then old(ext) - multiset{a} else old(ext)
      ensures IsStruct(old(mem), a) ==> mem[a].Free?
      decreases Live(), 3
    {
      hide Inv, Hist, WeakInv, Owners, RightCount, Tracked, TableAfter, Structs;
      if !IsStruct(mem, a) { return; }
      StructUncounted(mem, dying, ext, a);
      if mem[a].rc != 0 { return; }
      OwnedAlive(mem, dying, ext, a);
      TrackDrop(g.owners, mem, dying, Owners(mem, dying, ext), a);
      DropStruct(mem, dying, ext, a);
      NotLogged(g.mem, g.base, mem, dying, log, a);
      NeverAProxy(mem, dying, table, lost, a);
      TableStruct(g.mem, g.table, table, log, a);
      ext := ext - multiset{a};
      FreeWalk(a, g);
    }

    // ------------------------------------------------------------- operations

    /** The invariant between operations; a proxy may still name a reclaimed value struct. */
    ghost predicate Steady()
      reads this
    {
      Ok() && dying == {}
    }

    /** The same, and every proxy names a live target or nothing. */
    ghost predicate Valid()
      reads this
    {
      Steady() && lost == {}
    }

    constructor ()
      ensures Valid() && mem == [] && table == [] && ext == multiset{}
    {
      mem, table, dying, ext, log, lost := [], [], {}, multiset{}, [], {};
    }

    /** Takes one more reference to a live counted block. */
    method Retain(a: nat)
      requires Steady() && Alive(mem, a) && !IsStruct(mem, a)
      modifies this`mem, this`ext
      ensures Steady() && mem == old(mem)[a := old(mem)[a].(rc := old(mem)[a].rc + 1)] && ext == old(ext) + multiset{a}
    {
      hide Inv, WeakInv;
      AddCount(mem, dying, ext, a);
      WeakRecount(mem, dying, table, lost, a, mem[a].rc + 1);
      mem := mem[a := mem[a].(rc := mem[a].rc + 1)];
      ext := ext + multiset{a};
    }

    /**
     Gives up one outside reference; a value struct is reclaimed on the spot. Exactly the
     blocks that are left without an owner are freed, each once; every other block keeps its
     contents. The weak table stays right if and only if no reclaimed value struct leaves a
     proxy behind.
     */
    method Drop(a: nat) returns (ghost freed: seq<nat>)
      requires Steady() && a in ext
      modifies this
      ensures Steady() && ext == old(ext) - multiset{a} && |mem| == |old(mem)|
      ensures FreedExactly(old(mem), ext, old(Owners(mem, {}, ext)), mem, freed)
      ensures TableAfter(old(mem), old(table), table, freed)
      ensures LastOwner(old(mem), a) ==> mem[a].Free?
      ensures lost <= old(lost) + Structs(old(mem), freed)
      ensures old(lost) == {} ==> (Valid() <==> NoneLeftBehind(old(mem), old(table), freed))
      ensures old(lost) == {} ==> (WeakInv(mem, {}, table, {}) <==> NoneLeftBehind(old(mem), old(table), freed))
    {
      hide Inv, WeakInv, Owners, Hist, Tracked, FreedExactly, TableAfter, Structs, NoneLeftBehind, LiveSet;
      ghost var g := Start(mem, ext - multiset{a}, Owners(mem, {}, ext), table, lost);
      DropWalk(a, g);
      freed := log;
      FreedIsExact(g, mem, ext, log);
      StaleIff(g.mem, g.base, g.table, mem, table, log, lost, g.lost);
      if g.lost == {} && NoneLeftBehind(g.mem, g.table, log) { lost := {}; }
    }

    method DropWalk(a: nat, ghost g: Start)
      requires Steady() && a in ext
      requires g == Start(mem, ext - multiset{a}, Owners(mem, {}, ext), table, lost)
      modifies this
      ensures Freeing(g) && ext == g.base && (LastOwner(old(mem), a) ==> mem[a].Free?)
    {
      hide Inv, WeakInv, Owners, Hist, Tracked, TableAfter, Structs, LiveSet;
      log := [];
      HistStart(mem, g.base);
      TrackStart(mem, g.owners);
      TableStart(mem, table);
      Release(a, g);
      if IsStruct(mem, a) { VFree(a, g); }
    }

    /**
     Allocates a block at any unused address; it takes over references the caller owned. The address
     may be that of a value struct that left its proxy behind: the proxy then names the new block.
     */
    method New(at: nat, isStruct: bool, slots: seq<Slot>, raw: seq<nat>)
      requires Steady() && (at < |mem| ==> mem[at].Free?) && at <= |mem|
      requires Refs(slots, 0) <= ext
      requires forall i :: 0 <= i < |slots| ==> GoodSlot(mem, slots[i])
      modifies this`mem, this`ext, this`lost
      ensures Steady() && lost == old(lost) - {at}
      ensures Alive(mem, at) && mem[at] == Blk(if isStruct then Struct else Plain, 0, slots, raw)
      ensures ext == old(ext) - Refs(slots, 0) + (if isStruct then multiset{at} else multiset{})
      ensures |mem| == if at < |old(mem)| then |old(mem)| else at + 1
      ensures forall c :: 0 <= c < |old(mem)| && c != at ==> mem[c] == old(mem)[c]
    {
      hide Inv, WeakInv, GoodSlot, Refs;
      if at == |mem| { Grow(); }
      forall i | 0 <= i < |slots| ensures GoodSlot(mem, slots[i]) {
        SlotGrow(old(mem), mem, slots[i]);
      }
      Place(at, Blk(if isStruct then Struct else Plain, 0, slots, raw));
    }

    /** Makes one more address available. */
    method Grow()
      requires Steady()
      modifies this`mem
      ensures Steady() && mem == old(mem) + [Free]
    {
      hide Inv, WeakInv;
      GrowInv(mem, ext);
      GrowWeak(mem, table, lost);
      mem := mem + [Free];
    }

    method Place(at: nat, b: Blk)
      requires Steady() && at < |mem| && mem[at].Free? && b.Blk? && b.rc == 0 && !b.kind.Proxy?
      requires Refs(b.slots, 0) <= ext
      requires forall i :: 0 <= i < |b.slots| ==> GoodSlot(mem, b.slots[i])
      modifies this`mem, this`ext, this`lost
      ensures Steady() && mem == old(mem)[at := b] && lost == old(lost) - {at}
      ensures ext == old(ext) - Refs(b.slots, 0) + (if b.kind.Struct? then multiset{at} else multiset{})
    {
      hide Inv, WeakInv, GoodSlot, Refs;
      PlaceInv(mem, ext, at, b);
      PlaceWeak(mem, table, lost, at, b);
      mem, lost := mem[at := b], lost - {at};
      ext := ext - Refs(b.slots, 0) + (if b.kind.Struct? then multiset{at} else multiset{});
    }

    /**
     Reads a weak slot: nothing, or its target, retained if it is counted. The target is live, and the
     read in order, if and only if the proxy does not name a reclaimed value struct.
     */
    method WeakLoad(p: nat) returns (t: Target, ok: bool)
      requires Steady() && Alive(mem, p) && mem[p].kind.Proxy?
      modifies this`mem, this`ext
      ensures Steady() && t == old(mem)[p].kind.target
      ensures ok <==> !(t.To? && t.addr in lost)
      ensures t.To? ==> (ok <==> Alive(old(mem), t.addr))
      ensures ok && t.To? ==> Alive(mem, t.addr) && !mem[t.addr].kind.Proxy?
      ensures mem == if ok && t.To? && !IsStruct(old(mem), t.addr)
                     then old(mem)[t.addr := old(mem)[t.addr].(rc := old(mem)[t.addr].rc + 1)] else old(mem)
      ensures ext == old(ext) + (if ok && t.To? && !IsStruct(old(mem), t.addr) then multiset{t.addr} else multiset{})
      ensures t.To? ==> exists i :: 0 <= i < |table| && table[i] == Entry(t.addr, p)
    {
      hide Inv, WeakInv;
      t, ok := mem[p].kind.target, true;
      if t.To? {
        ListedOnce(mem, table, lost, p);
        ok := t.addr < |mem| && mem[t.addr].Blk?;
        if ok && !IsStruct(mem, t.addr) { Retain(t.addr); }
      }
    }

    /**
     Points a weak slot at `t`, an object or a value struct: gives up the proxy the slot held,
     then shares the target's proxy or makes one at an unused address. The target itself is
     not retained, and nothing but the proxy given up can be freed.
     */
    method WeakStore(slot: Target, t: Target, at: nat) returns (p: Target)
      requires Steady() && (at < |mem| ==> mem[at].Free?) && at <= |mem| && at !in lost
      requires slot.To? ==> slot.addr in ext && Alive(mem, slot.addr) && mem[slot.addr].kind.Proxy?
      requires t.To? ==> t.addr in ext - Loose(slot) && Alive(mem, t.addr) && !mem[t.addr].kind.Proxy?
      modifies this
      ensures Steady() && lost <= old(lost)
      ensures p.To? <==> t.To?
      ensures p.To? ==> Alive(mem, p.addr) && mem[p.addr].kind == Proxy(t)
      ensures ext == old(ext) - Loose(slot) + Loose(p)
      ensures KeptBut(old(mem), mem, slot)
      ensures forall e :: e in table <==>
                (e in old(table) && (slot == To(e.proxy) ==> Alive(mem, e.proxy))) || (p.To? && e == Entry(t.addr, p.addr))
      ensures slot.Nobody? && t.To? ==> mem[t.addr] == old(mem)[t.addr]
    {
      hide Inv, WeakInv, KeptBut;
      KeptAll(mem, slot);
      if slot.To? { DropProxy(slot.addr, t, at); }
      ghost var mem1 := mem;
      p := Nobody;
      if t.To? {
        p := ShareProxy(t.addr, at);
        KeptThrough(old(mem), mem1, mem, slot);
      }
    }

    /** Gives up a proxy; the target-to-be and the unused address stay what they were. */
    method DropProxy(p: nat, ghost t: Target, ghost at: nat)
      requires Steady() && p in ext && Alive(mem, p) && mem[p].kind.Proxy?
      requires (at < |mem| ==> mem[at].Free?) && at <= |mem| && at !in lost
      requires t.To? ==> t.addr in ext - multiset{p} && Alive(mem, t.addr) && !mem[t.addr].kind.Proxy?
      modifies this
      ensures Steady() && ext == old(ext) - multiset{p} && (at < |mem| ==> mem[at].Free?) && at <= |mem| && lost <= old(lost)
      ensures t.To? ==> Alive(mem, t.addr) && !mem[t.addr].kind.Proxy?
      ensures KeptBut(old(mem), mem, To(p)) && |mem| == |old(mem)|
      ensures forall e :: e in table <==> e in old(table) && (e.proxy == p ==> Alive(mem, p))
    {
      hide Inv, WeakInv, FreedExactly, TableAfter, NoneLeftBehind, Owners, Structs;
      ghost var o := Owners(mem, {}, ext);
      ghost var freed := Drop(p);
      OnlyTheProxy(old(mem), old(ext), mem, freed, p);
      ProxyLeavesNone(old(mem), old(table), freed, p);
      StillThere(old(mem), ext, o, mem, freed, t, at);
      KeptBodies(old(mem), ext, o, mem, freed);
      OneEntryGone(old(mem), ext, o, mem, freed, p, old(table), table, old(lost));
      KindsKept(old(mem), old(table), old(lost), mem, table, lost, p);
    }

    /** The target's proxy, found or made, at one more reference. */
    method ShareProxy(t: nat, at: nat) returns (p: Target)
      requires Steady() && (at < |mem| ==> mem[at].Free?) && at <= |mem| && at !in lost && Alive(mem, t) && !mem[t].kind.Proxy?
      modifies this`mem, this`table, this`ext
      ensures Steady() && p.To? && Alive(mem, p.addr) && mem[p.addr].kind == Proxy(To(t)) && p.addr != t
      ensures ext == old(ext) + multiset{p.addr} && mem[t] == old(mem)[t]
      ensures KeptBut(old(mem), mem, Nobody)
      ensures |old(mem)| <= |mem| && forall c :: 0 <= c < |old(mem)| && c != at ==> mem[c].Blk? == old(mem)[c].Blk?
      ensures forall e :: e in table <==> e in old(table) || e == Entry(t, p.addr)
    {
      hide Inv, WeakInv;
      var i := WeakFind(table, t);
      if i < |table| {
        EntryAt(mem, dying, table, lost, i);
        p := To(table[i].proxy);
      } else {
        NoEntry(mem, dying, table, lost, t);
        NewProxy(t, at);
        p := To(at);
      }
      Retain(p.addr);
    }

    method NewProxy(t: nat, at: nat)
      requires Steady() && (at < |mem| ==> mem[at].Free?) && at <= |mem| && at !in lost
      requires Alive(mem, t) && !mem[t].kind.Proxy? && forall e :: e in table ==> e.target != t
      modifies this`mem, this`table
      ensures Steady() && Alive(mem, at) && mem[at].kind == Proxy(To(t)) && at != t && Alive(mem, t) && mem[t] == old(mem)[t]
      ensures |old(mem)| <= |mem| && forall c :: 0 <= c < |old(mem)| && c != at ==> mem[c] == old(mem)[c]
      ensures table == old(table) + [Entry(t, at)]
    {
      hide Inv, WeakInv, Refs;
      if at == |mem| {
        GrowInv(mem, ext);
        GrowWeak(mem, table, lost);
        mem := mem + [Free];
      }
      var b := Blk(Proxy(To(t)), 0, [], []);
      RefsEnd([]);
      PlaceInv(mem, ext, at, b);
      assert ext - Refs([], 0) + multiset{} == ext;
      PlaceProxy(mem, table, lost, at, t);
      mem := mem[at := b];
      table := table + [Entry(t, at)];
    }

    /**
     Stores `v` in slot `i` of a block the caller owns, in place, as the code does: release what
     the slot held, then store, then retain. Release ignores a value struct, so one that was held
     is left alive without an owner. The store is safe if and only if `v` does not depend on the
     reference the slot gives up. A value struct stored there is handed over by the caller.
     */
    method SetSlot(c: nat, i: nat, v: Slot) returns (ok: bool, ghost freed: seq<nat>)
      requires Steady() && c in ext && Alive(mem, c) && i < |mem[c].slots| && GoodSlot(mem, v)
      requires v.Ref? ==> Alive(mem, v.addr) && (IsStruct(mem, v.addr) ==> v.addr in ext && v.addr != c)
      modifies this
      ensures Steady()
      ensures ok <==> !(v.Ref? && HangsOn(old(mem), old(ext), c, i, v.addr))
      ensures v.Ref? && v.addr in old(ext) ==> ok
      ensures OnlyReference(old(mem), c, i, v) ==> !ok
      ensures !ok ==> v.addr < |mem| && mem[v.addr].Free?
      ensures Alive(mem, c) && mem[c].slots == old(mem)[c].slots[i := if ok then v else Imm]
      ensures ext == if ok && v.Ref? && IsStruct(old(mem), v.addr) then old(ext) - multiset{v.addr} else old(ext)
      ensures forall b: nat :: Alive(old(mem), b) ==> (InLog(freed, b) <==> HangsOn(old(mem), old(ext), c, i, b))
      ensures Fates(old(mem), mem, freed, c)
      ensures var held := old(mem)[c].slots[i];
              held.Ref? && IsStruct(old(mem), held.addr) ==> freed == [] && Alive(mem, held.addr)
    {
      hide Inv, WeakInv, Owners, FreedExactly, InLog, HangsOn, SameBody, Fates;
      freed := ClearSlot(c, i, v);
      ok := v.Imm? || mem[v.addr].Blk?;
      if ok {
        ghost var mem1 := mem;
        StoreSlot(c, i, v);
        StoredFates(old(mem), mem1, mem, freed, c);
      }
    }

    /** The store and the retain. */
    method StoreSlot(c: nat, i: nat, v: Slot)
      requires Steady() && Alive(mem, c) && i < |mem[c].slots| && mem[c].slots[i] == Imm && GoodSlot(mem, v)
      requires v.Ref? ==> Alive(mem, v.addr) && (IsStruct(mem, v.addr) ==> v.addr in ext)
      modifies this`mem, this`ext
      ensures Steady() && Alive(mem, c) && mem[c].slots == old(mem)[c].slots[i := v] && |mem| == |old(mem)|
      ensures ext == if v.Ref? && IsStruct(old(mem), v.addr) then old(ext) - multiset{v.addr} else old(ext)
      ensures forall b :: 0 <= b < |mem| && b != c ==> SameBody(mem[b], old(mem)[b])
      ensures forall b :: Alive(old(mem), b) ==> Alive(mem, b)
    {
      hide Inv, WeakInv, Owners, SlotRef;
      HeldBack(ext, v);
      if v.Ref? && !IsStruct(mem, v.addr) { Retain(v.addr); }
      PutSlot(c, i, v);
    }

    /** Moves a reference the caller owns into an empty slot. */
    method PutSlot(c: nat, i: nat, v: Slot)
      requires Steady() && Alive(mem, c) && i < |mem[c].slots| && mem[c].slots[i] == Imm
      requires SlotRef(v) <= ext && GoodSlot(mem, v)
      modifies this`mem, this`ext
      ensures Steady() && ext == old(ext) - SlotRef(v)
      ensures mem == old(mem)[c := old(mem)[c].(slots := old(mem)[c].slots[i := v])]
    {
      hide Inv, WeakInv, Owners;
      NotProxy(mem, ext, c, i);
      SlotWrite(mem, ext, c, i, v);
      WeakSlots(mem, dying, table, lost, c, mem[c].slots[i := v]);
      assert ext + SlotRef(Imm) - SlotRef(v) == ext - SlotRef(v);
      mem := mem[c := mem[c].(slots := mem[c].slots[i := v])];
      ext := ext - SlotRef(v);
    }

    /** Empties slot `i` of block `c` and releases what it held. */
    method ClearSlot(c: nat, i: nat, v: Slot) returns (ghost freed: seq<nat>)
      requires Steady() && c in ext && Alive(mem, c) && i < |mem[c].slots|
      requires v.Ref? ==> Alive(mem, v.addr)
      modifies this
      ensures Steady() && ext == old(ext) && |mem| == |old(mem)|
      ensures Alive(mem, c) && mem[c].slots == old(mem)[c].slots[i := Imm]
      ensures v.Ref? ==> FateOf(old(mem), mem, freed, old(ext), v.addr)
      ensures Fates(old(mem), mem, freed, c)
      ensures forall b: nat :: Alive(old(mem), b) ==> (InLog(freed, b) <==> HangsOn(old(mem), old(ext), c, i, b))
      ensures var held := old(mem)[c].slots[i];
              held.Ref? && IsStruct(old(mem), held.addr) ==> freed == [] && Alive(mem, held.addr)
      ensures OnlyReference(old(mem), c, i, v) ==> mem[v.addr].Free?
    {
      hide Inv, WeakInv, Owners, FateOf, InLog, SlotRef, Cleared, IsStruct, LastOwner, Fates, HangsOn, FreedExactly;
      HeldBack(ext, mem[c].slots[i]);
      var held := EmptySlot(c, i);
      freed := [];
      ghost var mem1 := mem;
      ClearedAt(old(mem), mem1, c, i, c);
      ClearedFates(old(mem), mem1, c, i);
      if v.Ref? { ClearedAt(old(mem), mem1, c, i, v.addr); }
      if held.Ref? {
        OwnedAlive(mem, dying, ext, held.addr);
        ClearedAt(old(mem), mem1, c, i, held.addr);
        ghost var o := Owners(mem, {}, ext);
        freed := ReleaseHeld(held.addr, c, v);
        if v.Ref? { FateSame(old(mem), mem1, mem, freed, ext, v.addr); }
        if IsStruct(old(mem), held.addr) {
          NoneHang(old(mem), ext, c, i);
        } else {
          HangsExactly(old(mem), ext, c, i, mem1, mem, freed);
        }
      } else {
        if v.Ref? { NothingFreed(old(mem), mem, ext, v.addr); }
        NoneHang(old(mem), ext, c, i);
      }
    }

    /** Takes the reference out of a slot; the caller now holds it. */
    method EmptySlot(c: nat, i: nat) returns (held: Slot)
      requires Steady() && Alive(mem, c) && i < |mem[c].slots|
      modifies this`mem, this`ext
      ensures Steady() && held == old(mem)[c].slots[i] && ext == old(ext) + SlotRef(held)
      ensures Cleared(old(mem), mem, c, i)
    {
      hide Inv, WeakInv, Owners;
      held := mem[c].slots[i];
      NotProxy(mem, ext, c, i);
      SlotWrite(mem, ext, c, i, Imm);
      WeakSlots(mem, dying, table, lost, c, mem[c].slots[i := Imm]);
      assert ext + SlotRef(held) - SlotRef(Imm) == ext + SlotRef(held);
      mem := mem[c := mem[c].(slots := mem[c].slots[i := Imm])];
      ext := ext + SlotRef(held);
    }

    /** The release alone: a counted block loses a reference, a value struct is simply let go. */
    method ReleaseHeld(a: nat, ghost c: nat, ghost v: Slot) returns (ghost freed: seq<nat>)
      requires Steady() && a in ext && c in ext - multiset{a} && Alive(mem, c) && (v.Ref? ==> Alive(mem, v.addr))
      modifies this
      ensures Steady() && ext == old(ext) - multiset{a} && |mem| == |old(mem)|
      ensures Alive(mem, c) && mem[c].slots == old(mem)[c].slots
      ensures v.Ref? ==> FateOf(old(mem), mem, freed, ext, v.addr)
      ensures IsStruct(old(mem), a) ==> freed == [] && mem == old(mem)
      ensures !IsStruct(old(mem), a) ==> FreedExactly(old(mem), ext, old(Owners(mem, {}, ext)), mem, freed)
      ensures !IsStruct(old(mem), a) && LastOwner(old(mem), a) ==> mem[a].Free?
    {
      hide Inv, WeakInv, Owners, FreedExactly, TableAfter, NoneLeftBehind;
      freed := [];
      OwnedAlive(mem, dying, ext, a);
      if IsStruct(mem, a) {
        DropStruct(mem, dying, ext, a);
        ext := ext - multiset{a};
      } else {
        ghost var o, mem1 := Owners(mem, {}, ext), mem;
        freed := Drop(a);
        StillOwned(mem1, ext, o, mem, freed, c, dying);
        if v.Ref? { FreedOrKept(mem1, ext, o, mem, freed, v.addr, dying); }
      }
    }
  }

  /** `v` is what the slot holds already, and the slot is its only owner. */
  predicate OnlyReference(mem: seq<Blk>, c: nat, i: nat, v: Slot) {
    Alive(mem, c) && i < |mem[c].slots| && v.Ref? && mem[c].slots[i] == v && v.addr != c && !IsStruct(mem, v.addr) && LastOwner(mem, v.addr)
  }

  /** The memory with slot i of block c emptied. */
  function Emptied(mem: seq<Blk>, c: nat, i: nat): seq<Blk>
    requires Alive(mem, c) && i < |mem[c].slots|
  {
    mem[c := mem[c].(slots := mem[c].slots[i := Imm])]
  }

  /**
   Block `a` depends on the reference in slot i of block c: the slot holds a counted block, and `a`
   is in every set that is closed under losing the last owner once that reference is gone.
   */
  ghost predicate HangsOn(mem: seq<Blk>, ext: multiset<nat>, c: nat, i: nat, a: nat)
    requires Alive(mem, c) && i < |mem[c].slots|
  {
    var held, mem1 := mem[c].slots[i], Emptied(mem, c, i);
    && held.Ref? && !IsStruct(mem, held.addr)
    && forall g :: ClosedUnder(mem1, ext, Owners(mem1, {}, ext + multiset{held.addr}), g) ==> a in g
  }

  lemma NoneHang(mem: seq<Blk>, ext: multiset<nat>, c: nat, i: nat)
    requires Alive(mem, c) && i < |mem[c].slots|
    requires var held := mem[c].slots[i]; held.Imm? || IsStruct(mem, held.addr)
    ensures forall b: nat :: !InLog([], b) && !HangsOn(mem, ext, c, i, b)
  {
  }

  /** The blocks the release frees are exactly those that hang on the slot. */
  lemma HangsExactly(mem0: seq<Blk>, ext: multiset<nat>, c: nat, i: nat, mem1: seq<Blk>, mem: seq<Blk>, freed: seq<nat>)
    requires Cleared(mem0, mem1, c, i) && mem0[c].slots[i].Ref? && !IsStruct(mem0, mem0[c].slots[i].addr)
    requires FreedExactly(mem1, ext, Owners(mem1, {}, ext + multiset{mem0[c].slots[i].addr}), mem, freed)
    requires Alive(mem, c)
    ensures forall b: nat :: InLog(freed, b) <==> HangsOn(mem0, ext, c, i, b)
    ensures Fates(mem0, mem, freed, c)
  {
    hide Owners, ClosedUnder;
    var o := Owners(mem1, {}, ext + multiset{mem0[c].slots[i].addr});
    assert mem1 == Emptied(mem0, c, i) && ClosedUnder(mem1, ext, o, LogSet(freed));
    forall b: nat ensures InLog(freed, b) <==> HangsOn(mem0, ext, c, i, b) {
      if InLog(freed, b) {
        forall g | ClosedUnder(mem1, ext, o, g) ensures b in g { assert b in LogSet(freed); }
      }
      if HangsOn(mem0, ext, c, i, b) { assert b in LogSet(freed); }
    }
  }

  /** Every other live block was freed, or is as it was. */
  ghost predicate Fates(mem0: seq<Blk>, mem: seq<Blk>, freed: seq<nat>, c: nat) {
    |mem| == |mem0| && forall b: nat :: Alive(mem0, b) && b != c ==>
      if InLog(freed, b) then mem[b].Free? else Alive(mem, b) && SameBody(mem[b], mem0[b])
  }

  lemma ClearedFates(mem0: seq<Blk>, mem: seq<Blk>, c: nat, i: nat)
    requires Cleared(mem0, mem, c, i)
    ensures Fates(mem0, mem, [], c)
  {
  }

  lemma StoredFates(mem0: seq<Blk>, mem1: seq<Blk>, mem: seq<Blk>, freed: seq<nat>, c: nat)
    requires Fates(mem0, mem1, freed, c) && |mem| == |mem1| && forall b :: 0 <= b < |mem| && b != c ==> SameBody(mem[b], mem1[b])
    ensures Fates(mem0, mem, freed, c)
  {
    hide InLog;
  }

  /** What became of the live block `a` of `mem0`. */
  ghost predicate FateOf(mem0: seq<Blk>, mem: seq<Blk>, freed: seq<nat>, base: multiset<nat>, a: nat) {
    && a < |mem| && (InLog(freed, a) <==> mem[a].Free?) && (a in base ==> mem[a].Blk?)
    && (mem[a].Blk? ==> IsStruct(mem, a) == IsStruct(mem0, a))
  }

  /** `mem` is `mem0` with slot i of block c emptied. */
  ghost predicate Cleared(mem0: seq<Blk>, mem: seq<Blk>, c: nat, i: nat) {
    Alive(mem0, c) && i < |mem0[c].slots| && mem == mem0[c := mem0[c].(slots := mem0[c].slots[i := Imm])]
  }

  lemma ClearedAt(mem0: seq<Blk>, mem: seq<Blk>, c: nat, i: nat, a: nat)
    requires Cleared(mem0, mem, c, i)
    ensures |mem| == |mem0| && Alive(mem, c) && mem[c].slots == mem0[c].slots[i := Imm]
    ensures Alive(mem, a) == Alive(mem0, a) && IsStruct(mem, a) == IsStruct(mem0, a) && LastOwner(mem, a) == LastOwner(mem0, a)
  {
  }

  /** A slot's reference among the outside ones. */
  lemma HeldBack(ext: multiset<nat>, s: Slot)
    ensures s.Ref? ==> SlotRef(s) == multiset{s.addr} && s.addr in ext + SlotRef(s) && ext + SlotRef(s) - multiset{s.addr} == ext
    ensures s.Ref? && s.addr in ext ==> SlotRef(s) <= ext
    ensures s.Imm? ==> SlotRef(s) == multiset{} && ext + SlotRef(s) == ext && ext - SlotRef(s) == ext && SlotRef(s) <= ext
    ensures SlotRef(s) <= ext + SlotRef(s)
  {
  }

  lemma FateSame(mem0: seq<Blk>, mem1: seq<Blk>, mem: seq<Blk>, freed: seq<nat>, base: multiset<nat>, a: nat)
    requires FateOf(mem1, mem, freed, base, a) && IsStruct(mem0, a) == IsStruct(mem1, a)
    ensures FateOf(mem0, mem, freed, base, a)
  {
  }

  lemma NothingFreed(mem0: seq<Blk>, mem: seq<Blk>, base: multiset<nat>, a: nat)
    requires Alive(mem, a) && IsStruct(mem, a) == IsStruct(mem0, a)
    ensures FateOf(mem0, mem, [], base, a)
  {
  }

  /** Every reclaimed value struct that had a proxy took the proxy with it. */
  ghost predicate NoneLeftBehind(mem0: seq<Blk>, table0: seq<Entry>, freed: seq<nat>) {
    forall e :: e in table0 && IsStruct(mem0, e.target) && InLog(freed, e.target) ==> InLog(freed, e.proxy)
  }

  lemma TableStart(mem: seq<Blk>, table: seq<Entry>)
    ensures TableAfter(mem, table, table, []) && Structs(mem, []) == {}
  {
  }

  /** After a free the weak table is right exactly when no reclaimed struct left a proxy behind. */
  lemma StaleIff(mem0: seq<Blk>, base: multiset<nat>, table0: seq<Entry>, mem: seq<Blk>, table: seq<Entry>, log: seq<nat>,
                 lost: set<nat>, lost0: set<nat>)
    requires Hist(mem0, base, mem, {}, log) && TableAfter(mem0, table0, table, log)
    requires WeakInv(mem, {}, table, lost) && lost == lost0 + Structs(mem0, log)
    ensures lost0 == {} ==> (WeakInv(mem, {}, table, {}) <==> NoneLeftBehind(mem0, table0, log))
    ensures WeakInv(mem, {}, table, {}) ==> forall e :: e in table ==> Alive(mem, e.target)
  {
    hide Derived;
    forall e | e in table ensures e.target in lost || Alive(mem, e.target) {
      var i :| 0 <= i < |table| && table[i] == e;
      assert GoodEntry(mem, {}, lost, table[i]);
    }
    if WeakInv(mem, {}, table, {}) {
      forall e | e in table ensures Alive(mem, e.target) {
        var i :| 0 <= i < |table| && table[i] == e;
        assert GoodEntry(mem, {}, {}, table[i]);
      }
    }
    if lost0 == {} && NoneLeftBehind(mem0, table0, log) {
      forall i | 0 <= i < |table| ensures GoodEntry(mem, {}, {}, table[i]) {
        assert table[i] in table && GoodEntry(mem, {}, lost, table[i]);
      }
    }
  }

  /** Giving up a proxy frees at most the proxy. */
  lemma OnlyTheProxy(mem0: seq<Blk>, ext: multiset<nat>, mem: seq<Blk>, freed: seq<nat>, p: nat)
    requires Inv(mem0, {}, ext) && p in ext && Alive(mem0, p) && mem0[p].kind.Proxy?
    requires FreedExactly(mem0, ext - multiset{p}, Owners(mem0, {}, ext), mem, freed)
    ensures forall c :: InLog(freed, c) ==> c == p
  {
    ProxyClosed(mem0, ext, p);
    hide ClosedUnder, Inv, Owners;
    forall c | InLog(freed, c) ensures c == p {
      assert c in LogSet(freed);
    }
  }

  lemma ProxyClosed(mem0: seq<Blk>, ext: multiset<nat>, p: nat)
    requires Inv(mem0, {}, ext) && p in ext && Alive(mem0, p) && mem0[p].kind.Proxy?
    ensures ClosedUnder(mem0, ext - multiset{p}, Owners(mem0, {}, ext), {p})
  {
    ProxyHoldsNothing(mem0, {}, ext, p);
    TotalDying(mem0, {}, p, |mem0|);
    hide Total, Inv;
    assert {} + {p} == {p};
    assert Owners(mem0, {p}, ext - multiset{p}) == Owners(mem0, {}, ext) - multiset{p};
    hide Owners;
  }

  lemma ProxyLeavesNone(mem0: seq<Blk>, table0: seq<Entry>, freed: seq<nat>, p: nat)
    requires Alive(mem0, p) && mem0[p].kind.Proxy? && forall c :: InLog(freed, c) ==> c == p
    ensures NoneLeftBehind(mem0, table0, freed) && Structs(mem0, freed) == {}
  {
    forall c | c in freed ensures !IsStruct(mem0, c) { assert InLog(freed, c); }
  }

  /** Every live block, `but` excepted, is still alive and has its contents. */
  ghost predicate KeptBut(mem0: seq<Blk>, mem: seq<Blk>, but: Target) {
    forall c: nat :: Alive(mem0, c) && but != To(c) ==> Alive(mem, c) && SameBody(mem[c], mem0[c]) && mem[c].kind == mem0[c].kind
  }

  lemma KeptAll(mem: seq<Blk>, but: Target)
    ensures KeptBut(mem, mem, but)
  {
  }

  lemma KeptThrough(mem0: seq<Blk>, mem1: seq<Blk>, mem2: seq<Blk>, but: Target)
    requires KeptBut(mem0, mem1, but) && KeptBut(mem1, mem2, Nobody)
    ensures KeptBut(mem0, mem2, but)
  {
    forall c: nat | Alive(mem0, c) && but != To(c) ensures Alive(mem2, c) && SameBody(mem2[c], mem0[c]) && mem2[c].kind == mem0[c].kind {
      assert Alive(mem1, c) && Alive(mem2, c);
    }
  }

  /** Giving up a proxy touches no entry of the table but its own. */
  lemma OneEntryGone(mem0: seq<Blk>, base: multiset<nat>, o0: multiset<nat>, mem: seq<Blk>, freed: seq<nat>, p: nat,
                     table0: seq<Entry>, table: seq<Entry>, lost: set<nat>)
    requires FreedExactly(mem0, base, o0, mem, freed) && (forall c :: InLog(freed, c) ==> c == p) && Alive(mem0, p) && mem0[p].kind.Proxy?
    requires TableAfter(mem0, table0, table, freed) && WeakInv(mem0, {}, table0, lost)
    ensures forall e :: e in table <==> e in table0 && (e.proxy == p ==> Alive(mem, p))
  {
    hide ClosedUnder;
    forall e ensures e in table <==> e in table0 && (e.proxy == p ==> Alive(mem, p)) {
      if e in table0 {
        var i :| 0 <= i < |table0| && table0[i] == e;
        assert GoodEntry(mem0, {}, lost, table0[i]);
        assert InLog(freed, p) <==> mem[p].Free?;
      }
    }
  }

  /** Proxies that stay keep their targets, because their entries stay. */
  lemma KindsKept(mem0: seq<Blk>, table0: seq<Entry>, lost0: set<nat>, mem: seq<Blk>, table: seq<Entry>, lost: set<nat>, p: nat)
    requires WeakInv(mem0, {}, table0, lost0) && WeakInv(mem, {}, table, lost)
    requires forall e :: e in table <==> e in table0 && (e.proxy == p ==> Alive(mem, p))
    requires forall c: nat :: Alive(mem0, c) && c != p ==> Alive(mem, c) && SameBody(mem[c], mem0[c])
    ensures forall c: nat :: Alive(mem0, c) && c != p ==> Alive(mem, c) && mem[c].kind == mem0[c].kind
  {
    forall c: nat | Alive(mem0, c) && c != p ensures Alive(mem, c) && mem[c].kind == mem0[c].kind {
      if mem0[c].kind.Proxy? && mem0[c].kind.target.To? {
        EntryHolds(mem, table, lost, Entry(mem0[c].kind.target.addr, c));
      } else if mem[c].kind.Proxy? && mem[c].kind.target.To? {
        assert Entry(mem[c].kind.target.addr, c) in table;
        EntryHolds(mem0, table0, lost0, Entry(mem[c].kind.target.addr, c));
      }
    }
  }

  lemma EntryHolds(mem: seq<Blk>, table: seq<Entry>, lost: set<nat>, e: Entry)
    requires WeakInv(mem, {}, table, lost) && e in table
    ensures Alive(mem, e.proxy) && mem[e.proxy].kind == Proxy(To(e.target))
  {
    var i :| 0 <= i < |table| && table[i] == e;
    assert GoodEntry(mem, {}, lost, table[i]);
  }

  lemma KeptBodies(mem0: seq<Blk>, base: multiset<nat>, o0: multiset<nat>, mem: seq<Blk>, freed: seq<nat>)
    requires FreedExactly(mem0, base, o0, mem, freed)
    ensures |mem| == |mem0| && forall c: nat :: Alive(mem0, c) && !InLog(freed, c) ==> Alive(mem, c) && SameBody(mem[c], mem0[c])
  {
    hide ClosedUnder;
  }

  /** What became of a live block in a free. */
  lemma FreedOrKept(mem0: seq<Blk>, base: multiset<nat>, o0: multiset<nat>, mem: seq<Blk>, freed: seq<nat>, a: nat, dying: set<nat>)
    requires FreedExactly(mem0, base, o0, mem, freed) && dying == {} && Inv(mem, dying, base) && Alive(mem0, a)
    ensures FateOf(mem0, mem, freed, base, a)
  {
    hide ClosedUnder;
    if a in base { OwnedAlive(mem, {}, base, a); }
    assert InLog(freed, a) || SameBody(mem[a], mem0[a]);
  }

  lemma TrackDrop(o0: multiset<nat>, mem: seq<Blk>, dying: set<nat>, o: multiset<nat>, a: nat)
    requires Tracked(o0, mem, dying, o, {}) && a in o
    ensures Tracked(o0, mem, dying, o - multiset{a}, {a})
  {}

  lemma TrackSame(o0: multiset<nat>, mem: seq<Blk>, mem': seq<Blk>, dying: set<nat>, o: multiset<nat>, but: set<nat>)
    requires Tracked(o0, mem, dying, o, but)
    requires |mem| == |mem'| && forall c :: 0 <= c < |mem| ==> mem[c].Blk? == mem'[c].Blk?
    ensures Tracked(o0, mem', dying, o, but)
  {}

  lemma TrackKept(o0: multiset<nat>, mem: seq<Blk>, dying: set<nat>, o: multiset<nat>, a: nat)
    requires Tracked(o0, mem, dying, o, {a}) && a in o
    ensures Tracked(o0, mem, dying, o, {})
  {}

  lemma TrackDie(o0: multiset<nat>, mem: seq<Blk>, dying: set<nat>, o: multiset<nat>, a: nat)
    requires Tracked(o0, mem, dying, o, {a})
    ensures Tracked(o0, mem, dying + {a}, o, {}) && a in o0
  {}

  lemma TrackFree(o0: multiset<nat>, mem: seq<Blk>, dying: set<nat>, o: multiset<nat>, a: nat)
    requires Tracked(o0, mem, dying, o, {}) && a < |mem| && a in dying
    ensures Tracked(o0, mem[a := Free], dying - {a}, o, {})
  {}

  /** A live block outside the log has its kind since the free began. */
  lemma NotLogged(mem0: seq<Blk>, base: multiset<nat>, mem: seq<Blk>, dying: set<nat>, log: seq<nat>, a: nat)
    requires Hist(mem0, base, mem, dying, log) && Alive(mem, a) && a !in dying
    ensures !InLog(log, a) && IsStruct(mem0, a) == IsStruct(mem, a)
  {
    hide Derived;
    assert InLog(log, a) || SameBody(mem[a], mem0[a]);
  }

  lemma StructsMore(mem0: seq<Blk>, log: seq<nat>, a: nat)
    ensures Structs(mem0, log + [a]) == Structs(mem0, log) + (if IsStruct(mem0, a) then {a} else {})
  {
  }

  lemma NeverAProxy(mem: seq<Blk>, dying: set<nat>, table: seq<Entry>, lost: set<nat>, a: nat)
    requires WeakInv(mem, dying, table, lost) && Alive(mem, a) && !mem[a].kind.Proxy?
    ensures forall e :: e in table ==> e.proxy != a
  {
    forall e | e in table ensures e.proxy != a {
      var i :| 0 <= i < |table| && table[i] == e;
      assert GoodEntry(mem, dying, lost, table[i]);
    }
  }

  lemma RemovedTarget(mem: seq<Blk>, dying: set<nat>, table: seq<Entry>, lost: set<nat>, i: nat)
    requires WeakInv(mem, dying, table, lost) && i < |table|
    ensures forall e :: e in RemoveAt(table, i) <==> e in table && e.target != table[i].target
  {
    forall e ensures e in RemoveAt(table, i) <==> e in table && e.target != table[i].target {
      RemovedEntry(table, i, e);
      if e in table && e.target == table[i].target {
        var j :| 0 <= j < |table| && table[j] == e;
        assert j == i;
      }
    }
  }

  lemma ProxyGone(mem: seq<Blk>, dying: set<nat>, table: seq<Entry>, lost: set<nat>, i: nat, a: nat)
    requires WeakInv(mem, dying, table, lost) && i < |table| && table[i].proxy == a && Alive(mem, a) && a !in dying
    ensures forall e :: e in RemoveAt(table, i) <==> e in table && e.proxy != a
    ensures forall e :: e in table ==> e.target != a
  {
    assert GoodEntry(mem, dying, lost, table[i]);
    forall e ensures e in RemoveAt(table, i) <==> e in table && e.proxy != a {
      RemovedEntry(table, i, e);
      if e in table && e.proxy == a {
        var j :| 0 <= j < |table| && table[j] == e;
        assert GoodEntry(mem, dying, lost, table[j]);
      }
    }
    forall e | e in table ensures e.target != a {
      var j :| 0 <= j < |table| && table[j] == e;
      assert GoodEntry(mem, dying, lost, table[j]);
    }
  }

  lemma LogMore(log: seq<nat>, a: nat)
    ensures forall c :: InLog(log + [a], c) <==> InLog(log, c) || c == a
  {
  }

  lemma TableDrop(mem0: seq<Blk>, table0: seq<Entry>, table: seq<Entry>, table': seq<Entry>, log: seq<nat>, a: nat)
    requires TableAfter(mem0, table0, table, log) && !IsStruct(mem0, a)
    requires forall e :: e in table' <==> e in table && e.target != a
    requires forall e :: e in table ==> e.proxy != a
    ensures TableAfter(mem0, table0, table', log + [a])
  {
    LogMore(log, a);
    hide InLog, IsStruct;
  }

  lemma TableStruct(mem0: seq<Blk>, table0: seq<Entry>, table: seq<Entry>, log: seq<nat>, a: nat)
    requires TableAfter(mem0, table0, table, log) && IsStruct(mem0, a)
    requires forall e :: e in table ==> e.proxy != a
    ensures TableAfter(mem0, table0, table, log + [a])
  {
    LogMore(log, a);
    hide InLog, IsStruct;
  }

  lemma TableProxy(mem0: seq<Blk>, table0: seq<Entry>, table: seq<Entry>, table': seq<Entry>, log: seq<nat>, a: nat)
    requires TableAfter(mem0, table0, table, log) && !IsStruct(mem0, a)
    requires forall e :: e in table' <==> e in table && e.proxy != a
    requires forall e :: e in table ==> e.target != a
    ensures TableAfter(mem0, table0, table', log + [a])
  {
    LogMore(log, a);
    hide InLog, IsStruct;
  }

  lemma EntryAt(mem: seq<Blk>, dying: set<nat>, table: seq<Entry>, lost: set<nat>, i: nat)
    requires WeakInv(mem, dying, table, lost) && i < |table|
    ensures GoodEntry(mem, dying, lost, table[i])
  {}

  lemma NoEntry(mem: seq<Blk>, dying: set<nat>, table: seq<Entry>, lost: set<nat>, a: nat)
    requires WeakInv(mem, dying, table, lost) && WeakFind(table, a) == |table|
    ensures forall e :: e in table ==> e.target != a
  {}

  lemma ClearProxy(mem: seq<Blk>, dying: set<nat>, ext: multiset<nat>, p: nat)
    requires Inv(mem, dying, ext) && Alive(mem, p) && mem[p].kind.Proxy?
    ensures Inv(mem[p := mem[p].(kind := Proxy(Nobody))], dying, ext)
  {
    hide Total, RefsOf;
    var mem' := mem[p := mem[p].(kind := Proxy(Nobody))];
    SameRefs(mem[p], mem'[p]);
    TotalUpdate(mem, dying, p, mem'[p]);
    assert Owners(mem', dying, ext) == Owners(mem, dying, ext);
    hide Owners;
    forall b | 0 <= b < |mem'| ensures RightCount(mem'[b], Owners(mem', dying, ext)[b]) {
      assert RightCount(mem[b], Owners(mem, dying, ext)[b]);
    }
  }

  lemma OwnedAlive(mem: seq<Blk>, dying: set<nat>, ext: multiset<nat>, a: nat)
    requires Inv(mem, dying, ext) && a in ext
    ensures a in Owners(mem, dying, ext) && Alive(mem, a) && a !in dying
  {}

  lemma CountIsOwners(mem: seq<Blk>, dying: set<nat>, ext: multiset<nat>, a: nat)
    requires Inv(mem, dying, ext) && Alive(mem, a) && !IsStruct(mem, a)
    ensures Owners(mem, dying, ext)[a] == mem[a].rc
  {
    hide Owners;
    assert RightCount(mem[a], Owners(mem, dying, ext)[a]);
  }

  lemma StructUncounted(mem: seq<Blk>, dying: set<nat>, ext: multiset<nat>, a: nat)
    requires Inv(mem, dying, ext) && IsStruct(mem, a)
    ensures mem[a].rc == 0
  {
    hide Owners;
    assert RightCount(mem[a], Owners(mem, dying, ext)[a]);
  }

  lemma ProxyHoldsNothing(mem: seq<Blk>, dying: set<nat>, ext: multiset<nat>, a: nat)
    requires Inv(mem, dying, ext) && Alive(mem, a) && mem[a].kind.Proxy?
    ensures RefsOf(mem[a]) == multiset{}
  {}

  lemma SameOwners(mem: seq<Blk>, mem': seq<Blk>, dying: set<nat>, ext: multiset<nat>)
    requires |mem| == |mem'| && forall c :: 0 <= c < |mem| ==> SameBody(mem'[c], mem[c])
    ensures Owners(mem, dying, ext) == Owners(mem', dying, ext)
  {
    forall a | 0 <= a < |mem| ensures Held(mem, dying, a) == Held(mem', dying, a) {
      assert SameBody(mem'[a], mem[a]);
    }
    TotalSame(mem, dying, mem', dying, |mem|);
  }

  lemma WeakRecount(mem: seq<Blk>, dying: set<nat>, table: seq<Entry>, lost: set<nat>, a: nat, r: nat)
    requires WeakInv(mem, dying, table, lost) && Alive(mem, a)
    ensures WeakInv(mem[a := mem[a].(rc := r)], dying, table, lost)
  {
    var mem' := mem[a := mem[a].(rc := r)];
    forall i | 0 <= i < |table| ensures GoodEntry(mem', dying, lost, table[i]) {
      assert GoodEntry(mem, dying, lost, table[i]);
    }
    forall p | 0 <= p < |mem'| && mem'[p].Blk? && mem'[p].kind.Proxy? && mem'[p].kind.target.To?
      ensures Entry(mem'[p].kind.target.addr, p) in table
    {
      assert Entry(mem[p].kind.target.addr, p) in table;
    }
  }

  /** A block starts to die: nothing targets it, or it is a value struct, which nobody asks about. */
  lemma WeakDying(mem: seq<Blk>, dying: set<nat>, table: seq<Entry>, lost: set<nat>, a: nat)
    requires WeakInv(mem, dying, table, lost) && Alive(mem, a) && !mem[a].kind.Proxy?
    requires IsStruct(mem, a) || forall e :: e in table ==> e.target != a
    ensures WeakInv(mem, dying + {a}, table, if IsStruct(mem, a) then lost + {a} else lost)
  {
    var lost' := if IsStruct(mem, a) then lost + {a} else lost;
    forall i | 0 <= i < |table| ensures GoodEntry(mem, dying + {a}, lost', table[i]) {
      assert GoodEntry(mem, dying, lost, table[i]) && table[i] in table;
    }
  }

  /** Freeing a block that no entry mentions, except perhaps as a lost target. */
  lemma WeakFree(mem: seq<Blk>, dying: set<nat>, table: seq<Entry>, lost: set<nat>, a: nat)
    requires WeakInv(mem, dying, table, lost) && a < |mem|
    requires forall e :: e in table ==> (e.target != a || a in lost) && e.proxy != a
    ensures WeakInv(mem[a := Free], dying - {a}, table, lost)
    ensures a !in dying ==> WeakInv(mem[a := Free], dying, table, lost)
  {
    var mem' := mem[a := Free];
    forall i | 0 <= i < |table| ensures GoodEntry(mem', dying - {a}, lost, table[i]) && GoodEntry(mem', dying, lost, table[i]) {
      assert GoodEntry(mem, dying, lost, table[i]) && table[i] in table;
    }
    forall p | 0 <= p < |mem'| && mem'[p].Blk? && mem'[p].kind.Proxy? && mem'[p].kind.target.To?
      ensures Entry(mem'[p].kind.target.addr, p) in table
    {
      assert Entry(mem[p].kind.target.addr, p) in table;
    }
  }

  lemma WeakDead(mem: seq<Blk>, dying: set<nat>, table: seq<Entry>, lost: set<nat>, a: nat)
    requires WeakInv(mem, dying, table, lost) && a in dying && a < |mem|
    ensures WeakInv(mem[a := Free], dying - {a}, table, lost)
  {
    forall e | e in table ensures (e.target != a || a in lost) && e.proxy != a {
      var i :| 0 <= i < |table| && table[i] == e;
      assert GoodEntry(mem, dying, lost, table[i]);
    }
    WeakFree(mem, dying, table, lost, a);
  }

  lemma IdleProxy(mem: seq<Blk>, dying: set<nat>, table: seq<Entry>, lost: set<nat>, a: nat)
    requires WeakInv(mem, dying, table, lost) && Alive(mem, a) && a !in dying && mem[a].kind == Proxy(Nobody)
    ensures forall e :: e in table ==> e.target != a && e.proxy != a
  {
    forall e | e in table ensures e.target != a && e.proxy != a {
      var i :| 0 <= i < |table| && table[i] == e;
      assert GoodEntry(mem, dying, lost, table[i]);
    }
  }

  lemma ProxyEntry(mem: seq<Blk>, dying: set<nat>, table: seq<Entry>, lost: set<nat>, a: nat)
    requires WeakInv(mem, dying, table, lost) && Alive(mem, a) && a !in dying && mem[a].kind.Proxy? && mem[a].kind.target.To?
    ensures var i := WeakFind(table, mem[a].kind.target.addr); i < |table| && table[i].proxy == a
    ensures var i := WeakFind(table, mem[a].kind.target.addr);
            forall e :: e in RemoveAt(table, i) ==> e.target != a && e.proxy != a
  {
    var t := mem[a].kind.target.addr;
    var i := WeakFind(table, t);
    assert Entry(t, a) in table;
    var j :| 0 <= j < |table| && table[j] == Entry(t, a);
    assert i == j;
    WeakRemove(mem, dying, table, lost, i);
    forall e | e in RemoveAt(table, i) ensures e.target != a {
      RemovedEntry(table, i, e);
      var k :| 0 <= k < |table| && table[k] == e;
      assert GoodEntry(mem, dying, lost, table[k]);
    }
  }

  /** The slots of a live block are still good with respect to the memory a free began with. */
  lemma SlotsStayGood(mem0: seq<Blk>, base: multiset<nat>, mem: seq<Blk>, dying: set<nat>, ext: multiset<nat>, log: seq<nat>, a: nat)
    requires Hist(mem0, base, mem, dying, log) && Inv(mem, dying, ext) && Alive(mem, a) && a !in dying
    ensures forall i :: 0 <= i < |mem[a].slots| ==> GoodSlot(mem0, mem[a].slots[i])
  {
    forall i | 0 <= i < |mem[a].slots| ensures GoodSlot(mem0, mem[a].slots[i]) {
      var s := mem[a].slots[i];
      assert GoodSlot(mem, s);
      if s.Ref? {
        SlotIsOwner(mem, dying, ext, a, i);
        SameStruct(mem0, base, mem, dying, ext, log, s.addr);
      }
    }
  }

  lemma SlotIsOwner(mem: seq<Blk>, dying: set<nat>, ext: multiset<nat>, a: nat, i: nat)
    requires Alive(mem, a) && a !in dying && i < |mem[a].slots| && mem[a].slots[i].Ref?
    ensures mem[a].slots[i].addr in Owners(mem, dying, ext)
  {
    TotalDying(mem, dying, a, |mem|);
    RefsHas(mem[a].slots, 0, i);
  }

  lemma {:induction false} RefsHas(s: seq<Slot>, from: nat, i: nat)
    requires from <= i < |s| && s[i].Ref?
    ensures s[i].addr in Refs(s, from)
    decreases i - from
  {
    if from < i { RefsHas(s, from + 1, i); }
  }

  // ------------------------------------------------------ exactness of a free

  function Loose(t: Target): multiset<nat> {
    if t.To? then multiset{t.addr} else multiset{}
  }

  /** `g` holds every block that had an owner in `o0` and has none once the blocks in `g` are gone. */
  ghost predicate ClosedUnder(mem0: seq<Blk>, base: multiset<nat>, o0: multiset<nat>, g: set<nat>) {
    forall c: nat :: Alive(mem0, c) && c in o0 && Owners(mem0, g, base)[c] == 0 ==> c in g
  }

  /** The freed blocks are the least set closed under losing the last owner; the rest is intact. */
  ghost predicate FreedExactly(mem0: seq<Blk>, base: multiset<nat>, o0: multiset<nat>, mem: seq<Blk>, freed: seq<nat>) {
    && |mem| == |mem0|
    && (forall i, j :: 0 <= i < j < |freed| ==> freed[i] != freed[j])
    && (forall c :: 0 <= c < |mem| ==> (InLog(freed, c) <==> mem0[c].Blk? && mem[c].Free?))
    && (forall c :: 0 <= c < |mem| && !InLog(freed, c) ==> SameBody(mem[c], mem0[c]))
    && ClosedUnder(mem0, base, o0, LogSet(freed))
    && (forall g :: ClosedUnder(mem0, base, o0, g) ==> LogSet(freed) <= g)
  }

  lemma {:induction false} TotalMonotone(mem: seq<Blk>, dead: set<nat>, dead': set<nat>, n: nat)
    requires dead <= dead' && n <= |mem|
    ensures Total(mem, dead', n) <= Total(mem, dead, n)
  {
    hide RefsOf;
    if n > 0 { TotalMonotone(mem, dead, dead', n - 1); }
  }

  lemma OwnersMonotone(mem: seq<Blk>, dead: set<nat>, dead': set<nat>, ext: multiset<nat>)
    requires dead <= dead'
    ensures Owners(mem, dead', ext) <= Owners(mem, dead, ext)
  {
    TotalMonotone(mem, dead, dead', |mem|);
  }

  lemma DerivedNext(mem0: seq<Blk>, base: multiset<nat>, o0: multiset<nat>, log: seq<nat>, g: set<nat>, k: nat)
    requires Derived(mem0, base, log) && k < |log| && log[k] in o0 && Alive(mem0, log[k])
    requires ClosedUnder(mem0, base, o0, g) && LogSet(log[..k]) <= g
    ensures log[k] in g
  {
    hide Owners, LogSet;
    assert Owners(mem0, LogSet(log[..k]), base)[log[k]] == 0;
    OwnersMonotone(mem0, LogSet(log[..k]), g, base);
  }

  /** Any closed set contains every block a free has logged. */
  lemma {:induction false} DerivedInClosed(mem0: seq<Blk>, base: multiset<nat>, o0: multiset<nat>, log: seq<nat>, g: set<nat>, n: nat)
    requires Derived(mem0, base, log) && n <= |log|
    requires forall i :: 0 <= i < |log| ==> log[i] in o0 && Alive(mem0, log[i])
    requires ClosedUnder(mem0, base, o0, g)
    ensures LogSet(log[..n]) <= g
  {
    hide Owners, Derived, ClosedUnder;
    if n > 0 {
      DerivedInClosed(mem0, base, o0, log, g, n - 1);
      DerivedNext(mem0, base, o0, log, g, n - 1);
      assert log[..n] == log[..n - 1] + [log[n - 1]];
    }
  }

  lemma HistStart(mem: seq<Blk>, base: multiset<nat>)
    ensures Hist(mem, base, mem, {}, [])
  {}

  lemma TrackStart(mem: seq<Blk>, o: multiset<nat>)
    ensures Tracked(o, mem, {}, o, {})
  {}

  lemma LogIsOnce(mem0: seq<Blk>, base: multiset<nat>, log: seq<nat>)
    requires Derived(mem0, base, log)
    ensures forall i, j :: 0 <= i < j < |log| ==> log[i] != log[j]
  {
    forall i, j | 0 <= i < j < |log| ensures log[i] != log[j] {
      assert log[j] !in log[..j];
      assert log[..j][i] == log[i];
    }
  }

  lemma FreedIsClosed(g: Start, mem: seq<Blk>, ext: multiset<nat>, log: seq<nat>)
    requires Hist(g.mem, g.base, mem, {}, log) && ext == g.base
    requires Tracked(g.owners, mem, {}, Owners(mem, {}, ext), {})
    ensures ClosedUnder(g.mem, g.base, g.owners, LogSet(log))
  {
    SameTotal(g.mem, g.base, mem, {}, log);
    hide Derived, Total;
    assert Owners(g.mem, LogSet(log), g.base) == Owners(mem, {}, ext);
    hide Owners;
    forall c: nat | Alive(g.mem, c) && c in g.owners && Owners(g.mem, LogSet(log), g.base)[c] == 0 ensures c in LogSet(log) {
      assert InLog(log, c) || SameBody(mem[c], g.mem[c]);
    }
  }

  lemma FreedIsExact(g: Start, mem: seq<Blk>, ext: multiset<nat>, log: seq<nat>)
    requires Hist(g.mem, g.base, mem, {}, log) && ext == g.base
    requires Tracked(g.owners, mem, {}, Owners(mem, {}, ext), {})
    requires forall i :: 0 <= i < |log| ==> log[i] in g.owners
    ensures FreedExactly(g.mem, g.base, g.owners, mem, log)
  {
    FreedIsClosed(g, mem, ext, log);
    LogIsOnce(g.mem, g.base, log);
    hide Derived, ClosedUnder, Owners, Tracked, LogSet;
    forall i | 0 <= i < |log| ensures Alive(g.mem, log[i]) { assert InLog(log, log[i]); }
    assert log[..|log|] == log;
    forall s | ClosedUnder(g.mem, g.base, g.owners, s) ensures LogSet(log) <= s {
      DerivedInClosed(g.mem, g.base, g.owners, log, s, |log|);
    }
  }

  // ------------------------------------------------- allocation and slot writes

  lemma GrowInv(mem: seq<Blk>, ext: multiset<nat>)
    requires Inv(mem, {}, ext)
    ensures Inv(mem + [Free], {}, ext)
  {
    hide Inv;
    var mem' := mem + [Free];
    GrowOwners(mem, ext);
    GrowBlocks(mem, ext);
  }

  lemma GrowOwners(mem: seq<Blk>, ext: multiset<nat>)
    ensures Owners(mem + [Free], {}, ext) == Owners(mem, {}, ext)
  {
    hide RefsOf;
    var mem' := mem + [Free];
    TotalSame(mem, {}, mem', {}, |mem|);
    assert Held(mem', {}, |mem|) == RefsOf(Free);
    FreeHoldsNothing();
  }

  lemma FreeHoldsNothing()
    ensures RefsOf(Free) == multiset{}
  {}

  lemma GrowBlocks(mem: seq<Blk>, ext: multiset<nat>)
    requires Inv(mem, {}, ext) && Owners(mem + [Free], {}, ext) == Owners(mem, {}, ext)
    ensures Inv(mem + [Free], {}, ext)
  {
    hide Owners, Total;
    var mem' := mem + [Free];
    forall b | 0 <= b < |mem'| ensures RightCount(mem'[b], Owners(mem', {}, ext)[b]) {
      if b < |mem| { assert RightCount(mem[b], Owners(mem, {}, ext)[b]); }
    }
    forall a, i | 0 <= a < |mem'| && mem'[a].Blk? && 0 <= i < |mem'[a].slots| ensures GoodSlot(mem', mem'[a].slots[i]) {
      assert GoodSlot(mem, mem[a].slots[i]);
    }
  }

  lemma GrowWeak(mem: seq<Blk>, table: seq<Entry>, lost: set<nat>)
    requires WeakInv(mem, {}, table, lost)
    ensures WeakInv(mem + [Free], {}, table, lost)
  {
    var mem' := mem + [Free];
    forall i | 0 <= i < |table| ensures GoodEntry(mem', {}, lost, table[i]) { assert GoodEntry(mem, {}, lost, table[i]); }
    forall p | 0 <= p < |mem'| && mem'[p].Blk? && mem'[p].kind.Proxy? && mem'[p].kind.target.To?
      ensures Entry(mem'[p].kind.target.addr, p) in table
    {
      assert Entry(mem[p].kind.target.addr, p) in table;
    }
  }

  lemma SlotGrow(mem: seq<Blk>, mem': seq<Blk>, s: Slot)
    requires GoodSlot(mem, s) && (mem' == mem || mem' == mem + [Free])
    ensures GoodSlot(mem', s)
  {}

  lemma TotalPlace(mem: seq<Blk>, a: nat, b: Blk)
    requires a < |mem|
    ensures Total(mem[a := b], {}, |mem|) + RefsOf(mem[a]) == Total(mem, {}, |mem|) + RefsOf(b)
  {
    hide RefsOf, Total;
    var mem' := mem[a := b];
    TotalDying(mem, {}, a, |mem|);
    TotalDying(mem', {}, a, |mem|);
    TotalUpdate(mem, {} + {a}, a, b);
  }

  lemma MoveRefs(ext: multiset<nat>, t: multiset<nat>, t': multiset<nat>, r: multiset<nat>, extra: multiset<nat>)
    requires r <= ext && t' + multiset{} == t + r
    ensures ext - r + extra + t' == ext + t + extra
  {
    forall x: nat ensures (ext - r + extra + t')[x] == (ext + t + extra)[x] {
      assert (t' + multiset{})[x] == (t + r)[x];
    }
  }

  lemma SwapRefs(ext: multiset<nat>, t: multiset<nat>, t': multiset<nat>, r: multiset<nat>, r': multiset<nat>, gone: multiset<nat>, come: multiset<nat>)
    requires come <= ext && t' + r == t + r' && r' + gone == r + come
    ensures ext + gone - come + t' == ext + t
  {
    forall x: nat ensures (ext + gone - come + t')[x] == (ext + t)[x] {
      assert (t' + r)[x] == (t + r')[x] && (r' + gone)[x] == (r + come)[x];
    }
  }

  lemma PlaceInv(mem: seq<Blk>, ext: multiset<nat>, a: nat, b: Blk)
    requires Inv(mem, {}, ext) && a < |mem| && mem[a].Free? && b.Blk? && b.rc == 0
    requires Refs(b.slots, 0) <= ext && (b.kind.Proxy? ==> b.slots == [])
    requires forall i :: 0 <= i < |b.slots| ==> GoodSlot(mem, b.slots[i])
    ensures Inv(mem[a := b], {}, ext - Refs(b.slots, 0) + (if b.kind.Struct? then multiset{a} else multiset{}))
  {
    hide Refs, Total, Owners, GoodSlot, RightCount;
    var mem', ext' := mem[a := b], ext - Refs(b.slots, 0) + (if b.kind.Struct? then multiset{a} else multiset{});
    forall c: nat ensures c in Owners(mem', {}, ext') ==> Alive(mem', c)
                  ensures c < |mem'| ==> RightCount(mem'[c], Owners(mem', {}, ext')[c])
    {
      PlaceCount(mem, ext, a, b, c);
    }
    forall x, i | 0 <= x < |mem'| && mem'[x].Blk? && 0 <= i < |mem'[x].slots| ensures GoodSlot(mem', mem'[x].slots[i]) {
      if x != a {
        PlaceOldSlot(mem, ext, a, b, x, i);
      } else {
        PlaceNewSlot(mem, ext, a, b, i);
      }
    }
  }

  lemma PlaceCount(mem: seq<Blk>, ext: multiset<nat>, a: nat, b: Blk, c: nat)
    requires Inv(mem, {}, ext) && a < |mem| && mem[a].Free? && b.Blk? && b.rc == 0 && Refs(b.slots, 0) <= ext
    ensures var o' := Owners(mem[a := b], {}, ext - Refs(b.slots, 0) + (if b.kind.Struct? then multiset{a} else multiset{}));
            (c in o' ==> Alive(mem[a := b], c)) && (c < |mem| ==> RightCount(mem[a := b][c], o'[c]))
  {
    PlaceOwners(mem, ext, a, b);
    hide Refs, Owners, GoodSlot;
    assert a !in Owners(mem, {}, ext);
    if c < |mem| { assert RightCount(mem[c], Owners(mem, {}, ext)[c]); }
  }

  lemma PlaceOwners(mem: seq<Blk>, ext: multiset<nat>, a: nat, b: Blk)
    requires a < |mem| && mem[a].Free? && b.Blk? && Refs(b.slots, 0) <= ext
    ensures var ext' := ext - Refs(b.slots, 0) + (if b.kind.Struct? then multiset{a} else multiset{});
            Owners(mem[a := b], {}, ext') == Owners(mem, {}, ext) + (if b.kind.Struct? then multiset{a} else multiset{})
  {
    hide Refs, Total;
    var extra := if b.kind.Struct? then multiset{a} else multiset{};
    TotalPlace(mem, a, b);
    MoveRefs(ext, Total(mem, {}, |mem|), Total(mem[a := b], {}, |mem|), Refs(b.slots, 0), extra);
  }

  lemma PlaceOldSlot(mem: seq<Blk>, ext: multiset<nat>, a: nat, b: Blk, x: nat, i: nat)
    requires Inv(mem, {}, ext) && a < |mem| && mem[a].Free? && Alive(mem, x) && i < |mem[x].slots|
    ensures GoodSlot(mem[a := b], mem[x].slots[i])
  {
    assert GoodSlot(mem, mem[x].slots[i]);
    if mem[x].slots[i].Ref? { SlotIsOwner(mem, {}, ext, x, i); }
    hide Owners;
  }

  lemma PlaceNewSlot(mem: seq<Blk>, ext: multiset<nat>, a: nat, b: Blk, i: nat)
    requires Inv(mem, {}, ext) && a < |mem| && mem[a].Free? && b.Blk? && i < |b.slots|
    requires Refs(b.slots, 0) <= ext && GoodSlot(mem, b.slots[i])
    ensures GoodSlot(mem[a := b], b.slots[i])
  {
    hide Owners;
    if b.slots[i].Ref? {
      RefsHas(b.slots, 0, i);
      OwnedAlive(mem, {}, ext, b.slots[i].addr);
    }
  }

  lemma PlaceWeak(mem: seq<Blk>, table: seq<Entry>, lost: set<nat>, a: nat, b: Blk)
    requires WeakInv(mem, {}, table, lost) && a < |mem| && mem[a].Free? && b.Blk? && !b.kind.Proxy?
    ensures WeakInv(mem[a := b], {}, table, lost - {a})
  {
    var mem' := mem[a := b];
    forall i | 0 <= i < |table| ensures GoodEntry(mem', {}, lost - {a}, table[i]) { assert GoodEntry(mem, {}, lost, table[i]); }
    forall p | 0 <= p < |mem'| && mem'[p].Blk? && mem'[p].kind.Proxy? && mem'[p].kind.target.To?
      ensures Entry(mem'[p].kind.target.addr, p) in table
    {
      assert Entry(mem[p].kind.target.addr, p) in table;
    }
  }

  lemma PlaceProxy(mem: seq<Blk>, table: seq<Entry>, lost: set<nat>, a: nat, t: nat)
    requires WeakInv(mem, {}, table, lost) && a < |mem| && a !in lost && mem[a].Free?
    requires Alive(mem, t) && !mem[t].kind.Proxy? && forall e :: e in table ==> e.target != t
    ensures WeakInv(mem[a := Blk(Proxy(To(t)), 0, [], [])], {}, table + [Entry(t, a)], lost)
  {
    var mem', table' := mem[a := Blk(Proxy(To(t)), 0, [], [])], table + [Entry(t, a)];
    forall i | 0 <= i < |table'| ensures GoodEntry(mem', {}, lost, table'[i]) {
      if i < |table| { assert GoodEntry(mem, {}, lost, table[i]); }
    }
    forall i, j | 0 <= i < j < |table'| ensures table'[i].target != table'[j].target {
      if j == |table| { assert table[i] in table; }
    }
    forall p | 0 <= p < |mem'| && mem'[p].Blk? && mem'[p].kind.Proxy? && mem'[p].kind.target.To?
      ensures Entry(mem'[p].kind.target.addr, p) in table'
    {
      if p != a { assert Entry(mem[p].kind.target.addr, p) in table; }
    }
  }

  lemma ListedOnce(mem: seq<Blk>, table: seq<Entry>, lost: set<nat>, p: nat)
    requires WeakInv(mem, {}, table, lost) && Alive(mem, p) && mem[p].kind.Proxy? && mem[p].kind.target.To?
    ensures exists i :: 0 <= i < |table| && table[i] == Entry(mem[p].kind.target.addr, p)
    ensures var t := mem[p].kind.target.addr; if t in lost then !Alive(mem, t) else Alive(mem, t) && !mem[t].kind.Proxy?
  {
    var t := mem[p].kind.target.addr;
    assert Entry(t, p) in table;
    var i :| 0 <= i < |table| && table[i] == Entry(t, p);
    assert GoodEntry(mem, {}, lost, table[i]);
  }

  lemma StillThere(mem0: seq<Blk>, base: multiset<nat>, o0: multiset<nat>, mem: seq<Blk>, freed: seq<nat>, t: Target, at: nat)
    requires FreedExactly(mem0, base, o0, mem, freed) && Inv(mem, {}, base)
    requires t.To? ==> t.addr in base && Alive(mem0, t.addr) && !mem0[t.addr].kind.Proxy?
    requires (at < |mem0| ==> mem0[at].Free?) && at <= |mem0|
    ensures t.To? ==> Alive(mem, t.addr) && !mem[t.addr].kind.Proxy?
    ensures (at < |mem| ==> mem[at].Free?) && at <= |mem|
  {
    hide ClosedUnder;
    if t.To? {
      OwnedAlive(mem, {}, base, t.addr);
      assert SameBody(mem[t.addr], mem0[t.addr]);
    }
  }

  lemma StillOwned(mem0: seq<Blk>, base: multiset<nat>, o0: multiset<nat>, mem: seq<Blk>, freed: seq<nat>, c: nat, dying: set<nat>)
    requires FreedExactly(mem0, base, o0, mem, freed) && dying == {} && Inv(mem, dying, base) && c in base && Alive(mem0, c)
    ensures Alive(mem, c) && mem[c].slots == mem0[c].slots && (mem0[c].kind.Proxy? || mem[c].kind == mem0[c].kind)
    ensures IsStruct(mem, c) == IsStruct(mem0, c)
  {
    hide ClosedUnder;
    OwnedAlive(mem, {}, base, c);
    assert SameBody(mem[c], mem0[c]);
  }

  lemma {:induction false} RefsUpdateAt(s: seq<Slot>, i: nat, v: Slot, from: nat, x: nat)
    requires from <= i < |s|
    ensures Refs(s[i := v], from)[x] + SlotRef(s[i])[x] == Refs(s, from)[x] + SlotRef(v)[x]
    decreases i - from
  {
    hide SlotRef;
    if from < i {
      RefsUpdateAt(s, i, v, from + 1, x);
      assert s[i := v][from] == s[from];
    } else {
      RefsTail(s, i, v, i + 1);
    }
  }

  lemma RefsUpdate(s: seq<Slot>, i: nat, v: Slot)
    requires i < |s|
    ensures Refs(s[i := v], 0) + SlotRef(s[i]) == Refs(s, 0) + SlotRef(v)
  {
    hide Refs, SlotRef;
    forall x: nat ensures (Refs(s[i := v], 0) + SlotRef(s[i]))[x] == (Refs(s, 0) + SlotRef(v))[x] {
      RefsUpdateAt(s, i, v, 0, x);
    }
  }

  lemma {:induction false} RefsTail(s: seq<Slot>, i: nat, v: Slot, from: nat)
    requires i < from <= |s|
    ensures Refs(s[i := v], from) == Refs(s, from)
    decreases |s| - from
  {
    if from < |s| { RefsTail(s, i, v, from + 1); }
  }

  /** Overwriting a slot moves its references between the block and the outside. */
  lemma SlotWrite(mem: seq<Blk>, ext: multiset<nat>, c: nat, i: nat, v: Slot)
    requires Inv(mem, {}, ext) && Alive(mem, c) && !mem[c].kind.Proxy? && i < |mem[c].slots|
    requires SlotRef(v) <= ext && GoodSlot(mem, v)
    ensures Inv(mem[c := mem[c].(slots := mem[c].slots[i := v])], {}, ext + SlotRef(mem[c].slots[i]) - SlotRef(v))
  {
    hide Refs, Total;
    var mem' := mem[c := mem[c].(slots := mem[c].slots[i := v])];
    var ext' := ext + SlotRef(mem[c].slots[i]) - SlotRef(v);
    RefsUpdate(mem[c].slots, i, v);
    TotalPlace(mem, c, mem'[c]);
    SwapRefs(ext, Total(mem, {}, |mem|), Total(mem', {}, |mem|), RefsOf(mem[c]), RefsOf(mem'[c]), SlotRef(mem[c].slots[i]), SlotRef(v));
    var o, o' := Owners(mem, {}, ext), Owners(mem', {}, ext');
    assert o' == o;
    hide Owners;
    forall b | 0 <= b < |mem'| ensures RightCount(mem'[b], o'[b]) { assert RightCount(mem[b], o[b]); }
    forall x, j | 0 <= x < |mem'| && mem'[x].Blk? && 0 <= j < |mem'[x].slots| ensures GoodSlot(mem', mem'[x].slots[j]) {
      if x != c || j != i { assert GoodSlot(mem, mem[x].slots[j]); }
    }
  }

  lemma NotProxy(mem: seq<Blk>, ext: multiset<nat>, c: nat, i: nat)
    requires Inv(mem, {}, ext) && Alive(mem, c) && i < |mem[c].slots|
    ensures !mem[c].kind.Proxy?
  {}

  lemma WeakSlots(mem: seq<Blk>, dying: set<nat>, table: seq<Entry>, lost: set<nat>, c: nat, slots: seq<Slot>)
    requires WeakInv(mem, dying, table, lost) && Alive(mem, c)
    ensures WeakInv(mem[c := mem[c].(slots := slots)], dying, table, lost)
  {
    var mem' := mem[c := mem[c].(slots := slots)];
    forall i | 0 <= i < |table| ensures GoodEntry(mem', dying, lost, table[i]) { assert GoodEntry(mem, dying, lost, table[i]); }
    forall p | 0 <= p < |mem'| && mem'[p].Blk? && mem'[p].kind.Proxy? && mem'[p].kind.target.To?
      ensures Entry(mem'[p].kind.target.addr, p) in table
    {
      assert Entry(mem[p].kind.target.addr, p) in table;
    }
  }
}
