/**
 Stores that the counting scheme does not cover: a value struct behind a weak slot, a slot's
 own value stored into it again, and the copying store into a shared boxed array. Each is
 shown by a run or a state that fails, and the copying store with the exact condition under
 which it is right.
 */
module ArcStores {
  import opened Arc

  // --------------------------------------------------------------- failing runs

  /** A value struct stored weakly and then reclaimed: its proxy still names the freed address. */
  method WeakStructDangles() returns (h: Heap, p: nat)
    ensures fresh(h) && h.Steady() && !h.Valid()
    ensures p in h.ext && Alive(h.mem, p) && h.mem[p].kind == Proxy(To(0)) && 0 < |h.mem| && h.mem[0].Free?
  {
    hide Inv, WeakInv, FreedExactly, TableAfter, Owners;
    h := new Heap();
    RefsEnd([]);
    h.New(0, true, [], []);
    var t := h.WeakStore(Nobody, To(0), 1);
    p := t.addr;
    ghost var mem, table, o := h.mem, h.table, Owners(h.mem, {}, h.ext);
    assert h.lost == {};
    ListedOnce(mem, table, {}, p);
    ghost var freed := h.Drop(0);
    OwnedAlive(h.mem, {}, h.ext, p);
    LeftBehind(mem, table, h.ext, o, h.mem, h.table, h.lost, freed, p);
  }

  /** The address is handed out again: reading the weak slot now yields a block that was never stored there. */
  method StaleProxyRenamed() returns (h: Heap, t: Target, ok: bool)
    ensures h.Steady() && ok && t == To(0) && Alive(h.mem, 0) && h.mem[0].kind == Plain
  {
    hide Inv, WeakInv;
    var p: nat;
    h, p := WeakStructDangles();
    RefsEnd([]);
    h.New(0, false, [], []);
    t, ok := h.WeakLoad(p);
  }

  lemma LeftBehind(mem0: seq<Blk>, table0: seq<Entry>, base: multiset<nat>, o: multiset<nat>, mem: seq<Blk>, table: seq<Entry>,
                   lost: set<nat>, freed: seq<nat>, p: nat)
    requires FreedExactly(mem0, base, o, mem, freed) && TableAfter(mem0, table0, table, freed)
    requires WeakInv(mem, {}, table, lost) && Alive(mem, p) && Entry(0, p) in table0 && IsStruct(mem0, 0) && mem[0].Free?
    ensures !NoneLeftBehind(mem0, table0, freed) && mem[p].kind == Proxy(To(0))
  {
    hide ClosedUnder;
    assert InLog(freed, 0) && !InLog(freed, p);
    assert Entry(0, p) in table;
    var i :| 0 <= i < |table| && table[i] == Entry(0, p);
    assert GoodEntry(mem, {}, lost, table[i]);
  }

  /** Storing into a slot the value that only that slot keeps alive: the value is freed before it is stored. */
  method SelfStoreFrees() returns (h: Heap, ok: bool)
    ensures h.Steady() && !ok && 0 < |h.mem| && h.mem[0].Free?
  {
    hide Inv, WeakInv;
    h := new Heap();
    RefsEnd([]);
    h.New(0, false, [], []);
    h.Retain(0);
    var slot := Ref(0, true);
    OneRef(slot);
    h.New(1, false, [slot], []);
    h.Retain(1);
    ghost var freed;
    ok, freed := h.SetSlot(1, 0, slot);
  }

  lemma OneRef(s: Slot)
    requires s.Ref?
    ensures Refs([s], 0) == multiset{s.addr}
  {
    assert Refs([s], 1) == multiset{};
  }

  /**
   Filling an inline array with a struct copies its words and counts nothing: the array is a
   block whose element words name what the struct's fields name, without a counted slot. Once the
   struct is dropped its field is freed, and the array's words still name it.
   */
  method FillDangles() returns (h: Heap, field: nat, array_: nat)
    ensures h.Steady() && Alive(h.mem, array_) && field in h.mem[array_].raw && field < |h.mem| && h.mem[field].Free?
  {
    hide Inv, WeakInv, FreedExactly, TableAfter, Owners;
    h := StructWithField();
    h.New(2, false, [], [h.mem[1].slots[0].addr]);
    h.Retain(2);
    ghost var mem, o := h.mem, Owners(h.mem, {}, h.ext);
    FieldOwned(mem, h.ext);
    ghost var freed := h.Drop(1);
    OwnedAlive(h.mem, {}, h.ext, 2);
    FieldFreed(mem, h.ext, o, h.mem, freed);
    KeptBodies(mem, h.ext, o, h.mem, freed);
    field, array_ := 0, 2;
  }

  /** A value struct at address 1, held by the caller, that owns the block at address 0. */
  method StructWithField() returns (h: Heap)
    ensures fresh(h) && h.Valid() && h.ext == multiset{1} && |h.mem| == 2 && Refs([], 0) == multiset{}
    ensures h.mem[0] == Blk(Plain, 1, [], []) && h.mem[1] == Blk(Struct, 0, [Ref(0, true)], [])
  {
    hide Inv, WeakInv, Owners;
    h := new Heap();
    RefsEnd([]);
    h.New(0, false, [], []);
    h.Retain(0);
    OneRef(Ref(0, true));
    h.New(1, true, [Ref(0, true)], []);
  }

  lemma FieldOwned(mem: seq<Blk>, ext: multiset<nat>)
    requires |mem| == 3 && mem[1].Blk? && mem[1].slots == [Ref(0, true)]
    ensures 0 in Owners(mem, {}, ext)
  {
    SlotIsOwner(mem, {}, ext, 1, 0);
  }

  lemma FieldFreed(mem0: seq<Blk>, base: multiset<nat>, o: multiset<nat>, mem: seq<Blk>, freed: seq<nat>)
    requires |mem0| == 3 && mem0[0].Blk? && mem0[0].slots == [] && mem0[1].Blk? && mem0[2].Blk? && mem0[2].slots == []
    requires FreedExactly(mem0, base, o, mem, freed) && 0 in o && 0 !in base && mem[1].Free?
    ensures mem[0].Free? && (mem[2].Blk? ==> !InLog(freed, 2))
  {
    var g := LogSet(freed);
    assert InLog(freed, 1) && 1 in g;
    RefsEnd([]);
    assert Held(mem0, g, 0) == multiset{} && Held(mem0, g, 1) == multiset{} && Held(mem0, g, 2) == multiset{};
    assert Total(mem0, g, 0) == multiset{};
    assert Total(mem0, g, 1) == Total(mem0, g, 0) + Held(mem0, g, 0);
    assert Total(mem0, g, 2) == Total(mem0, g, 1) + Held(mem0, g, 1);
    assert Total(mem0, g, 3) == Total(mem0, g, 2) + Held(mem0, g, 2);
    assert Owners(mem0, g, base)[0] == 0;
    hide Owners, Total;
    assert 0 in g && InLog(freed, 0);
  }

  // --------------------------------------------- a store into a shared boxed array

  /** Retain: a counted block gains a count, anything else is left alone. */
  function Retained(mem: seq<Blk>, s: Slot): (r: seq<Blk>)
    ensures |r| == |mem|
  {
    if s.Ref? && Alive(mem, s.addr) && !IsStruct(mem, s.addr)
    then mem[s.addr := mem[s.addr].(rc := mem[s.addr].rc + 1)] else mem
  }

  function RetainedAll(mem: seq<Blk>, slots: seq<Slot>, k: nat): (r: seq<Blk>)
    requires k <= |slots|
    ensures |r| == |mem|
    decreases |slots| - k
  {
    if k == |slots| then mem else RetainedAll(Retained(mem, slots[k]), slots, k + 1)
  }

  /**
   Memory after a store into an array that others share: a fresh block gets a copy of all
   slots with one replaced, and every slot of the copy is retained.
   */
  function SharedStore(mem: seq<Blk>, slots: seq<Slot>, at: nat): seq<Blk>
    requires at < |mem|
  {
    RetainedAll(mem[at := Blk(Plain, 0, slots, [])], slots, 0)
  }

  predicate Recounted(b: Blk, b': Blk, n: nat) {
    b' == if b.Blk? && !b.kind.Struct? then b.(rc := b.rc + n) else b
  }

  lemma {:induction false} RetainedIs(mem: seq<Blk>, slots: seq<Slot>, k: nat)
    requires k <= |slots| && forall i :: 0 <= i < |slots| && slots[i].Ref? ==> Alive(mem, slots[i].addr)
    ensures forall b :: 0 <= b < |mem| ==> Recounted(mem[b], RetainedAll(mem, slots, k)[b], Refs(slots, k)[b])
    decreases |slots| - k
  {
    if k < |slots| {
      var mem1 := Retained(mem, slots[k]);
      RetainedIs(mem1, slots, k + 1);
      var mem' := RetainedAll(mem1, slots, k + 1);
      forall b | 0 <= b < |mem| ensures Recounted(mem[b], mem'[b], Refs(slots, k)[b]) {
        assert Recounted(mem1[b], mem'[b], Refs(slots, k + 1)[b]);
      }
    }
  }

  /** No slot of the copy, the replaced one apart, holds a value struct. */
  predicate NoStructCopied(mem: seq<Blk>, slots: seq<Slot>, i: int) {
    forall k :: 0 <= k < |slots| && k != i && slots[k].Ref? ==> !IsStruct(mem, slots[k].addr)
  }

  /** What the code may assume: `slots` are the array's own with `v` at i; the caller hands over a struct `v`. */
  ghost predicate Storable(mem: seq<Blk>, ext: multiset<nat>, c: nat, i: int, v: Slot, at: nat) {
    && Inv(mem, {}, ext) && Alive(mem, c) && mem[c].kind.Plain? && at < |mem| && mem[at].Free?
    && (v.Ref? ==> v.addr in ext) && GoodSlot(mem, v)
  }

  function Replaced(slots: seq<Slot>, i: int, v: Slot): seq<Slot> {
    if 0 <= i < |slots| then slots[i := v] else slots
  }

  function HandedOver(mem: seq<Blk>, slots: seq<Slot>, ext: multiset<nat>, i: int, v: Slot): multiset<nat> {
    if 0 <= i < |slots| && v.Ref? && IsStruct(mem, v.addr) then ext - multiset{v.addr} else ext
  }

  /** References in the copied slots, the replaced one apart. */
  function Copied(slots: seq<Slot>, i: int): multiset<nat> {
    Refs(Replaced(slots, i, Imm), 0)
  }

  function Moved(mem: seq<Blk>, slots: seq<Slot>, i: int, v: Slot, b: nat): nat {
    if 0 <= i < |slots| && v.Ref? && v.addr == b && IsStruct(mem, b) then 1 else 0
  }

  lemma RefsSplit(slots: seq<Slot>, i: int, v: Slot, b: nat)
    ensures Refs(Replaced(slots, i, v), 0)[b] == Copied(slots, i)[b] + (if 0 <= i < |slots| && v == Ref(b, v.Ref? && v.deep) then 1 else 0)
  {
    if 0 <= i < |slots| {
      var s := slots[i := v];
      RefsUpdateAt(s, i, Imm, 0, b);
      assert s[i := Imm] == slots[i := Imm];
    }
  }

  lemma {:induction false} RefsNone(s: seq<Slot>, k: nat, b: nat)
    requires k <= |s| && forall j :: 0 <= j < |s| && s[j].Ref? ==> s[j].addr != b
    ensures Refs(s, k)[b] == 0
    decreases |s| - k
  {
    if k < |s| { RefsNone(s, k + 1, b); }
  }

  /** The copy leaves value structs alone exactly when it takes no reference to one. */
  lemma CopiedStructs(mem: seq<Blk>, slots: seq<Slot>, i: int, v: Slot)
    ensures NoStructCopied(mem, Replaced(slots, i, v), i) <==> forall b: nat :: IsStruct(mem, b) ==> Copied(slots, i)[b] == 0
  {
    var s, r := Replaced(slots, i, v), Replaced(slots, i, Imm);
    assert |s| == |r| && forall k :: 0 <= k < |s| && k != i ==> s[k] == r[k];
    if NoStructCopied(mem, s, i) {
      forall b: nat | IsStruct(mem, b) ensures Copied(slots, i)[b] == 0 {
        forall j | 0 <= j < |r| && r[j].Ref? ensures r[j].addr != b {
          assert j != i && s[j] == r[j];
        }
        RefsNone(r, 0, b);
      }
    } else {
      var k :| 0 <= k < |s| && k != i && s[k].Ref? && IsStruct(mem, s[k].addr);
      assert r[k] == s[k];
      RefsHas(r, 0, k);
      assert Copied(slots, i)[s[k].addr] != 0;
    }
  }

  lemma SlotsAlive(mem: seq<Blk>, ext: multiset<nat>, c: nat, i: int, v: Slot, at: nat)
    requires Storable(mem, ext, c, i, v, at)
    ensures var slots := Replaced(mem[c].slots, i, v);
            forall k :: 0 <= k < |slots| ==> GoodSlot(mem, slots[k]) && (slots[k].Ref? ==> Alive(mem, slots[k].addr) && slots[k].addr != at)
  {
    var slots := Replaced(mem[c].slots, i, v);
    forall k | 0 <= k < |slots| ensures GoodSlot(mem, slots[k]) && (slots[k].Ref? ==> Alive(mem, slots[k].addr) && slots[k].addr != at) {
      if k == i {
        if v.Ref? { OwnedAlive(mem, {}, ext, v.addr); }
      } else {
        assert slots[k] == mem[c].slots[k] && GoodSlot(mem, mem[c].slots[k]);
        if slots[k].Ref? { SlotIsOwner(mem, {}, ext, c, k); }
      }
    }
  }

  /** What all slots hold after the store. */
  lemma SharedTotal(mem: seq<Blk>, slots: seq<Slot>, at: nat, b: nat)
    requires at < |mem| && mem[at].Free? && forall k :: 0 <= k < |slots| && slots[k].Ref? ==> Alive(mem, slots[k].addr)
    ensures var mem' := SharedStore(mem, slots, at);
            |mem'| == |mem| && Total(mem', {}, |mem|)[b] == Total(mem, {}, |mem|)[b] + Refs(slots, 0)[b]
  {
    hide Refs, Total;
    var blk := Blk(Plain, 0, slots, []);
    var mem1 := mem[at := blk];
    var mem' := RetainedAll(mem1, slots, 0);
    RetainedIs(mem1, slots, 0);
    hide RetainedAll;
    forall x | 0 <= x < |mem1| ensures Held(mem1, {}, x) == Held(mem', {}, x) {
      assert Recounted(mem1[x], mem'[x], Refs(slots, 0)[x]);
    }
    TotalSame(mem1, {}, mem', {}, |mem|);
    TotalPlace(mem, at, blk);
    FreeHoldsNothing();
    assert (Total(mem1, {}, |mem|) + RefsOf(mem[at]))[b] == (Total(mem, {}, |mem|) + RefsOf(blk))[b];
  }

  /** Owners after the store. */
  lemma SharedOwners(mem: seq<Blk>, ext: multiset<nat>, c: nat, i: int, v: Slot, at: nat, b: nat)
    requires Storable(mem, ext, c, i, v, at)
    ensures var slots := Replaced(mem[c].slots, i, v);
            Owners(SharedStore(mem, slots, at), {}, HandedOver(mem, slots, ext, i, v))[b] ==
            Owners(mem, {}, ext)[b] + Refs(slots, 0)[b] - Moved(mem, slots, i, v, b)
  {
    SlotsAlive(mem, ext, c, i, v, at);
    hide Inv, Refs, Total, GoodSlot, SharedStore;
    SharedTotal(mem, Replaced(mem[c].slots, i, v), at, b);
  }

  /** Owners and counts after the store, block by block. */
  lemma SharedCounts(mem: seq<Blk>, ext: multiset<nat>, c: nat, i: int, v: Slot, at: nat, b: nat)
    requires Storable(mem, ext, c, i, v, at) && b < |mem|
    ensures var slots := Replaced(mem[c].slots, i, v); var mem' := SharedStore(mem, slots, at);
            && |mem'| == |mem| && (b != at ==> Recounted(mem[b], mem'[b], Refs(slots, 0)[b]))
            && mem'[at] == Blk(Plain, 0, slots, [])
    ensures var slots := Replaced(mem[c].slots, i, v); var o' := Owners(SharedStore(mem, slots, at), {}, HandedOver(mem, slots, ext, i, v));
            && (IsStruct(mem, b) ==> o'[b] == Owners(mem, {}, ext)[b] + Copied(mem[c].slots, i)[b])
            && (!IsStruct(mem, b) ==> o'[b] == Owners(mem, {}, ext)[b] + Refs(slots, 0)[b])
            && (b == at ==> o'[b] == 0)
  {
    SlotsAlive(mem, ext, c, i, v, at);
    SharedOwners(mem, ext, c, i, v, at, b);
    RefsSplit(mem[c].slots, i, v, b);
    var slots := Replaced(mem[c].slots, i, v);
    var mem1 := mem[at := Blk(Plain, 0, slots, [])];
    RetainedIs(mem1, slots, 0);
    RefsNone(slots, 0, at);
    assert at !in Owners(mem, {}, ext);
    hide Owners, Inv, Refs, RetainedAll;
    assert Recounted(mem1[at], RetainedAll(mem1, slots, 0)[at], 0);
    assert Recounted(mem1[b], RetainedAll(mem1, slots, 0)[b], Refs(slots, 0)[b]);
  }

  /**
   A store into a shared boxed array copies the element words and retains them, and retaining
   ignores value structs. All counts are right afterwards if and only if no copied element
   is a value struct.
   */
  lemma SharedStoreIff(mem: seq<Blk>, ext: multiset<nat>, c: nat, i: int, v: Slot, at: nat)
    requires Storable(mem, ext, c, i, v, at)
    ensures var slots := Replaced(mem[c].slots, i, v);
            Inv(SharedStore(mem, slots, at), {}, HandedOver(mem, slots, ext, i, v)) <==> NoStructCopied(mem, slots, i)
  {
    hide Owners, Refs, Copied, SharedStore, HandedOver, NoStructCopied;
    CopiedStructs(mem, mem[c].slots, i, v);
    if forall b: nat :: IsStruct(mem, b) ==> Copied(mem[c].slots, i)[b] == 0 {
      SharedKeeps(mem, ext, c, i, v, at);
    } else {
      var b: nat :| IsStruct(mem, b) && Copied(mem[c].slots, i)[b] != 0;
      SharedBreaks(mem, ext, c, i, v, at, b);
    }
  }

  lemma SharedKeeps(mem: seq<Blk>, ext: multiset<nat>, c: nat, i: int, v: Slot, at: nat)
    requires Storable(mem, ext, c, i, v, at) && forall b: nat :: IsStruct(mem, b) ==> Copied(mem[c].slots, i)[b] == 0
    ensures var slots := Replaced(mem[c].slots, i, v); Inv(SharedStore(mem, slots, at), {}, HandedOver(mem, slots, ext, i, v))
  {
    hide Owners, Refs, Copied, SharedStore, HandedOver, GoodSlot, RightCount, Recounted;
    var slots := Replaced(mem[c].slots, i, v);
    var mem', ext' := SharedStore(mem, slots, at), HandedOver(mem, slots, ext, i, v);
    SharedCounts(mem, ext, c, i, v, at, at);
    forall b | 0 <= b < |mem'| ensures RightCount(mem'[b], Owners(mem', {}, ext')[b]) {
      SharedRight(mem, ext, c, i, v, at, b);
    }
    forall b | b in Owners(mem', {}, ext') ensures Alive(mem', b) {
      SharedOwned(mem, ext, c, i, v, at, b);
    }
    forall x, k | 0 <= x < |mem'| && mem'[x].Blk? && 0 <= k < |mem'[x].slots| ensures GoodSlot(mem', mem'[x].slots[k]) {
      SharedSlot(mem, ext, c, i, v, at, x, k);
    }
    forall x | 0 <= x < |mem'| && mem'[x].Blk? && mem'[x].kind.Proxy? ensures mem'[x].slots == [] {
      SharedProxy(mem, ext, c, i, v, at, x);
    }
  }

  lemma SharedRight(mem: seq<Blk>, ext: multiset<nat>, c: nat, i: int, v: Slot, at: nat, b: nat)
    requires Storable(mem, ext, c, i, v, at) && b < |mem| && (IsStruct(mem, b) ==> Copied(mem[c].slots, i)[b] == 0)
    ensures var slots := Replaced(mem[c].slots, i, v); var mem' := SharedStore(mem, slots, at);
            |mem'| == |mem| && RightCount(mem'[b], Owners(mem', {}, HandedOver(mem, slots, ext, i, v))[b])
  {
    hide Owners, Refs, Copied, SharedStore, HandedOver, GoodSlot;
    SharedCounts(mem, ext, c, i, v, at, at);
    SharedCounts(mem, ext, c, i, v, at, b);
    assert RightCount(mem[b], Owners(mem, {}, ext)[b]);
    hide Inv;
  }

  lemma SharedProxy(mem: seq<Blk>, ext: multiset<nat>, c: nat, i: int, v: Slot, at: nat, x: nat)
    requires Storable(mem, ext, c, i, v, at) && x < |mem|
    ensures var mem' := SharedStore(mem, Replaced(mem[c].slots, i, v), at);
            |mem'| == |mem| && (mem'[x].Blk? && mem'[x].kind.Proxy? ==> mem'[x].slots == [])
  {
    hide Owners, Refs, Copied, SharedStore, HandedOver, GoodSlot, RightCount;
    SharedCounts(mem, ext, c, i, v, at, at);
    SharedCounts(mem, ext, c, i, v, at, x);
  }

  lemma SharedOwned(mem: seq<Blk>, ext: multiset<nat>, c: nat, i: int, v: Slot, at: nat, b: nat)
    requires Storable(mem, ext, c, i, v, at)
    ensures var slots := Replaced(mem[c].slots, i, v); var mem' := SharedStore(mem, slots, at);
            b in Owners(mem', {}, HandedOver(mem, slots, ext, i, v)) ==> Alive(mem', b)
  {
    hide Inv, Owners, Refs, Copied, SharedStore, HandedOver, Storable, GoodSlot;
    if !Alive(mem, b) {
      SharedUnowned(mem, ext, c, i, v, at, b);
    } else {
      SharedCounts(mem, ext, c, i, v, at, b);
    }
  }

  lemma SharedUnowned(mem: seq<Blk>, ext: multiset<nat>, c: nat, i: int, v: Slot, at: nat, b: nat)
    requires Storable(mem, ext, c, i, v, at) && !Alive(mem, b)
    ensures var slots := Replaced(mem[c].slots, i, v); Owners(SharedStore(mem, slots, at), {}, HandedOver(mem, slots, ext, i, v))[b] == 0
  {
    SlotsAlive(mem, ext, c, i, v, at);
    SharedOwners(mem, ext, c, i, v, at, b);
    hide Owners, SharedStore, HandedOver;
    assert b !in Owners(mem, {}, ext);
    RefsNone(Replaced(mem[c].slots, i, v), 0, b);
  }

  lemma SharedSlot(mem: seq<Blk>, ext: multiset<nat>, c: nat, i: int, v: Slot, at: nat, x: nat, k: nat)
    requires Storable(mem, ext, c, i, v, at)
    requires var mem' := SharedStore(mem, Replaced(mem[c].slots, i, v), at); x < |mem'| && mem'[x].Blk? && k < |mem'[x].slots|
    ensures var mem' := SharedStore(mem, Replaced(mem[c].slots, i, v), at); GoodSlot(mem', mem'[x].slots[k])
  {
    hide Owners, Refs, SharedStore, Copied, HandedOver;
    var slots := Replaced(mem[c].slots, i, v);
    var mem' := SharedStore(mem, slots, at);
    SharedCounts(mem, ext, c, i, v, at, at);
    SharedCounts(mem, ext, c, i, v, at, x);
    SlotsAlive(mem, ext, c, i, v, at);
    var s := mem'[x].slots[k];
    assert GoodSlot(mem, s);
    hide Inv;
    if s.Ref? && IsStruct(mem', s.addr) { SharedCounts(mem, ext, c, i, v, at, s.addr); }
  }

  lemma SharedBreaks(mem: seq<Blk>, ext: multiset<nat>, c: nat, i: int, v: Slot, at: nat, b: nat)
    requires Storable(mem, ext, c, i, v, at) && IsStruct(mem, b) && Copied(mem[c].slots, i)[b] != 0
    ensures var slots := Replaced(mem[c].slots, i, v); !Inv(SharedStore(mem, slots, at), {}, HandedOver(mem, slots, ext, i, v))
  {
    SharedCounts(mem, ext, c, i, v, at, b);
    CopiedIsOwned(mem, ext, c, i, b);
    var slots := Replaced(mem[c].slots, i, v);
    var mem', ext' := SharedStore(mem, slots, at), HandedOver(mem, slots, ext, i, v);
    hide Owners, Refs, Copied, SharedStore, HandedOver;
    assert !RightCount(mem'[b], Owners(mem', {}, ext')[b]);
  }

  lemma CopiedIsOwned(mem: seq<Blk>, ext: multiset<nat>, c: nat, i: int, b: nat)
    requires Alive(mem, c) && Copied(mem[c].slots, i)[b] != 0
    ensures b in Owners(mem, {}, ext)
  {
    var s := Replaced(mem[c].slots, i, Imm);
    if forall j :: 0 <= j < |s| && s[j].Ref? ==> s[j].addr != b {
      RefsNone(s, 0, b);
      assert false;
    }
    var j :| 0 <= j < |s| && s[j].Ref? && s[j].addr == b;
    assert mem[c].slots[j] == s[j];
    SlotIsOwner(mem, {}, ext, c, j);
  }

  /** An array with two owners that holds a value struct, and room for a copy. */
  const SHARED_STRUCT: seq<Blk> := [Blk(Struct, 0, [], []), Blk(Plain, 2, [Ref(0, true), Imm], []), Free]

  lemma SharedStructOwners()
    ensures Owners(SHARED_STRUCT, {}, multiset{1, 1}) == multiset{0, 1, 1}
  {
    var m := SHARED_STRUCT;
    SlotPair(m[1].slots);
    hide Refs;
    RefsEnd([]);
    assert RefsOf(m[0]) == multiset{} && RefsOf(m[1]) == multiset{0} && RefsOf(m[2]) == multiset{};
    hide RefsOf;
    assert Total(m, {}, 1) == multiset{} && Total(m, {}, 2) == multiset{0} && Total(m, {}, 3) == multiset{0};
  }

  lemma SlotPair(s: seq<Slot>)
    requires s == [Ref(0, true), Imm]
    ensures Refs(s, 0) == multiset{0}
  {
    assert Refs(s, 2) == multiset{} && Refs(s, 1) == multiset{};
  }

  lemma SharedStructInv()
    ensures Inv(SHARED_STRUCT, {}, multiset{1, 1})
  {
    hide Owners;
    SharedStructOwners();
  }

  /** Storing an immediate next to that struct: two arrays now own it, and each will reclaim it. */
  lemma SharedStructAliased()
    ensures var slots := [Ref(0, true), Imm]; var mem := SharedStore(SHARED_STRUCT, slots, 2);
            && Inv(SHARED_STRUCT, {}, multiset{1, 1}) && !Inv(mem, {}, multiset{1, 1})
            && mem[1].slots[0] == mem[2].slots[0] == Ref(0, true) && IsStruct(mem, 0)
  {
    SharedStructInv();
    var slots := [Ref(0, true), Imm];
    assert Replaced(SHARED_STRUCT[1].slots, 1, Imm) == slots;
    hide Inv, RetainedAll;
    assert Storable(SHARED_STRUCT, multiset{1, 1}, 1, 1, Imm, 2);
    SharedStoreIff(SHARED_STRUCT, multiset{1, 1}, 1, 1, Imm, 2);
    SharedCounts(SHARED_STRUCT, multiset{1, 1}, 1, 1, Imm, 2, 0);
    SharedCounts(SHARED_STRUCT, multiset{1, 1}, 1, 1, Imm, 2, 1);
    assert slots[0].Ref? && IsStruct(SHARED_STRUCT, slots[0].addr);
  }
}
