/**
 The flatten half of the thread-transfer engine: a depth-first walk that copies a
 value graph into the buffer of FlatBuffer, one record per node, with references
 as byte offsets. Sharing and cycles are handled by the `seen` map.
 */
module Flatten {
  import opened Util
  import opened Values
  import opened FlatBuffer
  import SeenTable

  /** Why a value may not cross a thread boundary. */
  datatype Reason = BlockValue | ClosureValue | PromiseHandle(classId: int) | LoopCarrier(classId: int)

  function ObjectReason(ct: ClassTable, n: Node): Option<Reason>
    requires n.head.ObjH? && |n.kids| == Arity(n.head)
  {
    var c := n.head.classId;
    if ClassIs(ct, c, "Promise") then Some(PromiseHandle(c))
    else if ClassIs(ct, c, "TcpStream") || ClassIs(ct, c, "TcpListener") || ClassIs(ct, c, "Timer") ||
            ClassIs(ct, c, "Process") || ClassIs(ct, c, "TcpConnector") then Some(LoopCarrier(c))
    else if ClassIs(ct, c, "InStream") then
      var hd := GetField(ct, n, "hasDispose");
      if hd.tag.Bool? && hd.payload != 0 then Some(LoopCarrier(c)) else Option.None
    else Option.None
  }

  /** The check made on one value, before its node is looked up in `seen`. */
  function Refusal(ct: ClassTable, heap: Heap, v: Value, isRoot: bool): Option<Reason> {
    if v.tag.Block? then Some(BlockValue)
    else if v.tag.Clo? && !isRoot then Some(ClosureValue)
    else if v.tag.Obj? && v.payload in heap && heap[v.payload].head.ObjH? &&
            |heap[v.payload].kids| == Arity(heap[v.payload].head)
    then ObjectReason(ct, heap[v.payload])
    else Option.None
  }

  const CARRIERS: set<string> := {"TcpStream", "TcpListener", "Timer", "Process", "TcpConnector"}

  /** The object is of this class or of a class derived from it. */
  predicate IsA(ct: ClassTable, heap: Heap, v: Value, name: string) {
    v.tag.Obj? && v.payload in heap && heap[v.payload].head.ObjH? && heap[v.payload].head.classId in ct &&
    name in ct[heap[v.payload].head.classId].ancestors
  }

  /** A stream that owns a descriptor: its field `hasDispose` holds true. */
  predicate OwnsDescriptor(ct: ClassTable, heap: Heap, v: Value)
    requires v.payload in heap && |heap[v.payload].kids| == Arity(heap[v.payload].head)
  {
    GetField(ct, heap[v.payload], "hasDispose").tag == Bool && GetField(ct, heap[v.payload], "hasDispose").payload != 0
  }

  /** Which values may not cross, and for which reason the first time one is met. */
  lemma RefusalMeans(ct: ClassTable, heap: Heap, v: Value, isRoot: bool)
    requires GoodHeap(ct, heap) && GoodValue(heap, v)
    ensures Refusal(ct, heap, v, isRoot).Some? <==>
              || v.tag == Block
              || (v.tag == Clo && !isRoot)
              || IsA(ct, heap, v, "Promise")
              || (exists name :: name in CARRIERS && IsA(ct, heap, v, name))
              || (IsA(ct, heap, v, "InStream") && OwnsDescriptor(ct, heap, v))
    ensures v.tag == Block ==> Refusal(ct, heap, v, isRoot) == Some(BlockValue)
    ensures v.tag == Clo && !isRoot ==> Refusal(ct, heap, v, isRoot) == Some(ClosureValue)
    ensures IsA(ct, heap, v, "Promise") ==> Refusal(ct, heap, v, isRoot) == Some(PromiseHandle(heap[v.payload].head.classId))
    ensures v.tag == Obj && !IsA(ct, heap, v, "Promise") && Refusal(ct, heap, v, isRoot).Some? ==>
              Refusal(ct, heap, v, isRoot) == Some(LoopCarrier(heap[v.payload].head.classId))
  {
    hide GetField, GoodHead;
    if v.tag == Obj {
      assert GoodNode(ct, heap[v.payload]);
      assert "TcpStream" in CARRIERS && "TcpListener" in CARRIERS && "Timer" in CARRIERS && "Process" in CARRIERS && "TcpConnector" in CARRIERS;
    }
  }

  ghost predicate RefusedAt(ct: ClassTable, heap: Heap, b: int, i: int, r: Reason) {
    b in heap && 0 <= i < |heap[b].kids| && Refusal(ct, heap, heap[b].kids[i], false) == Some(r)
  }

  /** Some value met on the walk from `v` is refused for `r`. */
  ghost predicate RefusedBelow(ct: ClassTable, heap: Heap, v: Value, isRoot: bool, r: Reason) {
    || Refusal(ct, heap, v, isRoot) == Some(r)
    || (IsRef(v.tag) && exists b, i :: Reachable(heap, v.payload, b) && RefusedAt(ct, heap, b, i, r))
  }

  /** A value with its reference renamed by `m`; a weak slot arrives as None. */
  function Moved(m: map<int, int>, v: Value): Value {
    if IsImmediate(v.tag) then v
    else if IsRef(v.tag) && v.payload in m then Value(v.tag, m[v.payload])
    else NONE
  }

  predicate Placed(m: map<int, int>, v: Value) {
    IsRef(v.tag) ==> v.payload in m
  }

  /** Record `rec` is the complete copy of node `n`. */
  ghost predicate Done(ct: ClassTable, heap: Heap, m: map<int, int>, n: Node, rec: Node) {
    && rec.head == n.head
    && |rec.kids| == |n.kids|
    && forall i :: 0 <= i < |n.kids| ==> KidDone(ct, heap, m, n.kids[i], rec.kids[i])
  }

  ghost predicate KidDone(ct: ClassTable, heap: Heap, m: map<int, int>, v: Value, fv: Value) {
    Placed(m, v) && fv == Moved(m, v) && Refusal(ct, heap, v, false).None?
  }

  ghost predicate Extends(m: map<int, int>, m': map<int, int>) {
    forall a :: a in m ==> a in m' && m'[a] == m[a]
  }

  lemma UnseenShrinks(heap: Heap, m: map<int, int>, m': map<int, int>, a: int)
    requires Extends(m, m') && a in heap && a !in m && a in m'
    ensures heap.Keys - m'.Keys < heap.Keys - m.Keys
  {
    assert a in heap.Keys - m.Keys && a !in heap.Keys - m'.Keys;
    forall x | x in heap.Keys - m'.Keys ensures x in heap.Keys - m.Keys {
      assert x !in m;
    }
  }

  /** A node not seen yet fits into a table that stays below 2^64 slots. */
  lemma RoomLeft(ct: ClassTable, heap: Heap, m: map<int, int>, a: int)
    requires GoodHeap(ct, heap) && a in heap && a !in m && forall x :: x in m ==> x in heap
    ensures a != 0 && |m| + 1 <= MOST_NODES
  {
    forall x | x in m.Keys ensures x in heap.Keys {}
    SubsetSize(m.Keys + {a}, heap.Keys);
  }

  lemma SubsetSize(s: set<int>, t: set<int>)
    requires s <= t
    ensures |s| <= |t|
  {
    assert s + (t - s) == t && s * (t - s) == {};
  }

  /** The buffer holds exactly the records `recs`, disjoint, aligned and in order. */
  ghost predicate Layout(cells: seq<Cell>, recs: seq<Node>, starts: seq<nat>) {
    && |starts| == |recs|
    && HEADER_CELLS <= |cells| && |cells| % 2 == 0
    && (forall k :: 0 <= k < |recs| ==> starts[k] % 2 == 0 && HEADER_CELLS <= starts[k])
    && (forall k :: 0 <= k < |recs| ==> RecAt(cells, starts[k], recs[k]))
    && (forall j, k :: 0 <= j < k < |recs| ==> starts[j] + RecCells(recs[j].head) <= starts[k])
  }

  /** Record k copies node `order[k]` and `seen` names its byte offset. */
  ghost predicate Indexed(heap: Heap, seen: map<int, int>, order: seq<int>, recs: seq<Node>, starts: seq<nat>) {
    && |order| == |recs| == |starts|
    && Distinct(order)
    && (forall k :: 0 <= k < |order| ==> order[k] in heap && order[k] in seen && seen[order[k]] == 8 * starts[k])
    && (forall a :: a in seen ==> a in order)
    && (forall k :: 0 <= k < |order| ==> recs[k].head == heap[order[k]].head && |recs[k].kids| == |heap[order[k]].kids|)
  }

  lemma LayoutAppend(cells: seq<Cell>, recs: seq<Node>, starts: seq<nat>, n: Node)
    requires Layout(cells, recs, starts) && |n.kids| == Arity(n.head)
    ensures Layout(cells + Image(n), recs + [n], starts + [|cells|])
  {
    var cells' := cells + Image(n);
    forall k | 0 <= k < |recs| ensures RecAt(cells', starts[k], recs[k]) {
      assert RecAt(cells, starts[k], recs[k]);
    }
    forall j: nat {:trigger CellAt(n, j)} | j < RecCells(n.head) ensures cells'[|cells| + j] == CellAt(n, j) {
      assert Image(n)[0 + j] == CellAt(n, j);
    }
  }

  /** Storing a kid in place rewrites its own record and disturbs no other. */
  lemma LayoutPut(cells: seq<Cell>, recs: seq<Node>, starts: seq<nat>, k: nat, i: nat, v: Value)
    requires Layout(cells, recs, starts) && k < |recs| && i < |recs[k].kids|
    ensures i < Arity(recs[k].head)
    ensures var p := starts[k] + KidCell(recs[k].head, i);
            p + 1 < |cells| &&
            Layout(cells[p := W(TagCode(v.tag))][p + 1 := W(v.payload)],
                   recs[k := recs[k].(kids := recs[k].kids[i := v])], starts)
  {
    var n := recs[k];
    var m := n.(kids := n.kids[i := v]);
    var recs' := recs[k := m];
    assert RecAt(cells, starts[k], n);
    KidCellInside(n.head, i);
    var p := starts[k] + KidCell(n.head, i);
    var cells' := cells[p := W(TagCode(v.tag))][p + 1 := W(v.payload)];
    forall j: nat {:trigger CellAt(m, j)} | j < RecCells(m.head) ensures cells'[starts[k] + j] == CellAt(m, j) {
      KidWrite(n, i, v, j);
      assert cells[starts[k] + j] == CellAt(n, j);
    }
    assert RecAt(cells', starts[k], m);
    forall q | 0 <= q < |recs'| ensures RecAt(cells', starts[q], recs'[q]) {
      if q != k {
        assert RecAt(cells, starts[q], recs[q]);
        forall j: nat {:trigger CellAt(recs[q], j)} | j < RecCells(recs[q].head)
          ensures cells'[starts[q] + j] == CellAt(recs[q], j)
        {
          assert cells[starts[q] + j] == CellAt(recs[q], j);
        }
      }
    }
  }

  lemma IndexedPut(heap: Heap, seen: map<int, int>, order: seq<int>, recs: seq<Node>, starts: seq<nat>, k: nat, i: nat, v: Value)
    requires Indexed(heap, seen, order, recs, starts) && k < |recs| && i < |recs[k].kids|
    ensures |starts| == |recs|
    ensures Indexed(heap, seen, order, recs[k := recs[k].(kids := recs[k].kids[i := v])], starts)
  {
    hide Distinct;
  }

  /** Record `k` belongs to node `a` and holds its first `i` kids; all later records are complete. */
  ghost predicate Open(ct: ClassTable, heap: Heap, m: map<int, int>, order: seq<int>, recs: seq<Node>, a: int, k: nat, i: nat) {
    && k < |recs| == |order| && order[k] == a && a in heap && i <= |recs[k].kids| == |heap[a].kids|
    && (forall j :: 0 <= j < i ==> KidDone(ct, heap, m, heap[a].kids[j], recs[k].kids[j]))
    && AllDone(ct, heap, m, order, recs, k + 1)
  }

  ghost predicate AllDone(ct: ClassTable, heap: Heap, m: map<int, int>, order: seq<int>, recs: seq<Node>, lo: nat) {
    |order| == |recs| &&
    forall k :: lo <= k < |recs| ==> order[k] in heap && Done(ct, heap, m, heap[order[k]], recs[k])
  }

  lemma DoneExtends(ct: ClassTable, heap: Heap, m: map<int, int>, m': map<int, int>, n: Node, rec: Node)
    requires Done(ct, heap, m, n, rec) && Extends(m, m')
    ensures Done(ct, heap, m', n, rec)
  {
    forall i | 0 <= i < |n.kids| ensures KidDone(ct, heap, m', n.kids[i], rec.kids[i]) {
      assert KidDone(ct, heap, m, n.kids[i], rec.kids[i]);
    }
  }

  /** An open record stays open while records are added behind it. */
  lemma OpenExtends(ct: ClassTable, heap: Heap, m: map<int, int>, order: seq<int>, recs: seq<Node>,
                    m': map<int, int>, order': seq<int>, recs': seq<Node>, a: int, k: nat, i: nat)
    requires Open(ct, heap, m, order, recs, a, k, i)
    requires order <= order' && recs <= recs' && Extends(m, m') && AllDone(ct, heap, m', order', recs', |recs|)
    ensures Open(ct, heap, m', order', recs', a, k, i)
  {
    hide Done;
    forall q | k + 1 <= q < |recs'| ensures order'[q] in heap && Done(ct, heap, m', heap[order'[q]], recs'[q]) {
      if q < |recs| { DoneExtends(ct, heap, m, m', heap[order[q]], recs[q]); }
    }
  }

  lemma OpenPut(ct: ClassTable, heap: Heap, m: map<int, int>, order: seq<int>, recs: seq<Node>, a: int, k: nat, i: nat, fv: Value)
    requires Open(ct, heap, m, order, recs, a, k, i) && i < |recs[k].kids|
    requires KidDone(ct, heap, m, heap[a].kids[i], fv)
    ensures Open(ct, heap, m, order, recs[k := recs[k].(kids := recs[k].kids[i := fv])], a, k, i + 1)
  {
    hide Done;
    hide KidDone;
  }

  lemma IndexedSize(heap: Heap, seen: map<int, int>, order: seq<int>, recs: seq<Node>, starts: seq<nat>)
    requires Indexed(heap, seen, order, recs, starts)
    ensures |order| == |recs| == |starts|
  {
    hide Distinct;
  }

  lemma IndexedAt(heap: Heap, seen: map<int, int>, order: seq<int>, recs: seq<Node>, starts: seq<nat>, k: nat)
    requires Indexed(heap, seen, order, recs, starts) && k < |recs|
    ensures k < |order| && order[k] in heap && recs[k].head == heap[order[k]].head && |recs[k].kids| == |heap[order[k]].kids|
  {
    hide Distinct;
  }

  lemma OpenNew(ct: ClassTable, heap: Heap, m: map<int, int>, order: seq<int>, recs: seq<Node>, a: int)
    requires |order| == |recs| > 0 && order[|order| - 1] == a && a in heap && |recs[|recs| - 1].kids| == |heap[a].kids|
    ensures Open(ct, heap, m, order, recs, a, |recs| - 1, 0)
  {
    hide Done;
  }

  lemma OpenSize(ct: ClassTable, heap: Heap, m: map<int, int>, order: seq<int>, recs: seq<Node>, a: int, k: nat, i: nat)
    requires Open(ct, heap, m, order, recs, a, k, i)
    ensures k < |recs| == |order| && order[k] == a && a in heap && |recs[k].kids| == |heap[a].kids|
  {
    hide Done, KidDone;
  }

  /** A record with all its kids in place is complete, and so is every later one. */
  lemma OpenEnd(ct: ClassTable, heap: Heap, m: map<int, int>, order: seq<int>, recs: seq<Node>, a: int, k: nat)
    requires a in heap && Open(ct, heap, m, order, recs, a, k, |heap[a].kids|) && recs[k].head == heap[a].head
    ensures AllDone(ct, heap, m, order, recs, k)
  {
    hide KidDone;
    assert Done(ct, heap, m, heap[a], recs[k]);
    hide Done;
  }

  class Flattener {
    const ct: ClassTable
    const heap: Heap
    var cells: seq<Cell>
    const table: SeenTable.Table<int>
    ghost var seen: map<int, int>
    var err: Option<Reason>
    ghost var order: seq<int>
    ghost var recs: seq<Node>
    ghost var starts: seq<nat>

    ghost predicate Valid()
      reads this, table
    {
      && GoodHeap(ct, heap) && Layout(cells, recs, starts) && Indexed(heap, seen, order, recs, starts)
      && Tabled()
    }

    /** The table stands for `seen`; a free slot is marked 0, which is no address. */
    ghost predicate Tabled()
      reads this`seen, table
    {
      table.Valid() && table.empty == 0 && table.m == seen
    }

    /** Records from index `lo` on are complete copies. */
    ghost predicate DoneFrom(lo: nat)
      reads this, table
      requires Valid()
    {
      AllDone(ct, heap, seen, order, recs, lo)
    }

    constructor (ct: ClassTable, heap: Heap)
      requires GoodHeap(ct, heap)
      ensures Valid() && this.ct == ct && this.heap == heap && fresh(table)
      ensures order == [] && err.None?
    {
      this.ct, this.heap := ct, heap;
      table := new SeenTable.Table<int>(0, 0);
      cells, seen, err := [W(0), W(0), W(0), W(0)], map[], Option.None;
      order, recs, starts := [], [], [];
    }

    /** Reserve an aligned zeroed record for node `a` and remember its offset. */
    method NewRecord(a: int)
      requires Valid() && a in heap && a !in seen
      modifies this, table
      ensures Valid() && err == old(err)
      ensures order == old(order) + [a]
      ensures recs == old(recs) + [Blank(heap[a].head)]
      ensures starts == old(starts) + [|old(cells)|]
      ensures seen == old(seen)[a := 8 * |old(cells)|]
    {
      hide Layout, SeenTable.Means, SeenTable.PowerOfTwo;
      var n := Blank(heap[a].head);
      LayoutAppend(cells, recs, starts, n);
      RoomLeft(ct, heap, seen, a);
      table.Put(a, 8 * |cells|);
      seen := seen[a := 8 * |cells|];
      order, recs, starts := order + [a], recs + [n], starts + [|cells|];
      cells := cells + Image(n);
    }

    method PutKid(start: nat, ghost k: nat, head: Head, i: nat, v: Value)
      requires Valid() && k < |recs| && start == starts[k] && head == recs[k].head && i < |recs[k].kids|
      modifies this`cells, this`recs
      ensures Valid()
      ensures recs == old(recs)[k := old(recs)[k].(kids := old(recs)[k].kids[i := v])]
    {
      hide Layout, KidCell, GoodHeap, Indexed, RecAt, Tabled;
      IndexedPut(heap, seen, order, recs, starts, k, i, v);
      LayoutPut(cells, recs, starts, k, i, v);
      var p := start + KidCell(head, i);
      cells := cells[p := W(TagCode(v.tag))][p + 1 := W(v.payload)];
      recs := recs[k := recs[k].(kids := recs[k].kids[i := v])];
    }

    /** Node `a` has record `k`, whose first `i` kids are in place; all later records are complete. */
    ghost predicate OpenAt(a: int, k: nat, i: nat)
      reads this, table
      requires Valid()
    {
      Open(ct, heap, seen, order, recs, a, k, i)
    }

    /**
     Flattens `v`. On success the result is `v` moved to its record, every record
     added by the call is complete, and every added node is reachable from `v`;
     on failure some value on the walk is refused. Nothing added before is touched.
     */
    method Flatten(v: Value, isRoot: bool) returns (fv: Value)
      requires Valid() && GoodValue(heap, v) && err.None?
      modifies this, table
      ensures Valid()
      ensures old(order) <= order && old(recs) <= recs && old(starts) <= starts
      ensures Extends(old(seen), seen)
      ensures err.None? ==> Placed(seen, v) && fv == Moved(seen, v) && Refusal(ct, heap, v, isRoot).None?
      ensures err.None? ==> DoneFrom(|old(recs)|)
      ensures |old(order)| < |order| ==> IsRef(v.tag)
      ensures forall k :: |old(order)| <= k < |order| ==> Reachable(heap, v.payload, order[k])
      ensures err.Some? ==> RefusedBelow(ct, heap, v, isRoot, err.value)
      decreases heap.Keys - seen.Keys, 1
    {
      hide Layout, SeenTable.Means, SeenTable.PowerOfTwo;
      fv := v;
      if IsImmediate(v.tag) { return; }
      if v.tag.WeakProxy? { return NONE; }
      err := Refusal(ct, heap, v, isRoot);
      if err.Some? { return; }
      var found, off := table.Get(v.payload);
      if found { return Value(v.tag, off); }
      var start := |cells|;
      FlattenNode(v.payload);
      fv := Value(v.tag, 8 * start);
      if err.Some? { RefusedUp(v, isRoot, err.value); }
    }

    /** Gives node `a` a record and walks its kids. */
    method FlattenNode(a: int)
      requires Valid() && a in heap && a !in seen && err.None?
      modifies this, table
      ensures Valid()
      ensures old(order) <= order && old(recs) <= recs && old(starts) <= starts
      ensures Extends(old(seen), seen) && a in seen && seen[a] == 8 * |old(cells)|
      ensures err.None? ==> DoneFrom(|old(recs)|)
      ensures forall k :: |old(order)| <= k < |order| ==> Reachable(heap, a, order[k])
      ensures err.Some? ==> RefusedKid(a, err.value)
      decreases heap.Keys - seen.Keys, 0
    {
      hide Layout, KidDone, Reachable, Distinct, GoodHeap, Tabled, Indexed, Open;
      var start := |cells|;
      IndexedSize(heap, seen, order, recs, starts);
      NewRecord(a);
      IndexedAt(heap, seen, order, recs, starts, |old(recs)|);
      OpenNew(ct, heap, seen, order, recs, a);
      ghost var k := |old(recs)|;
      ReachableSelf(heap, a);
      for i := 0 to |heap[a].kids|
        invariant Valid() && err.None? && OpenAt(a, k, i)
        invariant k < |recs| && old(order) + [a] <= order && old(starts) + [start] <= starts && old(recs) == recs[..k]
        invariant Extends(old(seen), seen) && a in seen && seen[a] == 8 * start
        invariant forall q :: k <= q < |order| ==> Reachable(heap, a, order[q])
      {
        UnseenShrinks(heap, old(seen), seen, a);
        OpenSize(ct, heap, seen, order, recs, a, k, i);
        IndexedSize(heap, seen, order, recs, starts);
        FlattenKid(a, start, k, i);
        if err.Some? { return; }
      }
      OpenSize(ct, heap, seen, order, recs, a, k, |heap[a].kids|);
      IndexedAt(heap, seen, order, recs, starts, k);
      OpenEnd(ct, heap, seen, order, recs, a, k);
    }

    /** Some kid of node `a` leads to a refusal. */
    ghost predicate RefusedKid(a: int, r: Reason)
      requires a in heap
    {
      exists i :: 0 <= i < |heap[a].kids| && RefusedBelow(ct, heap, heap[a].kids[i], false, r)
    }

    /** One round of the walk over the kids of node `a`. */
    method FlattenKid(a: int, start: nat, ghost k: nat, i: nat)
      requires Valid() && err.None? && OpenAt(a, k, i) && start == starts[k] && i < |heap[a].kids|
      modifies this, table
      ensures Valid()
      ensures old(order) <= order && old(starts) <= starts && k < |old(recs)| <= |recs| && old(recs)[..k] == recs[..k]
      ensures Extends(old(seen), seen)
      ensures err.None? ==> OpenAt(a, k, i + 1)
      ensures forall q :: |old(order)| <= q < |order| ==> Reachable(heap, a, order[q])
      ensures err.Some? ==> RefusedBelow(ct, heap, heap[a].kids[i], false, err.value)
      decreases heap.Keys - seen.Keys, 2
    {
      var kid := heap[a].kids[i];
      OpenSize(ct, heap, seen, order, recs, a, k, i);
      assert GoodValue(heap, kid);
      hide Layout, Reachable, Distinct, Refusal, RefusedBelow, GoodHeap, GoodValue, Done, AllDone, Open, Tabled, Indexed;
      IndexedSize(heap, seen, order, recs, starts);
      ghost var m, o, r := seen, order, recs;
      var kf := Flatten(kid, false);
      IndexedSize(heap, seen, order, recs, starts);
      assert err.None? ==> KidDone(ct, heap, seen, kid, kf);
      hide KidDone, Placed, Moved;
      forall q | |old(order)| <= q < |order| ensures Reachable(heap, a, order[q]) {
        assert Reachable(heap, kid.payload, order[q]);
        EdgeAt(heap, a, i);
        ReachableStep(heap, a, kid.payload, order[q]);
      }
      if err.None? {
        OpenExtends(ct, heap, m, o, r, seen, order, recs, a, k, i);
        OpenPut(ct, heap, seen, order, recs, a, k, i, kf);
        PutKid(start, k, heap[a].head, i, kf);
      }
    }

    lemma RefusedUp(v: Value, isRoot: bool, r: Reason)
      requires IsRef(v.tag) && v.payload in heap && RefusedKid(v.payload, r)
      ensures RefusedBelow(ct, heap, v, isRoot, r)
    {
      var i :| 0 <= i < |heap[v.payload].kids| && RefusedBelow(ct, heap, heap[v.payload].kids[i], false, r);
      var kid := heap[v.payload].kids[i];
      if Refusal(ct, heap, kid, false) == Some(r) {
        ReachableSelf(heap, v.payload);
        assert RefusedAt(ct, heap, v.payload, i, r);
      } else {
        var b, j :| Reachable(heap, kid.payload, b) && RefusedAt(ct, heap, b, j, r);
        EdgeAt(heap, v.payload, i);
        ReachableStep(heap, v.payload, kid.payload, b);
      }
    }
  }
}
