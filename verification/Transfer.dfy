/**
 Flatten followed by rebuild: the copy of a value graph into another thread's heap.
 The results of the two walks compose into a graph isomorphism with exact
 reference counts, and a transfer fails exactly when some value met on the walk
 may not cross.
 */
module Transfer {
  import opened Util
  import opened Values
  import opened FlatBuffer
  import opened Flatten
  import opened Rebuild

  /** The copy of node `n` under the renaming `m`: dynamic entries come out in reverse order. */
  function Copy(n: Node, m: map<int, int>): Node
    requires |n.kids| == Arity(n.head)
  {
    PartNode(n, m, |n.kids|)
  }

  ghost predicate Hits(m: map<int, int>, x: int) {
    exists a :: a in m && m[a] == x
  }

  /**
   `nodes` is an isomorphic copy of the part of `heap` reachable from `v`: `phi` maps the
   reachable nodes one-to-one onto the new nodes, every new node is the copy of its
   original with all references renamed by `phi`, and `out` is the renamed root.
   */
  ghost predicate Isomorphic(ct: ClassTable, heap: Heap, v: Value, nodes: seq<Node>, out: Value, phi: map<int, int>) {
    && (forall a :: a in phi <==> a in heap && IsRef(v.tag) && Reachable(heap, v.payload, a))
    && (forall a :: a in phi ==> 0 <= phi[a] < |nodes|)
    && (forall a, b :: a in phi && b in phi && phi[a] == phi[b] ==> a == b)
    && (forall x :: 0 <= x < |nodes| ==> Hits(phi, x))
    && (forall a :: a in phi ==> |heap[a].kids| == Arity(heap[a].head) && nodes[phi[a]] == Copy(heap[a], phi))
    && out == Moved(phi, v)
  }

  /** Every counted node is owned once per slot that refers to it, the root once more. */
  ghost predicate OwnedOnce(ct: ClassTable, nodes: seq<Node>, rc: seq<nat>, out: Value) {
    && |rc| == |nodes|
    && forall x :: 0 <= x < |nodes| ==>
         rc[x] == if IsStruct(ct, nodes[x]) then 0 else AllKids(nodes)[RefTo(nodes, x)] + (if out == RefTo(nodes, x) then 1 else 0)
  }

  /** An instance of a value class. */
  predicate IsStruct(ct: ClassTable, n: Node) {
    n.head.ObjH? && n.head.classId in ct && ct[n.head.classId].isValue
  }

  /** Reading any field or capture of the copy gives the copy of what the original holds. */
  lemma CopyLookup(ct: ClassTable, n: Node, m: map<int, int>, key: Key)
    requires GoodNode(ct, n)
    ensures |Copy(n, m).kids| == Arity(Copy(n, m).head)
    ensures GetField(ct, Copy(n, m), key) == Moved(m, GetField(ct, n, key))
  {
    hide PartNode, MovedAll, Moved, FindKey, FindSlot, Reversed, Copy, Arity, GoodHead;
    var p, keys := Positional(n.head), Keys(n.head);
    var c := Copy(n, m);
    CopyShape(ct, n, m);
    SameSlot(ct, n.head, Reversed(keys), key);
    if FindSlot(ct, n.head, key) < p {
      CopySlot(ct, n, m, FindSlot(ct, n.head, key));
    } else {
      ReversedFind(keys, key);
      if FindKey(keys, key) < |keys| { CopyEntry(ct, n, m, FindKey(keys, key)); } else { VoidStays(m); }
    }
  }

  /** The copy has the original's slots and its list in reverse. */
  lemma CopyShape(ct: ClassTable, n: Node, m: map<int, int>)
    requires GoodNode(ct, n)
    ensures var c, p, keys := Copy(n, m), Positional(n.head), Keys(n.head);
            && c.head == WithKeys(n.head, Reversed(keys)) && |c.kids| == Arity(c.head) == p + |keys| == |n.kids|
            && Positional(c.head) == p && Keys(c.head) == Reversed(keys) && Distinct(keys)
            && c.kids[..p] == MovedAll(m, n.kids[..p]) && c.kids[p..] == Reversed(MovedAll(m, n.kids[p..]))
  {
    hide PartNode, MovedAll, Moved, Reversed;
    var p, keys := Positional(n.head), Keys(n.head);
    KeyedPart(n, m, |n.kids|);
    assert keys[..|keys|] == keys && n.kids[p..|n.kids|] == n.kids[p..];
  }

  lemma CopySlot(ct: ClassTable, n: Node, m: map<int, int>, s: nat)
    requires GoodNode(ct, n) && s < Positional(n.head)
    ensures s < |Copy(n, m).kids| && s < |n.kids| && Copy(n, m).kids[s] == Moved(m, n.kids[s])
  {
    CopyShape(ct, n, m);
    hide Copy, MovedAll, Moved, Reversed, GoodHead;
    var p, c := Positional(n.head), Copy(n, m);
    MovedAllAt(m, n.kids[..p], s);
    assert c.kids[..p][s] == c.kids[s];
  }

  lemma CopyEntry(ct: ClassTable, n: Node, m: map<int, int>, i: nat)
    requires GoodNode(ct, n) && i < |Keys(n.head)|
    ensures var p, l := Positional(n.head), |Keys(n.head)|;
            p + l == |Copy(n, m).kids| == |n.kids| && Copy(n, m).kids[p + (l - 1 - i)] == Moved(m, n.kids[p + i])
  {
    hide Copy, MovedAll, Moved, Reversed, GoodNode, Positional, Keys;
    CopyTail(ct, n, m);
    MirroredAt(n.kids, Copy(n, m).kids, Positional(n.head), |Keys(n.head)|, i, m);
  }

  lemma CopyTail(ct: ClassTable, n: Node, m: map<int, int>)
    requires GoodNode(ct, n)
    ensures var p := Positional(n.head);
            |Copy(n, m).kids| == |n.kids| == p + |Keys(n.head)| && Copy(n, m).kids[p..] == Reversed(MovedAll(m, n.kids[p..]))
  {
    hide Copy, MovedAll, Moved, Reversed, GoodNode, Positional, Keys;
    CopyShape(ct, n, m);
  }

  lemma MirroredAt(kids: seq<Value>, copy: seq<Value>, p: nat, l: nat, i: nat, m: map<int, int>)
    requires |kids| == |copy| == p + l && i < l && copy[p..] == Reversed(MovedAll(m, kids[p..]))
    ensures copy[p + (l - 1 - i)] == Moved(m, kids[p + i])
  {
    hide MovedAll, Moved, Reversed;
    MovedAllAt(m, kids[p..], i);
    ReversedAt(MovedAll(m, kids[p..]), l - 1 - i);
    assert copy[p..][l - 1 - i] == copy[p + (l - 1 - i)];
  }

  lemma VoidStays(m: map<int, int>)
    ensures Moved(m, VOID) == VOID
  {}

  lemma SameSlot(ct: ClassTable, h: Head, keys: seq<Key>, key: Key)
    ensures FindSlot(ct, WithKeys(h, keys), key) == FindSlot(ct, h, key)
    ensures Positional(WithKeys(h, keys)) == Positional(h)
    ensures (h.ObjH? || h.CloH?) ==> Keys(WithKeys(h, keys)) == keys
  {}

  lemma MovedAllAt(m: map<int, int>, s: seq<Value>, i: nat)
    requires i < |s|
    ensures MovedAll(m, s)[i] == Moved(m, s[i])
  {}

  lemma ReversedAt<T>(s: seq<T>, i: nat)
    requires i < |s|
    ensures Reversed(s)[i] == s[|s| - 1 - i]
  {}

  lemma ReversedFind(keys: seq<Key>, key: Key)
    requires Distinct(keys)
    ensures var i, i' := FindKey(keys, key), FindKey(Reversed(keys), key);
            if i < |keys| then i' == |keys| - 1 - i else i' == |keys|
  {
    var i, i' := FindKey(keys, key), FindKey(Reversed(keys), key);
    if i < |keys| {
      assert Reversed(keys)[|keys| - 1 - i] == key;
    }
    if i' < |keys| {
      assert Reversed(keys)[i'] == keys[|keys| - 1 - i'];
    }
  }

  // ------------------------------------------------------------------ flatten

  /** The result of a successful flatten of `v`. */
  ghost predicate Flat(ct: ClassTable, heap: Heap, v: Value, buf: seq<Cell>, seen: map<int, int>,
                       order: seq<int>, recs: seq<Node>, starts: seq<nat>) {
    && Layout(buf, recs, starts) && Indexed(heap, seen, order, recs, starts)
    && (forall k :: 0 <= k < |recs| ==> Done(ct, heap, seen, heap[order[k]], recs[k]))
    && (order != [] ==> IsRef(v.tag))
    && (forall k :: 0 <= k < |order| ==> Reachable(heap, v.payload, order[k]))
    && Placed(seen, v)
    && buf[0] == W(8 * |buf|) && buf[1] == W(TagCode(Moved(seen, v).tag)) && buf[2] == W(Moved(seen, v).payload)
  }

  lemma LayoutHeader(cells: seq<Cell>, recs: seq<Node>, starts: seq<nat>, j: nat, w: int)
    requires Layout(cells, recs, starts) && j < HEADER_CELLS
    ensures Layout(cells[j := W(w)], recs, starts)
  {
    forall k | 0 <= k < |recs| ensures RecAt(cells[j := W(w)], starts[k], recs[k]) {
      assert RecAt(cells, starts[k], recs[k]);
      forall i: nat {:trigger CellAt(recs[k], i)} | i < RecCells(recs[k].head)
        ensures cells[j := W(w)][starts[k] + i] == CellAt(recs[k], i)
      {
        assert cells[starts[k] + i] == CellAt(recs[k], i);
      }
    }
  }

  /** Flattened nodes are closed under references, so they are all the reachable ones. */
  lemma FlatCoversReachable(ct: ClassTable, heap: Heap, v: Value, buf: seq<Cell>, seen: map<int, int>,
                            order: seq<int>, recs: seq<Node>, starts: seq<nat>, b: int)
    requires Flat(ct, heap, v, buf, seen, order, recs, starts)
    requires IsRef(v.tag) && Reachable(heap, v.payload, b)
    ensures b in seen && forall i :: 0 <= i < |heap[b].kids| ==> Refusal(ct, heap, heap[b].kids[i], false).None?
  {
    hide Layout;
    forall x, y | x in seen.Keys && Edge(heap, x, y) ensures y in seen.Keys {
      var i :| 0 <= i < |heap[x].kids| && IsRef(heap[x].kids[i].tag) && heap[x].kids[i].payload == y;
      var k :| 0 <= k < |order| && order[k] == x;
      assert Done(ct, heap, seen, heap[x], recs[k]);
      assert KidDone(ct, heap, seen, heap[x].kids[i], recs[k].kids[i]);
    }
    ReachableInClosed(heap, seen.Keys, v.payload, b);
    var k :| 0 <= k < |order| && order[k] == b;
    forall i | 0 <= i < |heap[b].kids| ensures Refusal(ct, heap, heap[b].kids[i], false).None? {
      assert KidDone(ct, heap, seen, heap[b].kids[i], recs[k].kids[i]);
    }
  }

  /** Flattens `v` into a self-contained buffer, or reports the value that may not cross. */
  method ThreadFlatten(ct: ClassTable, heap: Heap, v: Value)
    returns (buf: seq<Cell>, err: Option<Reason>, ghost seen: map<int, int>, ghost order: seq<int>, ghost recs: seq<Node>, ghost starts: seq<nat>)
    requires GoodHeap(ct, heap) && GoodValue(heap, v)
    ensures err.None? ==> Flat(ct, heap, v, buf, seen, order, recs, starts)
    ensures err.None? <==> forall r :: !RefusedBelow(ct, heap, v, true, r)
    ensures err.Some? ==> RefusedBelow(ct, heap, v, true, err.value)
  {
    hide Layout, RefusedBelow, Done, Distinct, Refusal;
    var f := new Flattener(ct, heap);
    var root := f.Flatten(v, true);
    buf, err, seen, order, recs, starts := f.cells, f.err, f.seen, f.order, f.recs, f.starts;
    if err.None? {
      LayoutSize(buf, recs, starts);
      LayoutHeader(buf, recs, starts, 0, 8 * |buf|);
      buf := buf[0 := W(8 * |buf|)];
      LayoutHeader(buf, recs, starts, 1, TagCode(root.tag));
      buf := buf[1 := W(TagCode(root.tag))];
      LayoutHeader(buf, recs, starts, 2, root.payload);
      buf := buf[2 := W(root.payload)];
      assert Flat(ct, heap, v, buf, seen, order, recs, starts);
      forall r ensures !RefusedBelow(ct, heap, v, true, r) {
        NoneRefused(ct, heap, v, buf, seen, order, recs, starts, r);
      }
    }
  }

  lemma LayoutSize(cells: seq<Cell>, recs: seq<Node>, starts: seq<nat>)
    requires Layout(cells, recs, starts)
    ensures HEADER_CELLS <= |cells|
  {}

  lemma NoneRefused(ct: ClassTable, heap: Heap, v: Value, buf: seq<Cell>, seen: map<int, int>,
                    order: seq<int>, recs: seq<Node>, starts: seq<nat>, r: Reason)
    requires Flat(ct, heap, v, buf, seen, order, recs, starts) && Refusal(ct, heap, v, true).None?
    ensures !RefusedBelow(ct, heap, v, true, r)
  {
    hide Flat, Refusal;
    if RefusedBelow(ct, heap, v, true, r) {
      var b, i :| Reachable(heap, v.payload, b) && RefusedAt(ct, heap, b, i, r);
      FlatCoversReachable(ct, heap, v, buf, seen, order, recs, starts, b);
    }
  }

  // ------------------------------------------------------------------ rebuild

  ghost function Index(buf: seq<Cell>, recs: seq<Node>, starts: seq<nat>): (index: map<int, nat>)
    requires Layout(buf, recs, starts)
    ensures forall off :: off in index ==> index[off] < |recs| && off == 8 * starts[index[off]]
    ensures forall k :: 0 <= k < |recs| ==> 8 * starts[k] in index && index[8 * starts[k]] == k
  {
    StartsInjective(buf, recs, starts);
    hide Layout;
    var offs := set k: nat | k < |recs| :: 8 * starts[k];
    map off | off in offs :: IndexOf(recs, starts, off)
  }

  ghost function IndexOf(recs: seq<Node>, starts: seq<nat>, off: int): (k: nat)
    requires |starts| == |recs| && exists k: nat :: k < |recs| && off == 8 * starts[k]
    ensures k < |recs| && off == 8 * starts[k]
  {
    var k: nat :| k < |recs| && off == 8 * starts[k];
    k
  }

  lemma StartsInjective(buf: seq<Cell>, recs: seq<Node>, starts: seq<nat>)
    requires Layout(buf, recs, starts)
    ensures |starts| == |recs| && forall i, k :: 0 <= i < |recs| && 0 <= k < |recs| && starts[i] == starts[k] ==> i == k
  {
    hide RecAt;
  }

  /** A flattened buffer meets everything rebuild relies on. */
  lemma FlatIsSource(ct: ClassTable, heap: Heap, v: Value, buf: seq<Cell>, seen: map<int, int>,
                     order: seq<int>, recs: seq<Node>, starts: seq<nat>)
    requires GoodHeap(ct, heap) && Flat(ct, heap, v, buf, seen, order, recs, starts)
    ensures Source(ct, buf, recs, starts, Index(buf, recs, starts))
  {
    var index := Index(buf, recs, starts);
    IndexSize(ct, heap, v, buf, seen, order, recs, starts);
    FlatNodes(ct, heap, v, buf, seen, order, recs, starts);
    forall k, i | 0 <= k < |recs| && 0 <= i < |recs[k].kids| ensures GoodFv(recs, index, recs[k].kids[i]) {
      FlatKid(ct, heap, v, buf, seen, order, recs, starts, k, i);
    }
    hide Layout, Reachable, GoodHeap, GoodFv, GoodNode, Done, Indexed;
  }

  lemma FlatNodes(ct: ClassTable, heap: Heap, v: Value, buf: seq<Cell>, seen: map<int, int>,
                  order: seq<int>, recs: seq<Node>, starts: seq<nat>)
    requires GoodHeap(ct, heap) && Flat(ct, heap, v, buf, seen, order, recs, starts)
    ensures forall k :: 0 <= k < |recs| ==> GoodNode(ct, recs[k])
  {
    hide Layout, Reachable, GoodHead, Done;
    forall k | 0 <= k < |recs| ensures GoodNode(ct, recs[k]) {
      assert GoodNode(ct, heap[order[k]]);
    }
  }

  lemma FlatKid(ct: ClassTable, heap: Heap, v: Value, buf: seq<Cell>, seen: map<int, int>,
                order: seq<int>, recs: seq<Node>, starts: seq<nat>, k: nat, i: nat)
    requires GoodHeap(ct, heap) && Flat(ct, heap, v, buf, seen, order, recs, starts) && k < |recs| && i < |recs[k].kids|
    ensures GoodFv(recs, Index(buf, recs, starts), recs[k].kids[i])
  {
    hide Layout, Reachable, GoodHead, GoodFv;
    var n := heap[order[k]];
    assert Done(ct, heap, seen, n, recs[k]);
    assert KidDone(ct, heap, seen, n.kids[i], recs[k].kids[i]);
    assert GoodValue(heap, n.kids[i]);
    FlatValue(ct, heap, v, buf, seen, order, recs, starts, n.kids[i]);
  }

  lemma IndexSize(ct: ClassTable, heap: Heap, v: Value, buf: seq<Cell>, seen: map<int, int>,
                  order: seq<int>, recs: seq<Node>, starts: seq<nat>)
    requires GoodHeap(ct, heap) && Flat(ct, heap, v, buf, seen, order, recs, starts)
    ensures |Index(buf, recs, starts)| <= MOST_NODES
  {
    hide Layout, Reachable, GoodHead, Done;
    var index := Index(buf, recs, starts);
    forall off | off in index ensures off in OffsetSet(starts, |starts|) {
      OffsetIn(starts, |starts|, index[off]);
    }
    SubsetSize(index.Keys, OffsetSet(starts, |starts|));
    OrderSize(order, |order|);
    OrderInside(order, |order|, heap.Keys);
    SubsetSize(OrderSet(order, |order|), heap.Keys);
  }

  function OffsetSet(starts: seq<nat>, n: nat): (s: set<int>)
    requires n <= |starts|
    ensures |s| <= n
  {
    if n == 0 then {} else OffsetSet(starts, n - 1) + {8 * starts[n - 1]}
  }

  lemma {:induction false} OffsetIn(starts: seq<nat>, n: nat, k: nat)
    requires k < n <= |starts|
    ensures 8 * starts[k] in OffsetSet(starts, n)
    decreases n
  {
    if k < n - 1 { OffsetIn(starts, n - 1, k); }
  }

  function OrderSet(order: seq<int>, n: nat): set<int>
    requires n <= |order|
  {
    if n == 0 then {} else OrderSet(order, n - 1) + {order[n - 1]}
  }

  lemma {:induction false} OrderInside(order: seq<int>, n: nat, s: set<int>)
    requires n <= |order| && forall k :: 0 <= k < n ==> order[k] in s
    ensures OrderSet(order, n) <= s
  {
    if n > 0 { OrderInside(order, n - 1, s); }
  }

  lemma {:induction false} OrderMisses(order: seq<int>, n: nat, x: int)
    requires n <= |order| && forall k :: 0 <= k < n ==> order[k] != x
    ensures x !in OrderSet(order, n)
  {
    if n > 0 { OrderMisses(order, n - 1, x); }
  }

  lemma {:induction false} OrderSize(order: seq<int>, n: nat)
    requires n <= |order| && Distinct(order)
    ensures |OrderSet(order, n)| == n
  {
    if n > 0 {
      OrderSize(order, n - 1);
      OrderMisses(order, n - 1, order[n - 1]);
    }
  }

  lemma FlatValue(ct: ClassTable, heap: Heap, v: Value, buf: seq<Cell>, seen: map<int, int>,
                  order: seq<int>, recs: seq<Node>, starts: seq<nat>, x: Value)
    requires GoodHeap(ct, heap) && Flat(ct, heap, v, buf, seen, order, recs, starts)
    requires Placed(seen, x) && GoodValue(heap, x)
    ensures GoodFv(recs, Index(buf, recs, starts), Moved(seen, x))
  {
    hide Layout, Reachable, GoodHead, Done;
    if IsRef(x.tag) {
      var k :| 0 <= k < |order| && order[k] == x.payload;
      assert recs[k].head == heap[order[k]].head;
    }
  }

  /** Renaming twice is renaming by the composition, and so is copying twice. */
  lemma MovedTwice(ct: ClassTable, heap: Heap, m1: map<int, int>, m2: map<int, int>, phi: map<int, int>, x: Value)
    requires Composes(m1, m2, phi) && Placed(m1, x)
    ensures Moved(m2, Moved(m1, x)) == Moved(phi, x)
  {}

  ghost predicate Composes(m1: map<int, int>, m2: map<int, int>, phi: map<int, int>) {
    && phi.Keys == m1.Keys
    && forall a :: a in m1 ==> m1[a] in m2 && phi[a] == m2[m1[a]]
  }

  lemma CopyTwice(ct: ClassTable, heap: Heap, n: Node, rec: Node, m1: map<int, int>, m2: map<int, int>, phi: map<int, int>)
    requires Done(ct, heap, m1, n, rec) && Composes(m1, m2, phi) && |n.kids| == Arity(n.head)
    ensures PartNode(rec, m2, |rec.kids|) == Copy(n, phi)
  {
    var p, t := Positional(n.head), |n.kids|;
    hide Composes, Moved, PartNode, Refusal;
    forall i | 0 <= i < |n.kids| ensures Moved(m2, rec.kids[i]) == Moved(phi, n.kids[i]) {
      assert KidDone(ct, heap, m1, n.kids[i], rec.kids[i]);
      MovedTwice(ct, heap, m1, m2, phi, n.kids[i]);
    }
    assert MovedAll(m2, rec.kids[..p]) == MovedAll(phi, n.kids[..p]);
    assert MovedAll(m2, rec.kids[p..t]) == MovedAll(phi, n.kids[p..t]);
    KeyedPart(rec, m2, t);
    KeyedPart(n, phi, t);
    var a, b := PartNode(rec, m2, t), Copy(n, phi);
    assert a.kids == a.kids[..p] + a.kids[p..] && b.kids == b.kids[..p] + b.kids[p..];
  }

  /** Rebuilds the root value of a buffer and takes the receiver's reference to it. */
  method ThreadRebuild(ct: ClassTable, buf: seq<Cell>, ghost recs: seq<Node>, ghost starts: seq<nat>, ghost index: map<int, nat>, ghost fv: Value)
    returns (out: Value, nodes: seq<Node>, rc: seq<nat>, ghost seen: map<int, int>, ghost built: seq<nat>)
    requires Source(ct, buf, recs, starts, index) && GoodFv(recs, index, fv)
    requires HEADER_CELLS <= |buf| && buf[1] == W(TagCode(fv.tag)) && buf[2] == W(fv.payload)
    ensures Linked(ct, recs, starts, seen, built, nodes) && Placed(seen, fv) && out == Moved(seen, fv) && OwnValue(nodes, out)
    ensures forall j :: 0 <= j < |nodes| ==> WholeAt(recs, seen, built, nodes, j)
    ensures OwnedOnce(ct, nodes, rc, out)
  {
    hide Source, GoodFv, WholeAt, Linked, AllKids, Moved;
    var r := new Rebuilder(ct, buf, recs, starts, index);
    var rootFv := Value(TagOf(ReadWord(buf, 1)), ReadWord(buf, 2));
    assert rootFv == fv;
    out := r.Rebuild(rootFv);
    nodes, seen, built := r.nodes, r.seen, r.built;
    rc := Retained(ct, nodes, r.rc, out);
  }

  /** Both walks together: every flattened node is rebuilt, and nothing else is. */
  lemma AllRebuilt(ct: ClassTable, heap: Heap, v: Value, buf: seq<Cell>, seen: map<int, int>, order: seq<int>,
                   recs: seq<Node>, starts: seq<nat>, rseen: map<int, int>, built: seq<nat>, nodes: seq<Node>, b: int)
    requires GoodHeap(ct, heap) && Flat(ct, heap, v, buf, seen, order, recs, starts)
    requires Linked(ct, recs, starts, rseen, built, nodes) && Placed(rseen, Moved(seen, v))
    requires forall j :: 0 <= j < |nodes| ==> WholeAt(recs, rseen, built, nodes, j)
    requires b in seen
    ensures seen[b] in rseen
  {
    hide Flat, Linked, WholeAt, Moved, Reachable;
    var s := set a | a in seen && seen[a] in rseen;
    forall x, y | x in s && Edge(heap, x, y) ensures y in s {
      RebuiltEdge(ct, heap, v, buf, seen, order, recs, starts, rseen, built, nodes, x, y);
    }
    FlatRoot(ct, heap, v, buf, seen, order, recs, starts, rseen, b);
    ReachableInClosed(heap, s, v.payload, b);
  }

  lemma FlatRoot(ct: ClassTable, heap: Heap, v: Value, buf: seq<Cell>, seen: map<int, int>, order: seq<int>,
                 recs: seq<Node>, starts: seq<nat>, rseen: map<int, int>, b: int)
    requires Flat(ct, heap, v, buf, seen, order, recs, starts) && Placed(rseen, Moved(seen, v)) && b in seen
    ensures IsRef(v.tag) && v.payload in seen && seen[v.payload] in rseen && Reachable(heap, v.payload, b) && b in heap
  {
    hide Layout, Reachable, Done;
    var k :| 0 <= k < |order| && order[k] == b;
  }

  lemma RebuiltEdge(ct: ClassTable, heap: Heap, v: Value, buf: seq<Cell>, seen: map<int, int>, order: seq<int>,
                    recs: seq<Node>, starts: seq<nat>, rseen: map<int, int>, built: seq<nat>, nodes: seq<Node>, x: int, y: int)
    requires Flat(ct, heap, v, buf, seen, order, recs, starts)
    requires Linked(ct, recs, starts, rseen, built, nodes)
    requires forall j :: 0 <= j < |nodes| ==> WholeAt(recs, rseen, built, nodes, j)
    requires x in seen && seen[x] in rseen && Edge(heap, x, y)
    ensures y in seen && seen[y] in rseen
  {
    hide Layout, SameShape, PartNode, Reachable, Refusal, Distinct;
    var i :| 0 <= i < |heap[x].kids| && IsRef(heap[x].kids[i].tag) && heap[x].kids[i].payload == y;
    var k :| 0 <= k < |order| && order[k] == x;
    assert Done(ct, heap, seen, heap[x], recs[k]);
    assert KidDone(ct, heap, seen, heap[x].kids[i], recs[k].kids[i]);
    var j := rseen[seen[x]];
    assert 8 * starts[built[j]] == 8 * starts[k];
    StartsDistinct(buf, recs, starts, built[j], k);
    assert WholeAt(recs, rseen, built, nodes, j);
    assert Placed(rseen, recs[k].kids[..|recs[k].kids|][i]);
  }

  ghost function Phi(seen: map<int, int>, rseen: map<int, int>): map<int, int>
    requires forall a :: a in seen ==> seen[a] in rseen
  {
    map a | a in seen :: rseen[seen[a]]
  }

  lemma PhiIsIsomorphism(ct: ClassTable, heap: Heap, v: Value, buf: seq<Cell>, seen: map<int, int>, order: seq<int>,
                         recs: seq<Node>, starts: seq<nat>, rseen: map<int, int>, built: seq<nat>, nodes: seq<Node>)
    requires GoodHeap(ct, heap) && Flat(ct, heap, v, buf, seen, order, recs, starts)
    requires Linked(ct, recs, starts, rseen, built, nodes)
    requires forall j :: 0 <= j < |nodes| ==> WholeAt(recs, rseen, built, nodes, j)
    requires forall a :: a in seen ==> seen[a] in rseen
    ensures Isomorphic(ct, heap, v, nodes, Moved(rseen, Moved(seen, v)), Phi(seen, rseen))
  {
    hide GoodHeap, Linked, WholeAt, Layout, Reachable, Copy, Moved, Indexed, Done, PartNode;
    var phi := Phi(seen, rseen);
    assert Composes(seen, rseen, phi);
    MovedTwice(ct, heap, seen, rseen, phi, v);
    forall a ensures a in phi <==> a in heap && IsRef(v.tag) && Reachable(heap, v.payload, a) {
      PhiDomain(ct, heap, v, buf, seen, order, recs, starts, a);
    }
    forall a | a in phi
      ensures 0 <= phi[a] < |nodes| && a in heap && |heap[a].kids| == Arity(heap[a].head) && nodes[phi[a]] == Copy(heap[a], phi)
    {
      PhiCopies(ct, heap, v, buf, seen, order, recs, starts, rseen, built, nodes, a);
    }
    forall a, b | a in phi && b in phi && phi[a] == phi[b] ensures a == b {
      PhiInjective(ct, heap, v, buf, seen, order, recs, starts, rseen, built, nodes, a, b);
    }
    forall x | 0 <= x < |nodes| ensures Hits(phi, x) {
      PhiOnto(ct, heap, v, buf, seen, order, recs, starts, rseen, built, nodes, x);
      var a :| a in phi && phi[a] == x;
    }
  }

  lemma PhiDomain(ct: ClassTable, heap: Heap, v: Value, buf: seq<Cell>, seen: map<int, int>, order: seq<int>,
                  recs: seq<Node>, starts: seq<nat>, a: int)
    requires Flat(ct, heap, v, buf, seen, order, recs, starts)
    ensures a in seen <==> a in heap && IsRef(v.tag) && Reachable(heap, v.payload, a)
  {
    hide Layout, Reachable, Done;
    if a in seen {
      var k :| 0 <= k < |order| && order[k] == a;
    } else if IsRef(v.tag) && Reachable(heap, v.payload, a) {
      FlatCoversReachable(ct, heap, v, buf, seen, order, recs, starts, a);
    }
  }

  lemma PhiCopies(ct: ClassTable, heap: Heap, v: Value, buf: seq<Cell>, seen: map<int, int>, order: seq<int>,
                  recs: seq<Node>, starts: seq<nat>, rseen: map<int, int>, built: seq<nat>, nodes: seq<Node>, a: int)
    requires GoodHeap(ct, heap) && Flat(ct, heap, v, buf, seen, order, recs, starts)
    requires Linked(ct, recs, starts, rseen, built, nodes)
    requires forall j :: 0 <= j < |nodes| ==> WholeAt(recs, rseen, built, nodes, j)
    requires forall a :: a in seen ==> seen[a] in rseen
    requires a in seen
    ensures a in heap && |heap[a].kids| == Arity(heap[a].head)
    ensures 0 <= rseen[seen[a]] < |nodes| && nodes[rseen[seen[a]]] == Copy(heap[a], Phi(seen, rseen))
  {
    hide Layout, SameShape, PartNode, Reachable, Refusal, Distinct, KidDone, GoodHead;
    var k :| 0 <= k < |order| && order[k] == a;
    assert GoodNode(ct, heap[a]);
    var j := rseen[seen[a]];
    assert 8 * starts[built[j]] == 8 * starts[k];
    StartsDistinct(buf, recs, starts, built[j], k);
    assert WholeAt(recs, rseen, built, nodes, j);
    CopyTwice(ct, heap, heap[a], recs[k], seen, rseen, Phi(seen, rseen));
  }

  lemma PhiInjective(ct: ClassTable, heap: Heap, v: Value, buf: seq<Cell>, seen: map<int, int>, order: seq<int>,
                     recs: seq<Node>, starts: seq<nat>, rseen: map<int, int>, built: seq<nat>, nodes: seq<Node>, a: int, b: int)
    requires Flat(ct, heap, v, buf, seen, order, recs, starts)
    requires Linked(ct, recs, starts, rseen, built, nodes)
    requires a in seen && b in seen && seen[a] in rseen && seen[b] in rseen && rseen[seen[a]] == rseen[seen[b]]
    ensures a == b
  {
    hide Layout, SameShape, Reachable, Done;
    var i :| 0 <= i < |order| && order[i] == a;
    var k :| 0 <= k < |order| && order[k] == b;
    assert seen[a] == seen[b] == 8 * starts[i] == 8 * starts[k];
    StartsDistinct(buf, recs, starts, i, k);
  }

  lemma PhiOnto(ct: ClassTable, heap: Heap, v: Value, buf: seq<Cell>, seen: map<int, int>, order: seq<int>,
                recs: seq<Node>, starts: seq<nat>, rseen: map<int, int>, built: seq<nat>, nodes: seq<Node>, x: nat)
    requires Flat(ct, heap, v, buf, seen, order, recs, starts)
    requires Linked(ct, recs, starts, rseen, built, nodes)
    requires forall a :: a in seen ==> seen[a] in rseen
    requires x < |nodes|
    ensures exists a :: a in Phi(seen, rseen) && Phi(seen, rseen)[a] == x
  {
    hide Layout, SameShape, Reachable, Done;
    var k := built[x];
    assert order[k] in Phi(seen, rseen) && Phi(seen, rseen)[order[k]] == x;
  }

  // ------------------------------------------------------ the copy, written out

  /** How a value arrives: immediates as they are, references renamed, weak slots as None; blocks never. */
  ghost predicate Arrives(phi: map<int, int>, v: Value, c: Value) {
    match v.tag
    case Void => c.tag == Void && c.payload == v.payload
    case Int => c.tag == Int && c.payload == v.payload
    case Float => c.tag == Float && c.payload == v.payload
    case Bool => c.tag == Bool && c.payload == v.payload
    case None => c.tag == Tag.None && c.payload == v.payload
    case Char => c.tag == Char && c.payload == v.payload
    case Str => c.tag == Str && v.payload in phi && c.payload == phi[v.payload]
    case Obj => c.tag == Obj && v.payload in phi && c.payload == phi[v.payload]
    case Arr => c.tag == Arr && v.payload in phi && c.payload == phi[v.payload]
    case Map => c.tag == Map && v.payload in phi && c.payload == phi[v.payload]
    case Clo => c.tag == Clo && v.payload in phi && c.payload == phi[v.payload]
    case WeakProxy => c.tag == Tag.None && c.payload == 0
    case Block => false
  }

  /** The list of keys comes out backwards. */
  predicate Backwards(keys: seq<Key>, keys': seq<Key>) {
    |keys'| == |keys| && forall i :: 0 <= i < |keys| ==> keys'[|keys| - 1 - i] == keys[i]
  }

  /** How the head of a node arrives. */
  predicate HeadArrives(h: Head, c: Head) {
    match h
    case StrH(text) => c == StrH(text)
    case ObjH(classId, n, keys) => c.ObjH? && c.classId == classId && c.nslots == n && Backwards(keys, c.keys)
    case BoxedH(len) => c == BoxedH(len)
    case DenseH(len, r, ws) => c == DenseH(len, r, ws)
    case ColumnarH(classId, len, ws) => c == ColumnarH(classId, len, ws)
    case MapH(len) => c == MapH(len)
    case CloH(fn, keys) => c.CloH? && c.fnIndex == fn && Backwards(keys, c.keys)
  }

  /** How a node arrives: its slots or elements in place, its list entries under their keys. */
  ghost predicate NodeArrives(phi: map<int, int>, n: Node, c: Node) {
    && HeadArrives(n.head, c.head) && |c.kids| == |n.kids|
    && var p := |n.kids| - |Keys(n.head)|;
       && p >= 0
       && (forall i :: 0 <= i < p ==> Arrives(phi, n.kids[i], c.kids[i]))
       && (forall i :: p <= i < |n.kids| ==> Arrives(phi, n.kids[i], c.kids[p + |n.kids| - 1 - i]))
  }

  /** Every node and the root arrive. */
  ghost predicate AllArrive(heap: Heap, v: Value, nodes: seq<Node>, out: Value, phi: map<int, int>) {
    && (forall a :: a in phi ==> a in heap && 0 <= phi[a] < |nodes| && NodeArrives(phi, heap[a], nodes[phi[a]]))
    && Arrives(phi, v, out)
  }

  lemma MovedArrives(heap: Heap, phi: map<int, int>, v: Value)
    requires Placed(phi, v) && !v.tag.Block?
    ensures Arrives(phi, v, Moved(phi, v))
  {
  }

  lemma CopyArrives(ct: ClassTable, n: Node, phi: map<int, int>)
    requires GoodNode(ct, n) && forall i :: 0 <= i < |n.kids| ==> Placed(phi, n.kids[i]) && !n.kids[i].tag.Block?
    ensures NodeArrives(phi, n, Copy(n, phi))
  {
    var p, c := Positional(n.head), Copy(n, phi);
    CopySizes(ct, n, phi);
    hide Copy, Moved, Arrives, Placed, GoodHead, HeadArrives, Positional, Keys, Arity, Reversed, MovedAll, WithKeys;
    forall i | 0 <= i < p ensures Arrives(phi, n.kids[i], c.kids[i]) {
      CopySlot(ct, n, phi, i);
      MovedArrives(map[], phi, n.kids[i]);
    }
    forall i | p <= i < |n.kids| ensures Arrives(phi, n.kids[i], c.kids[p + |n.kids| - 1 - i]) {
      EntryArrives(ct, n, phi, i);
    }
  }

  lemma EntryArrives(ct: ClassTable, n: Node, phi: map<int, int>, i: nat)
    requires GoodNode(ct, n) && Positional(n.head) <= i < |n.kids| && Placed(phi, n.kids[i]) && !n.kids[i].tag.Block?
    ensures |Copy(n, phi).kids| == |n.kids| && Arrives(phi, n.kids[i], Copy(n, phi).kids[Positional(n.head) + |n.kids| - 1 - i])
  {
    CopySizes(ct, n, phi);
    var p, l := Positional(n.head), |Keys(n.head)|;
    hide Copy, Moved, Arrives, Placed, GoodHead, Positional, Keys, Reversed, MovedAll, WithKeys;
    CopyEntry(ct, n, phi, i - p);
    MovedArrives(map[], phi, n.kids[i]);
    assert p + (l - 1 - (i - p)) == p + |n.kids| - 1 - i;
  }

  lemma CopySizes(ct: ClassTable, n: Node, phi: map<int, int>)
    requires GoodNode(ct, n)
    ensures |Copy(n, phi).kids| == |n.kids| == Positional(n.head) + |Keys(n.head)| && HeadArrives(n.head, Copy(n, phi).head)
  {
    CopyHead(ct, n, phi);
    HeadCopied(n.head, Copy(n, phi).head);
    hide Copy, Positional, Keys, GoodHead;
  }

  lemma CopyHead(ct: ClassTable, n: Node, phi: map<int, int>)
    requires GoodNode(ct, n)
    ensures Copy(n, phi).head == WithKeys(n.head, Reversed(Keys(n.head)))
    ensures |Copy(n, phi).kids| == |n.kids| == Positional(n.head) + |Keys(n.head)|
  {
    hide Copy, MovedAll, Reversed, Positional, Keys, GoodHead, WithKeys;
    CopyShape(ct, n, phi);
  }

  lemma HeadCopied(h: Head, c: Head)
    requires c == WithKeys(h, Reversed(Keys(h)))
    ensures HeadArrives(h, c)
  {
  }

  /** With nothing refused, an isomorphic copy is the written-out one. */
  lemma CopyIsExact(ct: ClassTable, heap: Heap, v: Value, nodes: seq<Node>, out: Value, phi: map<int, int>)
    requires GoodHeap(ct, heap) && GoodValue(heap, v) && Isomorphic(ct, heap, v, nodes, out, phi)
    requires forall r :: !RefusedBelow(ct, heap, v, true, r)
    ensures AllArrive(heap, v, nodes, out, phi)
  {
    RootMay(ct, heap, v, phi);
    forall a | a in phi ensures a in heap && 0 <= phi[a] < |nodes| && NodeArrives(phi, heap[a], nodes[phi[a]]) {
      forall i | 0 <= i < |heap[a].kids| ensures Placed(phi, heap[a].kids[i]) && !heap[a].kids[i].tag.Block? {
        KidMay(ct, heap, v, phi, a, i);
      }
      hide NodeArrives, Copy, RefusedBelow, Placed, Reachable;
      CopyArrives(ct, heap[a], phi);
    }
    hide NodeArrives, Arrives, Moved;
    MovedArrives(heap, phi, v);
  }

  /** The root is no block and, if it is a reference, is copied. */
  lemma RootMay(ct: ClassTable, heap: Heap, v: Value, phi: map<int, int>)
    requires GoodValue(heap, v) && forall r :: !RefusedBelow(ct, heap, v, true, r)
    requires forall a :: a in phi <==> a in heap && IsRef(v.tag) && Reachable(heap, v.payload, a)
    ensures Placed(phi, v) && !v.tag.Block?
  {
    assert !RefusedBelow(ct, heap, v, true, BlockValue);
    if IsRef(v.tag) { ReachableSelf(heap, v.payload); }
    hide Reachable;
  }

  lemma KidMay(ct: ClassTable, heap: Heap, v: Value, phi: map<int, int>, a: int, i: nat)
    requires GoodHeap(ct, heap) && (forall r :: !RefusedBelow(ct, heap, v, true, r)) && a in heap && i < |heap[a].kids|
    requires forall a :: a in phi <==> a in heap && IsRef(v.tag) && Reachable(heap, v.payload, a)
    requires a in phi
    ensures Placed(phi, heap[a].kids[i]) && !heap[a].kids[i].tag.Block?
  {
    var kid := heap[a].kids[i];
    assert GoodValue(heap, kid);
    if kid.tag.Block? { BlockRefused(ct, heap, v, a, i); }
    if IsRef(kid.tag) {
      EdgeAt(heap, a, i);
      ReachableOn(heap, v.payload, a, kid.payload);
    }
    hide Reachable;
  }

  lemma BlockRefused(ct: ClassTable, heap: Heap, v: Value, a: int, i: nat)
    requires IsRef(v.tag) && Reachable(heap, v.payload, a) && a in heap && i < |heap[a].kids| && heap[a].kids[i].tag.Block?
    ensures RefusedBelow(ct, heap, v, true, BlockValue)
  {
    hide Reachable;
    assert RefusedAt(ct, heap, a, i, BlockValue);
  }

  lemma ReachableOn(heap: Heap, a: int, b: int, c: int)
    requires Reachable(heap, a, b) && Edge(heap, b, c)
    ensures Reachable(heap, a, c)
  {
    var p :| Path(heap, p) && p[0] == a && p[|p| - 1] == b;
    var q := p + [c];
    forall i | 0 <= i < |q| - 1 ensures Edge(heap, q[i], q[i + 1]) {
      if i < |p| - 1 { assert Edge(heap, p[i], p[i + 1]); }
    }
    assert Path(heap, q);
  }

  // ------------------------------------------------- references in inline rows

  /** Row i of a dense array has a field k: two words behind the two that open the row. */
  predicate InRow(h: Head, i: nat, k: nat) {
    h.DenseH? && i < h.len && 2 * k + 3 < h.recWords && i * h.recWords + 2 * k + 3 < |h.words|
  }

  /** What a reader of that field gets. */
  function RowValue(h: Head, i: nat, k: nat): Value
    requires InRow(h, i, k)
  {
    Value(TagOf(h.words[i * h.recWords + 2 * k + 2]), h.words[i * h.recWords + 2 * k + 3])
  }

  /** Some inline row holds a heap reference. */
  ghost predicate RowRef(h: Head) {
    exists i: nat, k: nat :: InRow(h, i, k) && !IsImmediate(RowValue(h, i, k).tag)
  }

  /** No node a walk from `v` meets holds a reference in an inline row. */
  ghost predicate RowsClean(heap: Heap, v: Value) {
    forall a :: a in heap && IsRef(v.tag) && Reachable(heap, v.payload, a) ==> !RowRef(heap[a].head)
  }

  /** Everything the copy holds is immediate or names a node of the copy. */
  ghost predicate Contained(nodes: seq<Node>) {
    && (forall x, i :: 0 <= x < |nodes| && 0 <= i < |nodes[x].kids| ==> OwnValue(nodes, nodes[x].kids[i]))
    && (forall x :: 0 <= x < |nodes| ==> !RowRef(nodes[x].head))
  }

  lemma CopyKid(n: Node, m: map<int, int>, i: nat)
    requires |n.kids| == Arity(n.head) && i < |Copy(n, m).kids|
    ensures Copy(n, m).kids[i] == VOID || exists j :: 0 <= j < |n.kids| && Copy(n, m).kids[i] == Moved(m, n.kids[j])
  {
    hide Moved;
    var p, t := Positional(n.head), |n.kids|;
    if i < p {
      MovedAllAt(m, n.kids[..p], i);
      assert n.kids[..p][i] == n.kids[i];
    } else {
      var j := t - 1 - (i - p);
      ReversedAt(MovedAll(m, n.kids[p..t]), i - p);
      MovedAllAt(m, n.kids[p..t], j - p);
      assert n.kids[p..t][j - p] == n.kids[j];
    }
  }

  /** Inline rows arrive word for word. */
  lemma RowsVerbatim(n: Node, m: map<int, int>)
    requires |n.kids| == Arity(n.head)
    ensures n.head.DenseH? <==> Copy(n, m).head.DenseH?
    ensures n.head.DenseH? ==> Copy(n, m).head == n.head
    ensures RowRef(Copy(n, m).head) <==> RowRef(n.head)
  {
    var c := Copy(n, m);
    if n.head.DenseH? {
      assert c.head == n.head;
    } else {
      assert !c.head.DenseH?;
    }
  }

  lemma KidsOwn(ct: ClassTable, heap: Heap, v: Value, nodes: seq<Node>, out: Value, phi: map<int, int>, x: nat, i: nat)
    requires GoodHeap(ct, heap) && Isomorphic(ct, heap, v, nodes, out, phi) && x < |nodes| && i < |nodes[x].kids|
    ensures OwnValue(nodes, nodes[x].kids[i])
  {
    hide Copy, Reachable;
    assert Hits(phi, x);
    var a :| a in phi && phi[a] == x;
    CopyKid(heap[a], phi, i);
    if nodes[x].kids[i] != VOID {
      var j :| 0 <= j < |heap[a].kids| && nodes[x].kids[i] == Moved(phi, heap[a].kids[j]);
      var kid := heap[a].kids[j];
      assert GoodValue(heap, kid);
      if IsRef(kid.tag) && kid.payload in phi { CopyTag(heap[kid.payload], phi); }
    }
  }

  lemma CopyTag(n: Node, m: map<int, int>)
    requires |n.kids| == Arity(n.head)
    ensures HeadTag(Copy(n, m).head) == HeadTag(n.head)
  {
  }

  /**
   The copy is cut off from the sender's heap if and only if no inline row met on the walk holds a
   reference: rows are copied word for word, so such a reference arrives as the sender's address.
   */
  lemma ContainedIff(ct: ClassTable, heap: Heap, v: Value, nodes: seq<Node>, out: Value, phi: map<int, int>)
    requires GoodHeap(ct, heap) && Isomorphic(ct, heap, v, nodes, out, phi)
    ensures Contained(nodes) <==> RowsClean(heap, v)
  {
    forall x, i | 0 <= x < |nodes| && 0 <= i < |nodes[x].kids| ensures OwnValue(nodes, nodes[x].kids[i]) {
      KidsOwn(ct, heap, v, nodes, out, phi, x, i);
    }
    hide Copy, GoodHeap, RowRef, Reachable, OwnValue;
    forall a | a in phi ensures RowRef(nodes[phi[a]].head) <==> RowRef(heap[a].head) {
      RowsVerbatim(heap[a], phi);
    }
    if Contained(nodes) {
      forall a | a in heap && IsRef(v.tag) && Reachable(heap, v.payload, a) ensures !RowRef(heap[a].head) {
        assert a in phi;
      }
    }
    if RowsClean(heap, v) {
      forall x | 0 <= x < |nodes| ensures !RowRef(nodes[x].head) {
        assert Hits(phi, x);
        var a :| a in phi && phi[a] == x;
      }
    }
  }

  /**
   The whole transfer. It succeeds exactly when nothing met on the walk is refused, and
   then the receiver holds an isomorphic copy in which every counted node is owned once
   per slot that refers to it and the root once more. The copy holds no address of the sender
   if and only if no inline row met on the walk holds a reference.
   */
  method Transfer(ct: ClassTable, heap: Heap, v: Value)
    returns (err: Option<Reason>, out: Value, nodes: seq<Node>, rc: seq<nat>, ghost phi: map<int, int>)
    requires GoodHeap(ct, heap) && GoodValue(heap, v)
    ensures err.None? <==> forall r :: !RefusedBelow(ct, heap, v, true, r)
    ensures err.Some? ==> RefusedBelow(ct, heap, v, true, err.value)
    ensures err.None? ==> Isomorphic(ct, heap, v, nodes, out, phi) && OwnedOnce(ct, nodes, rc, out)
    ensures err.None? ==> AllArrive(heap, v, nodes, out, phi)
    ensures err.None? ==> (Contained(nodes) <==> RowsClean(heap, v))
    ensures err.Some? ==> nodes == [] && out == VOID
  {
    hide Contained, RowsClean, AllArrive, RefusedBelow, Layout, Source, Linked, WholeAt, OwnedOnce, Isomorphic, Done, GoodHeap, Moved, Placed, Reachable;
    out, nodes, rc, phi := VOID, [], [], map[];
    var buf, e; ghost var seen, order, recs, starts;
    buf, e, seen, order, recs, starts := ThreadFlatten(ct, heap, v);
    err := e;
    if err.Some? { return; }
    FlatIsSource(ct, heap, v, buf, seen, order, recs, starts);
    FlatValue(ct, heap, v, buf, seen, order, recs, starts, v);
    LayoutSize(buf, recs, starts);
    ghost var rseen, built;
    out, nodes, rc, rseen, built := ThreadRebuild(ct, buf, recs, starts, Index(buf, recs, starts), Moved(seen, v));
    forall a | a in seen ensures seen[a] in rseen {
      AllRebuilt(ct, heap, v, buf, seen, order, recs, starts, rseen, built, nodes, a);
    }
    PhiIsIsomorphism(ct, heap, v, buf, seen, order, recs, starts, rseen, built, nodes);
    phi := Phi(seen, rseen);
    ContainedIff(ct, heap, v, nodes, out, phi);
    CopyIsExact(ct, heap, v, nodes, out, phi);
  }

  /** An array filled with a struct whose one field is a string at address 200, and that string. */
  const FILLED: Heap := map[100 := Node(DenseH(1, 4, [0, 0, 4, 200]), []), 200 := Node(StrH([65]), [])]

  lemma FilledAlone(b: int)
    ensures GoodHeap(map[], FILLED)
    ensures Reachable(FILLED, 100, b) <==> b == 100
    ensures InRow(FILLED[100].head, 0, 0) && RowValue(FILLED[100].head, 0, 0) == Value(Str, 200)
  {
    ReachableSelf(FILLED, 100);
    if Reachable(FILLED, 100, b) { ReachableInClosed(FILLED, {100}, 100, b); }
  }

  /** Its transfer succeeds, copies the array alone, and the copy's row still names address 200. */
  method FilledRowEscapes() returns (err: Option<Reason>, out: Value, nodes: seq<Node>)
    ensures err.None? && nodes == [FILLED[100]] && out == Value(Arr, 0)
    ensures InRow(nodes[0].head, 0, 0) && RowValue(nodes[0].head, 0, 0) == Value(Str, 200) && !Contained(nodes)
  {
    var v := Value(Arr, 100);
    FilledAlone(100);
    FilledAllowed(v);
    hide GoodHeap, RefusedBelow, Contained;
    var rc; ghost var phi;
    err, out, nodes, rc, phi := Transfer(map[], FILLED, v);
    FilledCopy(v, nodes, out, phi);
    assert RowRef(FILLED[100].head);
  }

  lemma FilledAllowed(v: Value)
    requires v == Value(Arr, 100)
    ensures forall r :: !RefusedBelow(map[], FILLED, v, true, r)
  {
    hide Reachable;
    forall b, i, r | Reachable(FILLED, 100, b) ensures !RefusedAt(map[], FILLED, b, i, r) {
      FilledAlone(b);
    }
  }

  lemma FilledCopy(v: Value, nodes: seq<Node>, out: Value, phi: map<int, int>)
    requires v == Value(Arr, 100) && Isomorphic(map[], FILLED, v, nodes, out, phi)
    ensures nodes == [FILLED[100]] && out == Value(Arr, 0)
  {
    hide Reachable, Copy;
    forall a ensures a in phi <==> a == 100 {
      FilledAlone(a);
    }
    assert forall x :: Hits(phi, x) ==> x == phi[100];
    OnlyIndex(nodes, phi, phi[100]);
    EmptyCopy(FILLED[100], phi);
  }

  lemma OnlyIndex(s: seq<Node>, phi: map<int, int>, k: int)
    requires 0 <= k < |s| && (forall x :: Hits(phi, x) ==> x == k) && forall x :: 0 <= x < |s| ==> Hits(phi, x)
    ensures |s| == 1 && k == 0
  {
    assert Hits(phi, 0);
    assert |s| <= 1 || Hits(phi, 1);
  }

  lemma EmptyCopy(n: Node, m: map<int, int>)
    requires n.head.DenseH? && n.kids == []
    ensures Copy(n, m) == n
  {
    RowsVerbatim(n, m);
  }
}
