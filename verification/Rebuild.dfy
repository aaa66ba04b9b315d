/**
 The rebuild half of the thread-transfer engine: the inverse walk over a transfer
 buffer, allocating every node in the receiving heap. Nodes are born with count 0
 and each slot that stores a value retains it. An address of the receiving heap
 is the ordinal of its allocation.
 */
module Rebuild {
  import opened Util
  import opened Values
  import opened FlatBuffer
  import opened Flatten
  import SeenTable

  function Reversed<T>(s: seq<T>): (r: seq<T>)
    ensures |r| == |s|
  {
    seq(|s|, q requires 0 <= q < |s| => s[|s| - 1 - q])
  }

  function MovedAll(m: map<int, int>, s: seq<Value>): (r: seq<Value>)
    ensures |r| == |s|
  {
    seq(|s|, i requires 0 <= i < |s| => Moved(m, s[i]))
  }

  /**
   The node rebuild has made once it holds the first `t` kids of record `rec`, renamed
   by `m`. Positional kids keep their place; the keyed list is filled by prepending,
   so it comes out reversed.
   */
  function PartNode(rec: Node, m: map<int, int>, t: nat): (n: Node)
    requires t <= |rec.kids| == Arity(rec.head)
    ensures |n.kids| == Arity(n.head) && HeadTag(n.head) == HeadTag(rec.head)
    ensures n.head == WithKeys(rec.head, Keys(n.head))
  {
    var p := Positional(rec.head);
    if t <= p then Node(WithKeys(rec.head, []), MovedAll(m, rec.kids[..t]) + seq(p - t, _ => VOID))
    else Node(WithKeys(rec.head, Reversed(Keys(rec.head)[..t - p])),
              MovedAll(m, rec.kids[..p]) + Reversed(MovedAll(m, rec.kids[p..t])))
  }

  ghost predicate AllPlaced(m: map<int, int>, s: seq<Value>) {
    forall x :: 0 <= x < |s| ==> Placed(m, s[x])
  }

  lemma PartExtends(rec: Node, m: map<int, int>, m': map<int, int>, t: nat)
    requires t <= |rec.kids| == Arity(rec.head)
    requires AllPlaced(m, rec.kids[..t]) && Extends(m, m')
    ensures PartNode(rec, m, t) == PartNode(rec, m', t) && AllPlaced(m', rec.kids[..t])
  {
    forall x | 0 <= x < t ensures Placed(m', rec.kids[x]) && Moved(m', rec.kids[x]) == Moved(m, rec.kids[x]) {
      assert Placed(m, rec.kids[..t][x]);
    }
    var p := Positional(rec.head);
    if t <= p {
      assert MovedAll(m, rec.kids[..t]) == MovedAll(m', rec.kids[..t]);
    } else {
      assert MovedAll(m, rec.kids[..p]) == MovedAll(m', rec.kids[..p]);
      assert MovedAll(m, rec.kids[p..t]) == MovedAll(m', rec.kids[p..t]);
    }
  }

  /** Store kid `t` as rebuild does: by position, else through the field setter. */
  function Stored(ct: ClassTable, h: Head, node: Node, t: nat, v: Value): Node
    requires t < Arity(h)
    requires |node.kids| == Arity(node.head)
  {
    var p := Positional(h);
    if t < p then (if t < |node.kids| then node.(kids := node.kids[t := v]) else node)
    else if node.head.ObjH? || node.head.CloH? then SetField(ct, node, Keys(h)[t - p], v)
    else node
  }

  lemma StoredByPosition(ct: ClassTable, rec: Node, m: map<int, int>, t: nat)
    requires t < Positional(rec.head) && |rec.kids| == Arity(rec.head)
    ensures Stored(ct, rec.head, PartNode(rec, m, t), t, Moved(m, rec.kids[t])) == PartNode(rec, m, t + 1)
    ensures PartNode(rec, m, t).kids[t] == VOID
  {
    var p := Positional(rec.head);
    var v := Moved(m, rec.kids[t]);
    assert rec.kids[..t + 1] == rec.kids[..t] + [rec.kids[t]];
    assert MovedAll(m, rec.kids[..t + 1]) == MovedAll(m, rec.kids[..t]) + [v];
    assert PartNode(rec, m, t + 1).kids == PartNode(rec, m, t).kids[t := v];
  }

  lemma ReversedAppend<T>(s: seq<T>, x: T)
    ensures Reversed(s + [x]) == [x] + Reversed(s)
  {}

  lemma MovedAllAppend(m: map<int, int>, s: seq<Value>, x: Value)
    ensures MovedAll(m, s + [x]) == MovedAll(m, s) + [Moved(m, x)]
  {}

  /** The shape of a node whose positional kids are all in place. */
  lemma KeyedPart(rec: Node, m: map<int, int>, t: nat)
    requires Positional(rec.head) <= t <= |rec.kids| == Arity(rec.head)
    ensures var p := Positional(rec.head); var n := PartNode(rec, m, t);
            && n.head == WithKeys(rec.head, Reversed(Keys(rec.head)[..t - p]))
            && |n.kids| == t
            && n.kids[..p] == MovedAll(m, rec.kids[..p])
            && n.kids[p..] == Reversed(MovedAll(m, rec.kids[p..t]))
  {}

  lemma Spliced(k: seq<Value>, k': seq<Value>, p: nat, v: Value)
    requires p <= |k| && |k'| == |k| + 1
    requires k'[..p] == k[..p] && k'[p..] == [v] + k[p..]
    ensures k' == k[..p] + [v] + k[p..]
  {
    assert k' == k'[..p] + k'[p..];
  }

  lemma KeyedTail(rec: Node, m: map<int, int>, p: nat, t: nat)
    requires p <= t < |rec.kids|
    ensures Reversed(MovedAll(m, rec.kids[p..t + 1])) == [Moved(m, rec.kids[t])] + Reversed(MovedAll(m, rec.kids[p..t]))
  {
    assert rec.kids[p..t + 1] == rec.kids[p..t] + [rec.kids[t]];
    MovedAllAppend(m, rec.kids[p..t], rec.kids[t]);
    ReversedAppend(MovedAll(m, rec.kids[p..t]), Moved(m, rec.kids[t]));
  }

  lemma KeyedStep(rec: Node, m: map<int, int>, t: nat)
    requires Positional(rec.head) <= t < |rec.kids| == Arity(rec.head)
    ensures var p := Positional(rec.head); var n, v := PartNode(rec, m, t), Moved(m, rec.kids[t]);
            PartNode(rec, m, t + 1).kids == n.kids[..p] + [v] + n.kids[p..]
  {
    var p := Positional(rec.head);
    KeyedPart(rec, m, t);
    KeyedPart(rec, m, t + 1);
    KeyedTail(rec, m, p, t);
    hide PartNode, MovedAll, Reversed, Moved;
    Spliced(PartNode(rec, m, t).kids, PartNode(rec, m, t + 1).kids, p, Moved(m, rec.kids[t]));
  }

  lemma KeyedHeadStep(rec: Node, m: map<int, int>, t: nat)
    requires Positional(rec.head) <= t < |rec.kids| == Arity(rec.head)
    ensures var p := Positional(rec.head); var n := PartNode(rec, m, t);
            && (n.head.ObjH? || n.head.CloH?) && Positional(n.head) == p
            && PartNode(rec, m, t + 1).head == WithKeys(n.head, [Keys(rec.head)[t - p]] + Keys(n.head))
  {
    var p, keys := Positional(rec.head), Keys(rec.head);
    KeyedPart(rec, m, t);
    KeyedPart(rec, m, t + 1);
    hide PartNode, MovedAll, Moved;
    assert keys[..t + 1 - p] == keys[..t - p] + [keys[t - p]];
    ReversedAppend(keys[..t - p], keys[t - p]);
  }

  lemma StoredByKey(ct: ClassTable, rec: Node, m: map<int, int>, t: nat)
    requires GoodNode(ct, rec) && Positional(rec.head) <= t < |rec.kids|
    ensures var n, v := PartNode(rec, m, t), Moved(m, rec.kids[t]);
            Stored(ct, rec.head, n, t, v) == PartNode(rec, m, t + 1) &&
            PartNode(rec, m, t + 1).kids == n.kids[..Positional(rec.head)] + [v] + n.kids[Positional(rec.head)..]
  {
    hide PartNode, MovedAll, Reversed, GoodHead, Moved, FindKey, FindSlot;
    KeyedPart(rec, m, t);
    KeyedStep(rec, m, t);
    KeyedHeadStep(rec, m, t);
    NotYetPresent(ct, rec, PartNode(rec, m, t), t - Positional(rec.head));
  }

  /** Kids of a node after one more store: a VOID replaced, or one value added. */
  ghost predicate OneMore(before: seq<Value>, after: seq<Value>, v: Value) {
    exists gone :: (gone == multiset{} || gone == multiset{VOID}) && gone <= multiset(before) &&
      multiset(after) == multiset(before) - gone + multiset{v}
  }

  lemma ReplacedIsOneMore(s: seq<Value>, t: nat, v: Value)
    requires t < |s| && s[t] == VOID
    ensures OneMore(s, s[t := v], v)
  {
    assert multiset(s[t := v]) == multiset(s) - multiset{VOID} + multiset{v};
  }

  lemma InsertedIsOneMore(s: seq<Value>, p: nat, v: Value)
    requires p <= |s|
    ensures OneMore(s, s[..p] + [v] + s[p..], v)
  {
    assert s == s[..p] + s[p..];
    assert multiset(s[..p] + [v] + s[p..]) == multiset(s) - multiset{} + multiset{v};
  }

  lemma StoredPart(ct: ClassTable, rec: Node, m: map<int, int>, t: nat)
    requires GoodNode(ct, rec) && t < |rec.kids|
    ensures var n, v := PartNode(rec, m, t), Moved(m, rec.kids[t]);
            Stored(ct, rec.head, n, t, v) == PartNode(rec, m, t + 1) &&
            OneMore(n.kids, PartNode(rec, m, t + 1).kids, v)
  {
    var n, v := PartNode(rec, m, t), Moved(m, rec.kids[t]);
    var n' := PartNode(rec, m, t + 1);
    var p := Positional(rec.head);
    hide OneMore, Moved, GoodHead, SetField;
    if t < p {
      StoredByPosition(ct, rec, m, t);
      ReplacedIsOneMore(n.kids, t, v);
    } else {
      StoredByKey(ct, rec, m, t);
      InsertedIsOneMore(n.kids, p, v);
    }
  }

  /** A key about to be added names no declared slot and is not in the list yet. */
  lemma NotYetPresent(ct: ClassTable, rec: Node, node: Node, j: nat)
    requires GoodHead(ct, rec.head) && j < |Keys(rec.head)|
    requires node.head == WithKeys(rec.head, Reversed(Keys(rec.head)[..j]))
    ensures FindSlot(ct, node.head, Keys(rec.head)[j]) == Positional(node.head) == Positional(rec.head)
    ensures FindKey(Keys(node.head), Keys(rec.head)[j]) == |Keys(node.head)|
  {
    var keys := Keys(rec.head);
    var have := Keys(node.head);
    assert have == Reversed(keys[..j]);
    forall i | 0 <= i < |have| ensures have[i] != keys[j] {
      assert have[i] == keys[j - 1 - i];
    }
    if node.head.ObjH? && node.head.classId in ct {
      var names := ct[node.head.classId].slotNames;
      var s := FindKey(names, keys[j]);
      assert !IsSlotName(ct, node.head.classId, keys[j]);
      forall i | 0 <= i < |names| ensures names[i] != keys[j] {}
    }
  }

  // ---------------------------------------------------------- reference counts

  function AllKids(ns: seq<Node>): multiset<Value> {
    if ns == [] then multiset{} else AllKids(ns[..|ns| - 1]) + multiset(ns[|ns| - 1].kids)
  }

  lemma {:induction false} AllKidsUpdate(ns: seq<Node>, j: nat, n: Node)
    requires j < |ns|
    ensures multiset(ns[j].kids) <= AllKids(ns)
    ensures AllKids(ns[j := n]) == AllKids(ns) - multiset(ns[j].kids) + multiset(n.kids)
  {
    hide AllKids;
    forall x ensures multiset(ns[j].kids)[x] <= AllKids(ns)[x]
             ensures AllKids(ns[j := n])[x] == (AllKids(ns) - multiset(ns[j].kids) + multiset(n.kids))[x]
    {
      AllKidsAt(ns, j, n, x);
    }
  }

  lemma AllKidsLast(ns: seq<Node>, x: Value)
    requires ns != []
    ensures AllKids(ns)[x] == AllKids(ns[..|ns| - 1])[x] + multiset(ns[|ns| - 1].kids)[x]
  {
  }

  lemma {:induction false} AllKidsAt(ns: seq<Node>, j: nat, n: Node, x: Value)
    requires j < |ns|
    ensures multiset(ns[j].kids)[x] <= AllKids(ns)[x]
    ensures AllKids(ns[j := n])[x] + multiset(ns[j].kids)[x] == AllKids(ns)[x] + multiset(n.kids)[x]
    decreases |ns|
  {
    hide AllKids;
    var last := |ns| - 1;
    AllKidsLast(ns, x);
    AllKidsLast(ns[j := n], x);
    if j == last {
      assert ns[j := n][..last] == ns[..last];
    } else {
      assert ns[j := n][..last] == ns[..last][j := n];
      AllKidsAt(ns[..last], j, n, x);
    }
  }

  lemma AllKidsAppend(ns: seq<Node>, n: Node)
    ensures AllKids(ns + [n]) == AllKids(ns) + multiset(n.kids)
  {
    assert (ns + [n])[..|ns|] == ns;
  }

  lemma {:induction false} AllKidsFrom(ns: seq<Node>, v: Value)
    requires forall j :: 0 <= j < |ns| ==> v !in ns[j].kids
    ensures v !in AllKids(ns)
  {
    if ns != [] { AllKidsFrom(ns[..|ns| - 1], v); }
  }

  function RefTo(nodes: seq<Node>, x: nat): Value
    requires x < |nodes|
  {
    Value(HeadTag(nodes[x].head), x)
  }

  /** A value stored in a rebuilt node: an immediate or a reference to a rebuilt node. */
  predicate OwnValue(nodes: seq<Node>, v: Value) {
    IsImmediate(v.tag) || (0 <= v.payload < |nodes| && v == RefTo(nodes, v.payload))
  }

  /** Each counted node's count is the number of slots that refer to it. */
  ghost predicate Counts(ct: ClassTable, nodes: seq<Node>, rc: seq<nat>) {
    && |rc| == |nodes|
    && forall x :: 0 <= x < |nodes| ==> rc[x] == if Counted(ct, nodes[x].head) then AllKids(nodes)[RefTo(nodes, x)] else 0
  }

  ghost predicate Owned(nodes: seq<Node>) {
    forall x, i :: 0 <= x < |nodes| && 0 <= i < |nodes[x].kids| ==> OwnValue(nodes, nodes[x].kids[i])
  }

  function Retained(ct: ClassTable, nodes: seq<Node>, rc: seq<nat>, v: Value): seq<nat>
    requires |rc| == |nodes|
  {
    if IsRef(v.tag) && 0 <= v.payload < |nodes| && Counted(ct, nodes[v.payload].head)
    then rc[v.payload := rc[v.payload] + 1] else rc
  }

  lemma CountsNew(ct: ClassTable, nodes: seq<Node>, rc: seq<nat>, n: Node)
    requires Counts(ct, nodes, rc) && Owned(nodes)
    requires forall i :: 0 <= i < |n.kids| ==> n.kids[i] == VOID
    ensures Counts(ct, nodes + [n], rc + [0]) && Owned(nodes + [n])
  {
    hide AllKids;
    var nodes' := nodes + [n];
    AllKidsAppend(nodes, n);
    forall x | 0 <= x < |nodes'| ensures RefTo(nodes', x) !in n.kids {}
    forall x | 0 <= x < |nodes| ensures RefTo(nodes', x) == RefTo(nodes, x) {}
    var self := RefTo(nodes', |nodes|);
    forall j | 0 <= j < |nodes| ensures self !in nodes[j].kids {
      forall i | 0 <= i < |nodes[j].kids| ensures nodes[j].kids[i] != self {
        assert OwnValue(nodes, nodes[j].kids[i]);
      }
    }
    AllKidsFrom(nodes, self);
  }

  lemma OneMoreCount(all: multiset<Value>, before: seq<Value>, after: seq<Value>, v: Value, r: Value)
    requires multiset(before) <= all && OneMore(before, after, v) && r != VOID
    ensures (all - multiset(before) + multiset(after))[r] == all[r] + if v == r then 1 else 0
  {}

  /** Storing a value and retaining it keeps every count exact. */
  lemma CountsStore(ct: ClassTable, nodes: seq<Node>, rc: seq<nat>, a: nat, n: Node, v: Value)
    requires Counts(ct, nodes, rc) && a < |nodes| && OwnValue(nodes, v)
    requires HeadTag(n.head) == HeadTag(nodes[a].head) && Counted(ct, n.head) == Counted(ct, nodes[a].head)
    requires OneMore(nodes[a].kids, n.kids, v)
    ensures Counts(ct, nodes[a := n], Retained(ct, nodes, rc, v))
  {
    hide AllKids, OneMore, Counted, HeadTag;
    var nodes', rc' := nodes[a := n], Retained(ct, nodes, rc, v);
    forall x | 0 <= x < |nodes'|
      ensures rc'[x] == if Counted(ct, nodes'[x].head) then AllKids(nodes')[RefTo(nodes', x)] else 0
    {
      KidsStore(ct, nodes, a, n, v, x);
      ReferenceTo(nodes, v, x);
      assert rc[x] == if Counted(ct, nodes[x].head) then AllKids(nodes)[RefTo(nodes, x)] else 0;
    }
  }

  lemma ReferenceTo(nodes: seq<Node>, v: Value, x: nat)
    requires OwnValue(nodes, v) && x < |nodes|
    ensures v == RefTo(nodes, x) <==> IsRef(v.tag) && 0 <= v.payload < |nodes| && v.payload == x
  {}

  lemma KidsStore(ct: ClassTable, nodes: seq<Node>, a: nat, n: Node, v: Value, x: nat)
    requires a < |nodes| && OneMore(nodes[a].kids, n.kids, v) && x < |nodes|
    requires HeadTag(n.head) == HeadTag(nodes[a].head) && Counted(ct, n.head) == Counted(ct, nodes[a].head)
    ensures Counted(ct, nodes[a := n][x].head) == Counted(ct, nodes[x].head)
    ensures RefTo(nodes[a := n], x) == RefTo(nodes, x)
    ensures AllKids(nodes[a := n])[RefTo(nodes, x)] == AllKids(nodes)[RefTo(nodes, x)] + if v == RefTo(nodes, x) then 1 else 0
  {
    hide AllKids, OneMore, Counted;
    AllKidsUpdate(nodes, a, n);
    OneMoreCount(AllKids(nodes), nodes[a].kids, n.kids, v, RefTo(nodes, x));
  }

  lemma OwnedStore(nodes: seq<Node>, a: nat, n: Node)
    requires Owned(nodes) && a < |nodes| && HeadTag(n.head) == HeadTag(nodes[a].head)
    requires forall i :: 0 <= i < |n.kids| ==> OwnValue(nodes, n.kids[i])
    ensures Owned(nodes[a := n])
  {
    var nodes' := nodes[a := n];
    forall x, i | 0 <= x < |nodes'| && 0 <= i < |nodes'[x].kids| ensures OwnValue(nodes', nodes'[x].kids[i]) {
      if x != a { assert OwnValue(nodes, nodes[x].kids[i]); } else { assert OwnValue(nodes, n.kids[i]); }
    }
  }

  // --------------------------------------------------------------- the rebuild

  /** A reference in the buffer names a record of its own tag. */
  ghost predicate GoodFv(recs: seq<Node>, index: map<int, nat>, fv: Value) {
    IsImmediate(fv.tag) ||
    (IsRef(fv.tag) && fv.payload in index && index[fv.payload] < |recs| && HeadTag(recs[index[fv.payload]].head) == fv.tag)
  }

  /** What flatten guarantees about a buffer handed to rebuild. */
  ghost predicate Source(ct: ClassTable, buf: seq<Cell>, recs: seq<Node>, starts: seq<nat>, index: map<int, nat>) {
    && Layout(buf, recs, starts) && |index| <= MOST_NODES
    && (forall off :: off in index ==> index[off] < |recs| && off == 8 * starts[index[off]])
    && (forall k :: 0 <= k < |recs| ==> GoodNode(ct, recs[k]))
    && (forall k, i :: 0 <= k < |recs| && 0 <= i < |recs[k].kids| ==> GoodFv(recs, index, recs[k].kids[i]))
  }

  /** Node j of the receiving heap was built from record `built[j]`, and `seen` says so. */
  ghost predicate Linked(ct: ClassTable, recs: seq<Node>, starts: seq<nat>, seen: map<int, int>, built: seq<nat>, nodes: seq<Node>) {
    && |built| == |nodes| && |starts| == |recs|
    && (forall j :: 0 <= j < |built| ==> built[j] < |recs| && SameShape(ct, nodes[j], recs[built[j]]))
    && (forall j :: 0 <= j < |built| ==> 8 * starts[built[j]] in seen && seen[8 * starts[built[j]]] == j)
    && (forall off :: off in seen ==> 0 <= seen[off] < |built| && off == 8 * starts[built[seen[off]]])
  }

  ghost predicate SameShape(ct: ClassTable, n: Node, rec: Node) {
    |n.kids| == Arity(n.head) && HeadTag(n.head) == HeadTag(rec.head) && Counted(ct, n.head) == Counted(ct, rec.head)
  }

  /** Node j holds the first t kids of its record. */
  ghost predicate PartAt(recs: seq<Node>, seen: map<int, int>, built: seq<nat>, nodes: seq<Node>, j: nat, t: nat) {
    && j < |nodes| && j < |built| && built[j] < |recs|
    && t <= |recs[built[j]].kids| == Arity(recs[built[j]].head)
    && nodes[j] == PartNode(recs[built[j]], seen, t)
    && AllPlaced(seen, recs[built[j]].kids[..t])
  }

  ghost predicate WholeAt(recs: seq<Node>, seen: map<int, int>, built: seq<nat>, nodes: seq<Node>, j: nat) {
    j < |built| && built[j] < |recs| && PartAt(recs, seen, built, nodes, j, |recs[built[j]].kids|)
  }

  lemma PartAtExtends(recs: seq<Node>, seen: map<int, int>, seen': map<int, int>, built: seq<nat>, built': seq<nat>,
                      nodes: seq<Node>, nodes': seq<Node>, j: nat, t: nat)
    requires PartAt(recs, seen, built, nodes, j, t) && Extends(seen, seen')
    requires built <= built' && j < |nodes'| && nodes'[j] == nodes[j]
    ensures PartAt(recs, seen', built', nodes', j, t)
  {
    PartExtends(recs[built[j]], seen, seen', t);
  }

  /** What the store step may use. */
  ghost predicate Storing(ct: ClassTable, buf: seq<Cell>, recs: seq<Node>, starts: seq<nat>, index: map<int, nat>,
                          seen: map<int, int>, built: seq<nat>, nodes: seq<Node>, rc: seq<nat>, j: nat, t: nat, child: Value) {
    && Source(ct, buf, recs, starts, index) && Linked(ct, recs, starts, seen, built, nodes)
    && Counts(ct, nodes, rc) && Owned(nodes)
    && PartAt(recs, seen, built, nodes, j, t) && t < |recs[built[j]].kids| && |rc| == |nodes|
    && OwnValue(nodes, child) && Placed(seen, recs[built[j]].kids[t]) && child == Moved(seen, recs[built[j]].kids[t])
  }

  lemma StoreLinks(ct: ClassTable, buf: seq<Cell>, recs: seq<Node>, starts: seq<nat>, index: map<int, nat>,
                   seen: map<int, int>, built: seq<nat>, nodes: seq<Node>, rc: seq<nat>, j: nat, t: nat, child: Value)
    requires Storing(ct, buf, recs, starts, index, seen, built, nodes, rc, j, t, child)
    ensures var n := Stored(ct, recs[built[j]].head, nodes[j], t, child);
            Linked(ct, recs, starts, seen, built, nodes[j := n]) && PartAt(recs, seen, built, nodes[j := n], j, t + 1)
  {
    var k := built[j];
    SourceAt(ct, buf, recs, starts, index, k);
    hide Source, Counts, Linked, Owned, PartNode, GoodNode, GoodFv, Stored, OneMore, SameShape, Arity, HeadTag, Counted,
      AllPlaced, RecAt, WholeAt, OwnValue, Moved, Placed;
    var n := Stored(ct, recs[k].head, nodes[j], t, child);
    StoredPart(ct, recs[k], seen, t);
    PlacedStep(seen, recs[k].kids, t);
    LinkedStore(ct, recs, starts, seen, built, nodes, j, n, t);
  }

  lemma StoreOwns(ct: ClassTable, buf: seq<Cell>, recs: seq<Node>, starts: seq<nat>, index: map<int, nat>,
                  seen: map<int, int>, built: seq<nat>, nodes: seq<Node>, rc: seq<nat>, j: nat, t: nat, child: Value)
    requires Storing(ct, buf, recs, starts, index, seen, built, nodes, rc, j, t, child)
    ensures var n := Stored(ct, recs[built[j]].head, nodes[j], t, child);
            Counts(ct, nodes[j := n], Retained(ct, nodes, rc, child)) && Owned(nodes[j := n])
  {
    var k := built[j];
    SourceAt(ct, buf, recs, starts, index, k);
    hide Source, Counts, Linked, Owned, PartNode, GoodNode, GoodFv, Stored, OneMore, SameShape, Arity, HeadTag, Counted,
      AllPlaced, RecAt, WholeAt, OwnValue, Moved, Placed;
    var n := Stored(ct, recs[k].head, nodes[j], t, child);
    StoredPart(ct, recs[k], seen, t);
    PlacedStep(seen, recs[k].kids, t);
    LinkedStore(ct, recs, starts, seen, built, nodes, j, n, t);
    OneMoreOwned(nodes, j, n.kids, child);
    CountsStore(ct, nodes, rc, j, n, child);
    OwnedStore(nodes, j, n);
  }

  /** How the receiving heap stands between two steps. */
  ghost predicate Built(ct: ClassTable, buf: seq<Cell>, recs: seq<Node>, starts: seq<nat>, index: map<int, nat>,
                        seen: map<int, int>, built: seq<nat>, nodes: seq<Node>, rc: seq<nat>) {
    && Source(ct, buf, recs, starts, index) && Linked(ct, recs, starts, seen, built, nodes)
    && Counts(ct, nodes, rc) && Owned(nodes)
  }

  lemma BuiltSize(ct: ClassTable, buf: seq<Cell>, recs: seq<Node>, starts: seq<nat>, index: map<int, nat>,
                  seen: map<int, int>, built: seq<nat>, nodes: seq<Node>, rc: seq<nat>)
    requires Built(ct, buf, recs, starts, index, seen, built, nodes, rc)
    ensures |built| == |nodes| == |rc|
  {
    hide Source, Owned;
  }

  /** A node made for a record that has none yet. */
  lemma NewBuilt(ct: ClassTable, buf: seq<Cell>, recs: seq<Node>, starts: seq<nat>, index: map<int, nat>,
                 seen: map<int, int>, built: seq<nat>, nodes: seq<Node>, rc: seq<nat>, off: int, k: nat, n: Node)
    requires Built(ct, buf, recs, starts, index, seen, built, nodes, rc)
    requires off in index && off !in seen && index[off] == k && k < |recs|
    requires n == Node(WithKeys(recs[k].head, []), seq(Positional(recs[k].head), _ => VOID))
    ensures |built| == |nodes| && off >= 0 && |index| <= MOST_NODES
    ensures Built(ct, buf, recs, starts, index, seen[off := |nodes|], built + [k], nodes + [n], rc + [0])
    ensures PartAt(recs, seen[off := |nodes|], built + [k], nodes + [n], |nodes|, 0)
  {
    BuiltSize(ct, buf, recs, starts, index, seen, built, nodes, rc);
    SourceAt(ct, buf, recs, starts, index, k);
    SourceOffset(ct, buf, recs, starts, index, off);
    EmptyPart(ct, recs[k], seen[off := |nodes|]);
    CountsNew(ct, nodes, rc, n);
    hide Counts, Owned, PartNode, Arity, Positional, HeadTag, Counted, GoodNode, GoodFv, RecAt, Layout, SameShape;
    assert |index| <= MOST_NODES;
    hide Source;
    LinkedNew(ct, recs, starts, seen, built, nodes, off, k, n);
  }

  lemma StoreBuilt(ct: ClassTable, buf: seq<Cell>, recs: seq<Node>, starts: seq<nat>, index: map<int, nat>,
                   seen: map<int, int>, built: seq<nat>, nodes: seq<Node>, rc: seq<nat>, j: nat, t: nat, child: Value)
    requires Built(ct, buf, recs, starts, index, seen, built, nodes, rc)
    requires j < |built| && built[j] < |recs| && PartAt(recs, seen, built, nodes, j, t) && t < |recs[built[j]].kids|
    requires OwnValue(nodes, child) && Placed(seen, recs[built[j]].kids[t]) && child == Moved(seen, recs[built[j]].kids[t])
    ensures j < |nodes| == |rc| && |nodes[j].kids| == Arity(nodes[j].head) && t < Arity(recs[built[j]].head)
    ensures var n := Stored(ct, recs[built[j]].head, nodes[j], t, child);
            && Built(ct, buf, recs, starts, index, seen, built, nodes[j := n], Retained(ct, nodes, rc, child))
            && PartAt(recs, seen, built, nodes[j := n], j, t + 1)
  {
    hide Source, Linked, Owned, GoodFv, Stored, WholeAt, OwnValue, Moved, Placed, Retained;
    StoreLinks(ct, buf, recs, starts, index, seen, built, nodes, rc, j, t, child);
    StoreOwns(ct, buf, recs, starts, index, seen, built, nodes, rc, j, t, child);
  }

  class Rebuilder {
    const ct: ClassTable
    const buf: seq<Cell>
    ghost const recs: seq<Node>
    ghost const starts: seq<nat>
    ghost const index: map<int, nat>
    var nodes: seq<Node>
    var rc: seq<nat>
    const table: SeenTable.Table<int>
    ghost var seen: map<int, int>
    ghost var built: seq<nat>

    ghost predicate Valid()
      reads this, table
    {
      Built(ct, buf, recs, starts, index, seen, built, nodes, rc) && Tabled()
    }

    /** The table stands for `seen`; a free slot is marked -1, which is no offset. */
    ghost predicate Tabled()
      reads this`seen, table
    {
      table.Valid() && table.empty == -1 && table.m == seen && forall off :: off in seen ==> off in index
    }

    ghost predicate WholeFrom(lo: nat)
      reads this
    {
      forall j :: lo <= j < |nodes| ==> WholeAt(recs, seen, built, nodes, j)
    }

    constructor (ct: ClassTable, buf: seq<Cell>, ghost recs: seq<Node>, ghost starts: seq<nat>, ghost index: map<int, nat>)
      requires Source(ct, buf, recs, starts, index)
      ensures Valid() && nodes == [] && built == [] && seen == map[] && fresh(table)
      ensures this.ct == ct && this.buf == buf && this.recs == recs && this.starts == starts && this.index == index
    {
      this.ct, this.buf := ct, buf;
      this.recs, this.starts, this.index := recs, starts, index;
      table := new SeenTable.Table<int>(-1, 0);
      nodes, rc, seen, built := [], [], map[], [];
    }

    /** Allocates the node for record `k`, empty and with count 0, and registers it before its kids. */
    method NewNode(off: int, head: Head, ghost k: nat) returns (j: nat)
      requires Valid() && off in index && off !in seen && index[off] == k && k < |recs| && head == recs[k].head
      modifies this, table
      ensures Valid() && j == |old(nodes)| && |nodes| == j + 1
      ensures old(nodes) == nodes[..j] && built == old(built) + [k] && |old(built)| == j
      ensures seen == old(seen)[off := j]
      ensures PartAt(recs, seen, built, nodes, j, 0)
    {
      hide Built, PartAt, Tabled;
      j := |nodes|;
      var n := Node(WithKeys(head, []), seq(Positional(head), _ => VOID));
      NewBuilt(ct, buf, recs, starts, index, seen, built, nodes, rc, off, k, n);
      Register(off, j);
      nodes, rc, built := nodes + [n], rc + [0], built + [k];
    }

    /** Enters the node made for a record in the table. */
    method Register(off: int, j: nat)
      requires Tabled() && off in index && off !in seen && off >= 0 && |index| <= MOST_NODES
      modifies this`seen, table
      ensures Tabled() && seen == old(seen)[off := j]
    {
      hide SeenTable.Means, SeenTable.PowerOfTwo;
      forall x | x in seen.Keys ensures x in index.Keys {}
      SubsetSize(seen.Keys + {off}, index.Keys);
      table.Put(off, j);
      seen := seen[off := j];
    }

    /** Has the record been rebuilt, and where? */
    method Find(off: int) returns (found: bool, j: int)
      requires Source(ct, buf, recs, starts, index) && Tabled() && off in index
      ensures found <==> off in seen
      ensures found ==> j == seen[off]
    {
      hide Layout, RecAt, GoodNode, GoodFv, SeenTable.Means, SeenTable.PowerOfTwo;
      found, j := table.Get(off);
    }

    /** Rebuilds one value of the buffer; nodes made before the call are not touched. */
    method Rebuild(fv: Value) returns (out: Value)
      requires Valid() && GoodFv(recs, index, fv)
      modifies this, table
      ensures Valid() && Extends(old(seen), seen)
      ensures old(nodes) <= nodes && old(built) <= built
      ensures Placed(seen, fv) && out == Moved(seen, fv) && OwnValue(nodes, out)
      ensures WholeFrom(|old(nodes)|)
      decreases index.Keys - seen.Keys, 1
    {
      hide Source, Linked, Counts, Owned, PartAt, Tabled;
      if IsImmediate(fv.tag) { return fv; }
      var found, j := Find(fv.payload);
      if !found { j := RebuildNode(fv.payload); }
      LinkedValue(ct, buf, recs, starts, index, seen, built, nodes, fv);
      out := Value(fv.tag, j);
    }

    method RebuildNode(off: int) returns (j: nat)
      requires Valid() && off in index && off !in seen
      modifies this, table
      ensures Valid() && Extends(old(seen), seen) && off in seen && seen[off] == j
      ensures old(nodes) <= nodes && old(built) <= built
      ensures WholeFrom(|old(nodes)|)
      decreases index.Keys - seen.Keys, 0
    {
      hide Source, Counts, Owned, PartAt, Linked, Arity, RecAt, GoodNode, ReadHead, WholeAt, Tabled;
      ghost var k := index[off];
      var start := off / 8;
      SourceOffset(ct, buf, recs, starts, index, off);
      HeadRoundTrip(ct, buf, start, recs[k]);
      var head := ReadHead(ct, buf, start);
      j := NewNode(off, head, k);
      for t := 0 to Arity(head)
        invariant Valid() && off in seen && seen[off] == j && Extends(old(seen), seen)
        invariant |old(nodes)| == j < |nodes| && old(nodes) == nodes[..j]
        invariant old(built) <= built && j < |built| && built[j] == k
        invariant PartAt(recs, seen, built, nodes, j, t)
        invariant WholeFrom(j + 1)
      {
        UnbuiltShrinks(index, old(seen), seen, off);
        RebuildKid(j, start, head, t, k);
      }
      PartIsWhole(recs, seen, built, nodes, j);
    }

    /** Rebuilds kid `t` of node `j`, stores it and retains it. */
    method RebuildKid(j: nat, start: nat, head: Head, t: nat, ghost k: nat)
      requires Valid() && j < |nodes| && built[j] == k && k < |recs| && start == starts[k]
      requires head == recs[k].head && t < |recs[k].kids|
      requires PartAt(recs, seen, built, nodes, j, t) && WholeFrom(j + 1)
      modifies this, table
      ensures Valid() && Extends(old(seen), seen)
      ensures |old(nodes)| <= |nodes| && old(nodes)[..j] == nodes[..j] && old(built) <= built
      ensures PartAt(recs, seen, built, nodes, j, t + 1) && WholeFrom(j + 1)
      decreases index.Keys - seen.Keys, 3
    {
      hide Source, Counts, Owned, PartAt, Linked, Arity, Moved, OwnValue, WholeAt, Placed, Extends, Tabled;
      var child := BuildKid(j, start, head, t, k);
      StoreKid(j, head, t, k, child);
    }

    /** Reads kid `t` from the buffer and rebuilds it; node `j` stays as it was. */
    method BuildKid(j: nat, start: nat, head: Head, t: nat, ghost k: nat) returns (child: Value)
      requires Valid() && j < |nodes| && built[j] == k && k < |recs| && start == starts[k]
      requires head == recs[k].head && t < |recs[k].kids|
      requires PartAt(recs, seen, built, nodes, j, t) && WholeFrom(j + 1)
      modifies this, table
      ensures Valid() && Extends(old(seen), seen)
      ensures old(nodes) <= nodes && old(built) <= built && j < |built| && built[j] == k
      ensures PartAt(recs, seen, built, nodes, j, t) && WholeFrom(j + 1)
      ensures OwnValue(nodes, child) && Placed(seen, recs[k].kids[t]) && child == Moved(seen, recs[k].kids[t])
      decreases index.Keys - seen.Keys, 2
    {
      ghost var rec := recs[k];
      SourceAt(ct, buf, recs, starts, index, k);
      hide Source, Counts, Owned, PartAt, Linked, Arity, RecAt, GoodNode, ReadKid, Moved, GoodFv, OwnValue, Tabled;
      KidRoundTrip(buf, start, rec, t);
      var fv := ReadKid(buf, start, head, t);
      child := Rebuild(fv);
      ghost var seen0, built0, nodes0 := old(seen), old(built), old(nodes);
      WholeKept(j + 1, seen0, built0, nodes0);
      PartAtExtends(recs, seen0, seen, built0, built, nodes0, nodes, j, t);
    }

    /** The store and retain step alone. */
    method StoreKid(j: nat, head: Head, t: nat, ghost k: nat, child: Value)
      requires Valid() && j < |nodes| && built[j] == k && k < |recs|
      requires head == recs[k].head && t < |recs[k].kids|
      requires PartAt(recs, seen, built, nodes, j, t) && WholeFrom(j + 1)
      requires OwnValue(nodes, child) && Placed(seen, recs[k].kids[t]) && child == Moved(seen, recs[k].kids[t])
      modifies this`nodes, this`rc
      ensures Valid()
      ensures |old(nodes)| == |nodes| && old(nodes)[..j] == nodes[..j]
      ensures PartAt(recs, seen, built, nodes, j, t + 1) && WholeFrom(j + 1)
    {
      BuiltSize(ct, buf, recs, starts, index, seen, built, nodes, rc);
      hide Built, PartAt, Stored, WholeAt, OwnValue, Moved, Placed, Retained, Tabled, Arity, Linked, Source;
      StoreBuilt(ct, buf, recs, starts, index, seen, built, nodes, rc, j, t, child);
      var n := Stored(ct, head, nodes[j], t, child);
      WholeUpdate(recs, seen, built, nodes, j, nodes[j := n]);
      Write(j, n, Retained(ct, nodes, rc, child));
    }

    method Write(j: nat, n: Node, counts: seq<nat>)
      requires Tabled() && j < |nodes| && Built(ct, buf, recs, starts, index, seen, built, nodes[j := n], counts)
      modifies this`nodes, this`rc
      ensures Valid() && nodes == old(nodes)[j := n] && rc == counts
    {
      hide Built, Tabled;
      nodes, rc := nodes[j := n], counts;
    }

    lemma WholeKept(lo: nat, seen0: map<int, int>, built0: seq<nat>, nodes0: seq<Node>)
      requires forall x :: lo <= x < |nodes0| ==> WholeAt(recs, seen0, built0, nodes0, x)
      requires Extends(seen0, seen) && built0 <= built && nodes0 <= nodes && WholeFrom(|nodes0|)
      ensures WholeFrom(lo)
    {
      forall x | lo <= x < |nodes| ensures WholeAt(recs, seen, built, nodes, x) {
        if x < |nodes0| {
          assert WholeAt(recs, seen0, built0, nodes0, x);
          PartAtExtends(recs, seen0, seen, built0, built, nodes0, nodes, x, |recs[built[x]].kids|);
        }
      }
    }
  }

  lemma UnbuiltShrinks(index: map<int, nat>, m: map<int, int>, m': map<int, int>, off: int)
    requires Extends(m, m') && off in index && off !in m && off in m'
    ensures index.Keys - m'.Keys < index.Keys - m.Keys
  {
    assert off in index.Keys - m.Keys && off !in index.Keys - m'.Keys;
    forall x | x in index.Keys - m'.Keys ensures x in index.Keys - m.Keys {
      assert x !in m;
    }
  }

  lemma LinkedNew(ct: ClassTable, recs: seq<Node>, starts: seq<nat>, seen: map<int, int>, built: seq<nat>,
                  nodes: seq<Node>, off: int, k: nat, n: Node)
    requires Linked(ct, recs, starts, seen, built, nodes) && off !in seen
    requires k < |recs| && off == 8 * starts[k] && SameShape(ct, n, recs[k])
    ensures Linked(ct, recs, starts, seen[off := |nodes|], built + [k], nodes + [n])
  {
    hide SameShape;
  }

  /** A reference whose record has been rebuilt becomes a value of the receiving heap. */
  lemma LinkedValue(ct: ClassTable, buf: seq<Cell>, recs: seq<Node>, starts: seq<nat>, index: map<int, nat>,
                    seen: map<int, int>, built: seq<nat>, nodes: seq<Node>, fv: Value)
    requires Source(ct, buf, recs, starts, index)
    requires Linked(ct, recs, starts, seen, built, nodes) && GoodFv(recs, index, fv)
    requires IsRef(fv.tag) && fv.payload in seen
    ensures OwnValue(nodes, Value(fv.tag, seen[fv.payload]))
  {
    var j := seen[fv.payload];
    assert SameShape(ct, nodes[j], recs[built[j]]);
    hide SameShape, GoodNode, RecAt, GoodFv;
    assert starts[built[j]] == starts[index[fv.payload]];
    StartsDistinct(buf, recs, starts, built[j], index[fv.payload]);
  }

  lemma StartsDistinct(buf: seq<Cell>, recs: seq<Node>, starts: seq<nat>, i: nat, k: nat)
    requires Layout(buf, recs, starts) && i < |recs| && k < |recs| && starts[i] == starts[k]
    ensures i == k
  {
    hide RecAt;
  }

  lemma SourceAt(ct: ClassTable, buf: seq<Cell>, recs: seq<Node>, starts: seq<nat>, index: map<int, nat>, k: nat)
    requires Source(ct, buf, recs, starts, index) && k < |recs|
    ensures k < |starts| && RecAt(buf, starts[k], recs[k]) && GoodNode(ct, recs[k]) && |recs[k].kids| == Arity(recs[k].head)
    ensures forall i :: 0 <= i < |recs[k].kids| ==> GoodFv(recs, index, recs[k].kids[i])
  {}

  lemma LinkedSize(ct: ClassTable, recs: seq<Node>, starts: seq<nat>, seen: map<int, int>, built: seq<nat>, nodes: seq<Node>)
    requires Linked(ct, recs, starts, seen, built, nodes)
    ensures |built| == |nodes|
  {}

  lemma PartIsWhole(recs: seq<Node>, seen: map<int, int>, built: seq<nat>, nodes: seq<Node>, j: nat)
    requires j < |built| && built[j] < |recs| && PartAt(recs, seen, built, nodes, j, |recs[built[j]].kids|)
    ensures WholeAt(recs, seen, built, nodes, j)
  {}

  lemma WholeUpdate(recs: seq<Node>, seen: map<int, int>, built: seq<nat>, nodes: seq<Node>, j: nat, nodes': seq<Node>)
    requires j < |nodes'| == |nodes| && nodes'[j + 1..] == nodes[j + 1..]
    requires forall x :: j + 1 <= x < |nodes| ==> WholeAt(recs, seen, built, nodes, x)
    ensures forall x :: j + 1 <= x < |nodes| ==> WholeAt(recs, seen, built, nodes', x)
  {
    hide PartNode, AllPlaced;
    forall x | j + 1 <= x < |nodes| ensures WholeAt(recs, seen, built, nodes', x) {
      assert nodes'[j + 1..][x - j - 1] == nodes[j + 1..][x - j - 1];
      assert WholeAt(recs, seen, built, nodes, x);
    }
  }

  lemma SourceOffset(ct: ClassTable, buf: seq<Cell>, recs: seq<Node>, starts: seq<nat>, index: map<int, nat>, off: int)
    requires Source(ct, buf, recs, starts, index) && off in index
    ensures var k := index[off];
            k < |recs| == |starts| && off == 8 * starts[k] && RecAt(buf, starts[k], recs[k]) && GoodNode(ct, recs[k]) &&
            |recs[k].kids| == Arity(recs[k].head)
  {}

  lemma PlacedStep(m: map<int, int>, kids: seq<Value>, t: nat)
    requires t < |kids| && AllPlaced(m, kids[..t]) && Placed(m, kids[t])
    ensures AllPlaced(m, kids[..t + 1])
  {
    assert kids[..t + 1] == kids[..t] + [kids[t]];
  }

  lemma LinkedStore(ct: ClassTable, recs: seq<Node>, starts: seq<nat>, seen: map<int, int>, built: seq<nat>,
                    nodes: seq<Node>, j: nat, n: Node, t: nat)
    requires Linked(ct, recs, starts, seen, built, nodes) && j < |nodes|
    requires t < |recs[built[j]].kids| == Arity(recs[built[j]].head) && n == PartNode(recs[built[j]], seen, t + 1)
    ensures Linked(ct, recs, starts, seen, built, nodes[j := n])
    ensures HeadTag(n.head) == HeadTag(nodes[j].head) && Counted(ct, n.head) == Counted(ct, nodes[j].head)
  {
    ShapeOfPart(ct, recs[built[j]], seen, t + 1);
    assert SameShape(ct, nodes[j], recs[built[j]]);
    hide PartNode, Arity, HeadTag, Counted;
  }

  lemma OneMoreOwned(nodes: seq<Node>, j: nat, after: seq<Value>, v: Value)
    requires Owned(nodes) && j < |nodes| && OneMore(nodes[j].kids, after, v) && OwnValue(nodes, v)
    ensures forall i :: 0 <= i < |after| ==> OwnValue(nodes, after[i])
  {
    var before := nodes[j].kids;
    forall i | 0 <= i < |after| ensures OwnValue(nodes, after[i]) {
      assert after[i] in multiset(after);
      if after[i] != v {
        assert after[i] in multiset(before);
        assert after[i] in before;
      }
    }
  }

  lemma ShapeOfPart(ct: ClassTable, rec: Node, m: map<int, int>, t: nat)
    requires t <= |rec.kids| == Arity(rec.head)
    ensures SameShape(ct, PartNode(rec, m, t), rec)
  {
    hide PartNode;
  }

  lemma EmptyPart(ct: ClassTable, rec: Node, m: map<int, int>)
    requires |rec.kids| == Arity(rec.head)
    ensures PartNode(rec, m, 0) == Node(WithKeys(rec.head, []), seq(Positional(rec.head), _ => VOID))
    ensures SameShape(ct, PartNode(rec, m, 0), rec)
  {
    assert rec.kids[..0] == [];
    assert MovedAll(m, []) == [];
  }
}
