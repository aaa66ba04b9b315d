/**
 The value graph of the Leviathan runtime: tagged two-word values, heap nodes
 and the reference edges between them.

 A node is split into a `Head` (its kind and everything that is not a reference)
 and `kids`, the values it holds in the order in which the runtime walks them.
 The same datatype describes a heap node (a kid's payload is an address) and a
 record of the transfer buffer (a kid's payload is a byte offset).
 */
module Values {
  import opened Util

  datatype Tag = Void | Int | Float | Bool | Str | Obj | Arr | Map | None | Clo | Char | Block | WeakProxy

  datatype Value = Value(tag: Tag, payload: int)

  const VOID: Value := Value(Void, 0)
  const NONE: Value := Value(Tag.None, 0)

  type Byte = b: int | 0 <= b < 256
  type Key = string

  predicate IsImmediate(t: Tag) {
    t.Void? || t.Int? || t.Float? || t.Bool? || t.None? || t.Char?
  }

  /** The tags whose payload names a node that can be copied to another thread. */
  predicate IsRef(t: Tag) {
    t.Str? || t.Obj? || t.Arr? || t.Map? || t.Clo?
  }

  datatype Head =
    | StrH(text: seq<Byte>)
    | ObjH(classId: int, nslots: nat, keys: seq<Key>)
    | BoxedH(len: nat)
    | DenseH(len: nat, recWords: nat, words: seq<int>)
    | ColumnarH(classId: int, len: nat, words: seq<int>)
    | MapH(len: nat)
    | CloH(fnIndex: int, keys: seq<Key>)

  datatype Node = Node(head: Head, kids: seq<Value>)

  type Heap = map<int, Node>

  function HeadTag(h: Head): Tag {
    match h
    case StrH(_) => Str
    case ObjH(_, _, _) => Obj
    case BoxedH(_) => Arr
    case DenseH(_, _, _) => Arr
    case ColumnarH(_, _, _) => Arr
    case MapH(_) => Map
    case CloH(_, _) => Clo
  }

  /** Kids stored by position: static slots, array elements, map keys and values alternately. */
  function Positional(h: Head): nat {
    match h
    case ObjH(_, n, _) => n
    case BoxedH(n) => n
    case MapH(n) => 2 * n
    case _ => 0
  }

  /** Keys of the linked fallback list (dynamic fields, closure captures), list head first. */
  function Keys(h: Head): seq<Key> {
    match h
    case ObjH(_, _, keys) => keys
    case CloH(_, keys) => keys
    case _ => []
  }

  function Arity(h: Head): nat {
    Positional(h) + |Keys(h)|
  }

  function WithKeys(h: Head, keys: seq<Key>): Head {
    match h
    case ObjH(c, n, _) => ObjH(c, n, keys)
    case CloH(f, _) => CloH(f, keys)
    case _ => h
  }

  // ---------------------------------------------------------------- classes

  datatype ClassInfo = ClassInfo(slotNames: seq<Key>, isValue: bool, ancestors: set<string>)

  type ClassTable = map<int, ClassInfo>

  function FieldCount(ct: ClassTable, c: int): nat {
    if c in ct then |ct[c].slotNames| else 0
  }

  predicate IsValueClass(ct: ClassTable, c: int) {
    c in ct && ct[c].isValue
  }

  predicate ClassIs(ct: ClassTable, c: int, name: string) {
    c in ct && name in ct[c].ancestors
  }

  predicate IsSlotName(ct: ClassTable, c: int, key: Key) {
    c in ct && key in ct[c].slotNames
  }

  /** A counted node carries a reference count; a value struct never does. */
  predicate Counted(ct: ClassTable, h: Head) {
    h.ObjH? ==> !IsValueClass(ct, h.classId)
  }

  /** First match in list order, as the linked-list walk finds it. */
  function FindKey(keys: seq<Key>, key: Key): (i: nat)
    ensures i <= |keys|
    ensures i < |keys| ==> keys[i] == key
    ensures forall j :: 0 <= j < i ==> keys[j] != key
  {
    if keys == [] || keys[0] == key then 0 else 1 + FindKey(keys[1..], key)
  }

  function FindSlot(ct: ClassTable, h: Head, key: Key): (i: nat)
    ensures i <= Positional(h)
  {
    if h.ObjH? && h.classId in ct && FindKey(ct[h.classId].slotNames, key) < h.nslots
    then FindKey(ct[h.classId].slotNames, key) else Positional(h)
  }

  /** Field or capture read: a declared slot wins, then the list, then VOID. */
  function GetField(ct: ClassTable, n: Node, key: Key): Value
    requires |n.kids| == Arity(n.head)
  {
    var s := FindSlot(ct, n.head, key);
    if s < Positional(n.head) then n.kids[s]
    else
      var i := FindKey(Keys(n.head), key);
      if i < |Keys(n.head)| then n.kids[Positional(n.head) + i] else VOID
  }

  /** Field or capture write: a declared slot, else overwrite in the list, else prepend. */
  function SetField(ct: ClassTable, n: Node, key: Key, v: Value): Node
    requires |n.kids| == Arity(n.head)
    requires n.head.ObjH? || n.head.CloH?
  {
    var p := Positional(n.head);
    var s := FindSlot(ct, n.head, key);
    if s < p then n.(kids := n.kids[s := v])
    else
      var i := FindKey(Keys(n.head), key);
      if i < |Keys(n.head)| then n.(kids := n.kids[p + i := v])
      else Node(WithKeys(n.head, [key] + Keys(n.head)), n.kids[..p] + [v] + n.kids[p..])
  }

  // ---------------------------------------------------------- well-formed heaps

  const LEN_LIMIT: int := 0x4000_0000_0000_0000

  /** What the constructors and `SetField` establish for every node. */
  predicate GoodHead(ct: ClassTable, h: Head) {
    match h
    case StrH(_) => true
    case ObjH(c, n, keys) =>
      n == FieldCount(ct, c) && Distinct(keys) && forall i :: 0 <= i < |keys| ==> !IsSlotName(ct, c, keys[i])
    case BoxedH(n) => n < LEN_LIMIT
    case DenseH(n, r, ws) => n < LEN_LIMIT && |ws| == n * r
    case ColumnarH(c, n, ws) => n < LEN_LIMIT && |ws| == FieldCount(ct, c) * n
    case MapH(_) => true
    case CloH(_, keys) => Distinct(keys)
  }

  predicate GoodNode(ct: ClassTable, n: Node) {
    GoodHead(ct, n.head) && |n.kids| == Arity(n.head)
  }

  predicate GoodValue(heap: Heap, v: Value) {
    IsRef(v.tag) ==> v.payload in heap && HeadTag(heap[v.payload].head) == v.tag
  }

  /** Nodes take at least sixteen bytes each of a 64-bit address space. */
  const MOST_NODES: nat := 0x1000_0000_0000_0000

  ghost predicate GoodHeap(ct: ClassTable, heap: Heap) {
    && 0 !in heap && |heap| <= MOST_NODES
    && forall a :: a in heap ==> GoodNode(ct, heap[a]) && forall i :: 0 <= i < |heap[a].kids| ==> GoodValue(heap, heap[a].kids[i])
  }

  lemma FindKeyIs(keys: seq<Key>, key: Key, i: nat)
    requires i <= |keys| && (i < |keys| ==> keys[i] == key) && forall j :: 0 <= j < i ==> keys[j] != key
    ensures FindKey(keys, key) == i
  {
    hide FindKey;
  }

  /** A field written is read back, every other field reads as before, and the node stays well formed. */
  lemma GetAfterSet(ct: ClassTable, n: Node, key: Key, v: Value, probe: Key)
    requires GoodNode(ct, n) && (n.head.ObjH? || n.head.CloH?)
    ensures GoodNode(ct, SetField(ct, n, key, v))
    ensures GetField(ct, SetField(ct, n, key, v), probe) == if key == probe then v else GetField(ct, n, probe)
  {
    var p, keys := Positional(n.head), Keys(n.head);
    NotShared(ct, n.head, key, probe);
    if FindSlot(ct, n.head, key) == p && FindKey(keys, key) == |keys| {
      SetAddsKey(ct, n, key, v, probe);
    } else {
      hide FindKey, FindSlot, Positional, GoodHead, Keys;
      var q := if FindSlot(ct, n.head, key) < p then FindSlot(ct, n.head, key) else p + FindKey(keys, key);
      assert SetField(ct, n, key, v) == n.(kids := n.kids[q := v]);
      hide SetField;
    }
  }

  /** The case in which the key is new to the list. */
  lemma SetAddsKey(ct: ClassTable, n: Node, key: Key, v: Value, probe: Key)
    requires GoodNode(ct, n) && (n.head.ObjH? || n.head.CloH?)
    requires FindSlot(ct, n.head, key) == Positional(n.head) && FindKey(Keys(n.head), key) == |Keys(n.head)|
    ensures GoodNode(ct, SetField(ct, n, key, v))
    ensures GetField(ct, SetField(ct, n, key, v), probe) == if key == probe then v else GetField(ct, n, probe)
  {
    hide FindSlot, Positional, Keys, WithKeys, GoodHead, FindKey, SetField, With, IsSlotName;
    var p, keys := Positional(n.head), Keys(n.head);
    var keys' := [key] + keys;
    AddedIs(ct, n, key, v);
    NotASlot(ct, n.head, key);
    GoodAdded(ct, n.head, key);
    SameSlots(ct, n.head, keys');
    FindAdded(keys, key, probe);
    var n' := SetField(ct, n, key, v);
    ReadAdded(n.kids, n'.kids, p, v, FindSlot(ct, n.head, probe), FindKey(keys, probe));
  }

  lemma FindAdded(keys: seq<Key>, key: Key, probe: Key)
    ensures FindKey([key] + keys, probe) == if key == probe then 0 else FindKey(keys, probe) + 1
  {
    FindKeyIs([key] + keys, probe, if key == probe then 0 else FindKey(keys, probe) + 1);
  }

  lemma AddedIs(ct: ClassTable, n: Node, key: Key, v: Value)
    requires GoodNode(ct, n) && (n.head.ObjH? || n.head.CloH?)
    requires FindSlot(ct, n.head, key) == Positional(n.head) && FindKey(Keys(n.head), key) == |Keys(n.head)|
    ensures var p, n' := Positional(n.head), SetField(ct, n, key, v);
            n'.head == WithKeys(n.head, [key] + Keys(n.head)) && With(n.kids, n'.kids, p, v)
  {
    hide FindSlot, FindKey, Positional, Keys, WithKeys, GoodHead;
  }

  /** `kids'` is `kids` with `v` put in at p. */
  ghost predicate With(kids: seq<Value>, kids': seq<Value>, p: nat, v: Value) {
    p <= |kids| && kids' == kids[..p] + [v] + kids[p..]
  }

  lemma ReadAdded(kids: seq<Value>, kids': seq<Value>, p: nat, v: Value, s: nat, j: nat)
    requires With(kids, kids', p, v)
    ensures |kids'| == |kids| + 1 && kids'[p] == v
    ensures s < p ==> kids'[s] == kids[s]
    ensures p + j < |kids| ==> kids'[p + (j + 1)] == kids[p + j]
  {
    Inserted(kids, p, v, p);
    if s < p { Inserted(kids, p, v, s); }
    if p + j < |kids| { Inserted(kids, p, v, p + j + 1); }
  }

  lemma Inserted(kids: seq<Value>, p: nat, v: Value, k: nat)
    requires p <= |kids| && k <= |kids|
    ensures (kids[..p] + [v] + kids[p..])[k] == if k < p then kids[k] else if k == p then v else kids[k - 1]
  {
  }

  lemma GoodAdded(ct: ClassTable, h: Head, key: Key)
    requires GoodHead(ct, h) && (h.ObjH? || h.CloH?) && FindKey(Keys(h), key) == |Keys(h)|
    requires h.ObjH? ==> !IsSlotName(ct, h.classId, key)
    ensures var h' := WithKeys(h, [key] + Keys(h)); GoodHead(ct, h') && Keys(h') == [key] + Keys(h) && Arity(h') == Arity(h) + 1
  {
    hide FindKey;
  }

  lemma SameSlots(ct: ClassTable, h: Head, keys: seq<Key>)
    requires h.ObjH? || h.CloH?
    ensures Positional(WithKeys(h, keys)) == Positional(h)
    ensures forall key :: FindSlot(ct, WithKeys(h, keys), key) == FindSlot(ct, h, key)
  {
  }

  lemma NotASlot(ct: ClassTable, h: Head, key: Key)
    requires GoodHead(ct, h) && (h.ObjH? || h.CloH?) && FindSlot(ct, h, key) == Positional(h)
    ensures h.ObjH? ==> !IsSlotName(ct, h.classId, key)
  {
  }

  /** Two keys that find the same place are the same key. */
  lemma NotShared(ct: ClassTable, h: Head, key: Key, probe: Key)
    requires GoodHead(ct, h)
    ensures FindSlot(ct, h, key) == FindSlot(ct, h, probe) < Positional(h) ==> key == probe
    ensures FindKey(Keys(h), key) == FindKey(Keys(h), probe) < |Keys(h)| ==> key == probe
  {
  }

  // ------------------------------------------------------------- reachability

  ghost predicate Edge(heap: Heap, a: int, b: int) {
    a in heap && exists i :: 0 <= i < |heap[a].kids| && IsRef(heap[a].kids[i].tag) && heap[a].kids[i].payload == b
  }

  lemma EdgeAt(heap: Heap, a: int, i: nat)
    requires a in heap && i < |heap[a].kids| && IsRef(heap[a].kids[i].tag)
    ensures Edge(heap, a, heap[a].kids[i].payload)
  {}

  ghost predicate Path(heap: Heap, p: seq<int>) {
    |p| > 0 && forall i :: 0 <= i < |p| - 1 ==> Edge(heap, p[i], p[i + 1])
  }

  ghost predicate Reachable(heap: Heap, a: int, b: int) {
    exists p :: Path(heap, p) && p[0] == a && p[|p| - 1] == b
  }

  lemma ReachableSelf(heap: Heap, a: int)
    ensures Reachable(heap, a, a)
  {
    assert Path(heap, [a]);
  }

  lemma ReachableStep(heap: Heap, a: int, b: int, c: int)
    requires Edge(heap, a, b) && Reachable(heap, b, c)
    ensures Reachable(heap, a, c)
  {
    var p :| Path(heap, p) && p[0] == b && p[|p| - 1] == c;
    var q := [a] + p;
    forall i | 0 <= i < |q| - 1 ensures Edge(heap, q[i], q[i + 1]) {
      if i > 0 { assert Edge(heap, p[i - 1], p[i]); }
    }
    assert Path(heap, q);
  }

  /** A set of nodes closed under edges holds everything reachable from its members. */
  lemma ReachableInClosed(heap: Heap, s: set<int>, a: int, b: int)
    requires a in s && Reachable(heap, a, b)
    requires forall x, y :: x in s && Edge(heap, x, y) ==> y in s
    ensures b in s
  {
    var p :| Path(heap, p) && p[0] == a && p[|p| - 1] == b;
    var k := 0;
    while k < |p| - 1
      invariant 0 <= k <= |p| - 1
      invariant p[k] in s
    {
      assert Edge(heap, p[k], p[k + 1]);
      k := k + 1;
    }
  }
}
