/**
 The size-class allocator: blocks of 16 << c bytes carved from one fixed region by a
 bump cursor, with a LIFO free list per class and a meter of live bytes. Addresses are
 offsets into the region; the intrusive links of a free list appear as a sequence.
 */
module Allocator {

  const HEAP_BYTES: nat := 0x1000_0000
  const SIZE_CLASSES: nat := 28

  function Size(c: nat): (n: nat)
    ensures n >= 16
  {
    if c == 0 then 16 else 2 * Size(c - 1)
  }

  lemma {:induction false} SizeMonotone(c: nat, d: nat)
    requires c < d
    ensures Size(c) < Size(d)
    decreases d - c
  {
    if c + 1 < d { SizeMonotone(c, d - 1); }
  }

  /** The least class that fits n bytes, capped at the last one. */
  predicate IsClassFor(n: int, c: nat) {
    c < SIZE_CLASSES && (n <= Size(c) || c == SIZE_CLASSES - 1) && (c > 0 ==> Size(c - 1) < n)
  }

  /** The class of a request is determined by its size alone. */
  lemma ClassUnique(n: int, c: nat, d: nat)
    requires IsClassFor(n, c) && IsClassFor(n, d)
    ensures c == d
  {
    if c < d {
      if c < d - 1 { SizeMonotone(c, d - 1); }
    } else if d < c {
      if d < c - 1 { SizeMonotone(d, c - 1); }
    }
  }

  method SizeClass(n: int) returns (c: nat, blockSize: nat)
    ensures IsClassFor(n, c) && blockSize == Size(c)
  {
    blockSize, c := 16, 0;
    while blockSize < n && c < SIZE_CLASSES - 1
      invariant c < SIZE_CLASSES && blockSize == Size(c) && (c > 0 ==> Size(c - 1) < n)
    {
      blockSize, c := 2 * blockSize, c + 1;
    }
  }

  // ------------------------------------------------------------------ the carving

  datatype Block = Block(addr: nat, class_: nat, free: bool)

  /** The carved blocks lie end to end from the region's start up to the cursor. */
  ghost predicate Tiled(bs: seq<Block>, cursor: nat) {
    && (if bs == [] then cursor == 0 else bs[0].addr == 0 && cursor == End(bs[|bs| - 1]))
    && (forall i :: 0 <= i < |bs| ==> bs[i].class_ < SIZE_CLASSES && End(bs[i]) <= HEAP_BYTES)
    && (forall i :: 0 <= i < |bs| - 1 ==> bs[i + 1].addr == End(bs[i]))
  }

  function End(b: Block): nat {
    b.addr + Size(b.class_)
  }

  /** Blocks of a tiling do not overlap. */
  lemma {:induction false} TiledDisjoint(bs: seq<Block>, cursor: nat, i: nat, j: nat)
    requires Tiled(bs, cursor) && i < j < |bs|
    ensures End(bs[i]) <= bs[j].addr
    decreases j - i
  {
    if i + 1 < j { TiledDisjoint(bs, cursor, i, j - 1); }
    assert bs[j - 1 + 1].addr == End(bs[j - 1]);
  }

  function Bytes(bs: seq<Block>): nat {
    if bs == [] then 0 else Bytes(bs[..|bs| - 1]) + (if bs[|bs| - 1].free then 0 else Size(bs[|bs| - 1].class_))
  }

  lemma {:induction false} BytesUpdate(bs: seq<Block>, i: nat, free: bool)
    requires i < |bs|
    ensures Bytes(bs[i := bs[i].(free := free)]) + (if bs[i].free then 0 else Size(bs[i].class_)) ==
            Bytes(bs) + (if free then 0 else Size(bs[i].class_))
  {
    var last := |bs| - 1;
    if i == last {
      assert bs[i := bs[i].(free := free)][..last] == bs[..last];
    } else {
      assert bs[i := bs[i].(free := free)][..last] == bs[..last][i := bs[i].(free := free)];
      BytesUpdate(bs[..last], i, free);
    }
  }

  /** Free list c holds exactly the free blocks of class c, each once. */
  ghost predicate ListOk(bs: seq<Block>, c: nat, list: seq<nat>) {
    && (forall i, j :: 0 <= i < j < |list| ==> list[i] != list[j])
    && (forall a :: a in list <==> exists k :: 0 <= k < |bs| && bs[k] == Block(a, c, true))
  }

  class Allocator {
    var cursor: nat
    var lists: seq<seq<nat>>
    var live: int
    var peak: int
    ghost var blocks: seq<Block>
    /** The objects made and not yet disposed of, by address. */
    ghost var shapes: map<int, Shape>

    ghost predicate Valid()
      reads this
    {
      && Tiled(blocks, cursor) && |lists| == SIZE_CLASSES
      && (forall c :: 0 <= c < SIZE_CLASSES ==> ListOk(blocks, c, lists[c]))
      && live == Bytes(blocks) && live <= peak
    }

    constructor ()
      ensures Valid() && blocks == [] && live == 0 && shapes == map[] && Shaped(blocks, shapes)
    {
      cursor, lists, live, peak, blocks, shapes := 0, seq(SIZE_CLASSES, _ => []), 0, 0, [], map[];
    }

    /** A constructor: reserves what an object of this shape needs. */
    method Make(s: Shape) returns (p: int)
      requires Valid() && Shaped(blocks, shapes)
      modifies this
      ensures Valid() && Shaped(blocks, shapes)
      ensures p != -1 ==> p !in old(shapes) && shapes == old(shapes)[p := s]
      ensures p == -1 ==> shapes == old(shapes) && blocks == old(blocks)
    {
      hide ListOk, Tiled, Bytes, Size, Shaped, IsClassFor;
      p := Alloc(Requested(s));
      if p != -1 {
        ghost var k: nat :| k < |blocks| && Taken(old(blocks), blocks, k, p, Requested(s));
        ShapedMake(old(blocks), blocks, cursor, shapes, k, p, s);
        shapes := shapes[p := s];
      }
    }

    /** A free: names the size found in the header, as the free walk does for this kind of object. */
    method Dispose(p: int, s: Shape)
      requires Valid() && Shaped(blocks, shapes) && p in shapes && shapes[p] == s
      modifies this
      ensures Valid() && Shaped(blocks, shapes) && shapes == old(shapes) - {p}
    {
      hide ListOk, Tiled, Bytes, Size, Shaped, IsClassFor, Requested, Returned;
      ghost var k := ShapedAt(blocks, shapes, p);
      FreeUsesItsClass(s, blocks[k].class_);
      Release(p, Returned(s), k);
      ShapedDispose(old(blocks), cursor, shapes, k, p);
      shapes := shapes - {p};
    }

    /**
     Takes a block for `req` bytes: reuses the head of its class's free list or carves a new
     block; fails only when the region is exhausted. Despite the cap on classes the block is
     always large enough.
     */
    method Alloc(req: int) returns (p: int)
      requires Valid()
      modifies this`cursor, this`lists, this`live, this`peak, this`blocks
      ensures Valid()
      ensures forall c: nat :: IsClassFor(req, c) ==> (p == -1 <==> old(lists)[c] == [] && old(cursor) + Size(c) > HEAP_BYTES)
      ensures p == -1 ==> blocks == old(blocks) && lists == old(lists) && cursor == old(cursor) && live == old(live)
      ensures p != -1 ==> p >= 0
      ensures p >= 0 ==> exists k: nat :: k < |blocks| && Taken(old(blocks), blocks, k, p, req) && live == old(live) + Size(blocks[k].class_)
    {
      hide ListOk, Tiled, Bytes, Size;
      var c, size := SizeClass(req);
      forall d: nat | IsClassFor(req, d) ensures d == c { ClassUnique(req, c, d); }
      if lists[c] != [] {
        p := lists[c][0];
        Reuse(c, p, req);
        ghost var k: nat :| k < |old(blocks)| && old(blocks)[k] == Block(p, c, true) && blocks == old(blocks)[k := Block(p, c, false)];
        assert Taken(old(blocks), blocks, k, p, req);
      } else if cursor + size > HEAP_BYTES {
        return -1;
      } else {
        p := cursor;
        Carve(c, req);
        assert Taken(old(blocks), blocks, |old(blocks)|, p, req);
      }
      live := live + size;
      if live > peak { peak := live; }
    }

    /** Pops a free block; the meter is brought up to date by the caller. */
    method Reuse(c: nat, p: nat, ghost req: int)
      requires Valid() && IsClassFor(req, c) && lists[c] != [] && p == lists[c][0]
      modifies this`lists, this`blocks
      ensures Tiled(blocks, cursor) && |lists| == SIZE_CLASSES && (forall d :: 0 <= d < SIZE_CLASSES ==> ListOk(blocks, d, lists[d]))
      ensures Bytes(blocks) == live + Size(c) && req <= Size(c)
      ensures exists k :: 0 <= k < |old(blocks)| && old(blocks)[k] == Block(p, c, true) && blocks == old(blocks)[k := Block(p, c, false)]
    {
      hide ListOk, Tiled, Bytes, Size;
      ghost var k := HeadBlock(blocks, c, lists[c]);
      CappedFits(blocks, cursor, k, req);
      BytesUpdate(blocks, k, false);
      ghost var bs := blocks[k := Block(p, c, false)];
      TiledUpdate(blocks, cursor, k, false);
      forall d | 0 <= d < SIZE_CLASSES ensures ListOk(bs, d, if d == c then lists[c][1..] else lists[d]) {
        assert ListOk(blocks, d, lists[d]);
        ListPop(blocks, cursor, k, d, lists[d]);
      }
      blocks := bs;
      lists := lists[c := lists[c][1..]];
    }

    method Carve(c: nat, ghost req: int)
      requires Valid() && IsClassFor(req, c) && lists[c] == [] && cursor + Size(c) <= HEAP_BYTES
      modifies this`cursor, this`blocks
      ensures Tiled(blocks, cursor) && (forall d :: 0 <= d < SIZE_CLASSES ==> ListOk(blocks, d, lists[d]))
      ensures Bytes(blocks) == live + Size(c) && req <= Size(c)
      ensures blocks == old(blocks) + [Block(old(cursor), c, false)]
    {
      LastClassTooBig();
      ghost var b := Block(cursor, c, false);
      assert (blocks + [b])[..|blocks|] == blocks;
      forall d | 0 <= d < SIZE_CLASSES ensures ListOk(blocks + [b], d, lists[d]) {
        assert ListOk(blocks, d, lists[d]);
        ListGrow(blocks, d, lists[d], b);
      }
      blocks := blocks + [b];
      cursor := cursor + Size(c);
    }

    /** Returns the block at `p`; `req` must be of the class the block was allocated with. */
    method Release(p: int, req: int, ghost k: nat)
      requires Valid() && k < |blocks| && blocks[k].addr == p && !blocks[k].free && IsClassFor(req, blocks[k].class_)
      modifies this`lists, this`live, this`blocks
      ensures Valid() && blocks == old(blocks)[k := old(blocks)[k].(free := true)]
      ensures live == old(live) - Size(old(blocks)[k].class_)
    {
      BlockInRegion(blocks, cursor, k);
      if !(0 <= p < HEAP_BYTES) { return; }
      var c, size := SizeClass(req);
      ClassUnique(req, c, blocks[k].class_);
      ghost var bs := blocks[k := blocks[k].(free := true)];
      BytesUpdate(blocks, k, true);
      TiledUpdate(blocks, cursor, k, true);
      forall d | 0 <= d < SIZE_CLASSES ensures ListOk(bs, d, if d == c then [p as nat] + lists[c] else lists[d]) {
        assert ListOk(blocks, d, lists[d]);
        ListPush(blocks, cursor, k, d, lists[d]);
      }
      live := live - size;
      lists := lists[c := [p as nat] + lists[c]];
      blocks := bs;
    }
  }

  /** Block k at address p has been taken for `req` bytes: a free block reused or a new one at the end. */
  ghost predicate Taken(bs: seq<Block>, bs': seq<Block>, k: nat, p: int, req: int) {
    && k < |bs'| && bs'[k].addr == p && !bs'[k].free && IsClassFor(req, bs'[k].class_) && req <= Size(bs'[k].class_)
    && (if k < |bs| then bs[k].free && bs[k].addr == p && bs' == bs[k := bs'[k]] else bs' == bs + [bs'[k]])
  }

  // ---------------------------------------------------------------- list lemmas

  lemma HeadBlock(bs: seq<Block>, c: nat, list: seq<nat>) returns (k: nat)
    requires ListOk(bs, c, list) && list != []
    ensures k < |bs| && bs[k] == Block(list[0], c, true)
  {
    assert list[0] in list;
    k :| 0 <= k < |bs| && bs[k] == Block(list[0], c, true);
  }

  lemma TiledUpdate(bs: seq<Block>, cursor: nat, k: nat, free: bool)
    requires Tiled(bs, cursor) && k < |bs|
    ensures Tiled(bs[k := bs[k].(free := free)], cursor)
  {
    var bs' := bs[k := bs[k].(free := free)];
    forall i | 0 <= i < |bs'| - 1 ensures bs'[i + 1].addr == End(bs'[i]) {
      assert bs[i + 1].addr == End(bs[i]);
    }
  }

  lemma SameAddr(bs: seq<Block>, cursor: nat, i: nat, j: nat)
    requires Tiled(bs, cursor) && i < |bs| && j < |bs| && bs[i].addr == bs[j].addr
    ensures i == j
  {
    if i < j { TiledDisjoint(bs, cursor, i, j); }
    if j < i { TiledDisjoint(bs, cursor, j, i); }
  }

  lemma BlockInRegion(bs: seq<Block>, cursor: nat, k: nat)
    requires Tiled(bs, cursor) && k < |bs|
    ensures bs[k].addr < HEAP_BYTES && bs[k].class_ < SIZE_CLASSES
  {}

  lemma LastClassTooBig()
    ensures Size(SIZE_CLASSES - 1) > HEAP_BYTES
  {
    SizeAt24();
    SizeMonotone(24, SIZE_CLASSES - 1);
  }

  lemma SizeAt24()
    ensures Size(24) == HEAP_BYTES
  {
    assert Size(4) == 0x100;
    assert Size(8) == 0x1000;
    assert Size(12) == 0x1_0000;
    assert Size(16) == 0x10_0000;
    assert Size(20) == 0x100_0000;
  }

  /** A block that exists is not of the capped class, so its class fits the request. */
  lemma CappedFits(bs: seq<Block>, cursor: nat, k: nat, req: int)
    requires Tiled(bs, cursor) && k < |bs| && IsClassFor(req, bs[k].class_)
    ensures req <= Size(bs[k].class_)
  {
    LastClassTooBig();
    assert End(bs[k]) <= HEAP_BYTES;
  }

  lemma ListPop(bs: seq<Block>, cursor: nat, k: nat, d: nat, list: seq<nat>)
    requires Tiled(bs, cursor) && k < |bs| && bs[k].free && ListOk(bs, d, list)
    requires d == bs[k].class_ ==> list != [] && list[0] == bs[k].addr
    ensures ListOk(bs[k := bs[k].(free := false)], d, if d == bs[k].class_ then list[1..] else list)
  {
    var bs' := bs[k := bs[k].(free := false)];
    var list' := if d == bs[k].class_ then list[1..] else list;
    forall a ensures a in list' <==> exists i :: 0 <= i < |bs'| && bs'[i] == Block(a, d, true) {
      if a in list' {
        assert a in list;
        var i :| 0 <= i < |bs| && bs[i] == Block(a, d, true);
        assert bs'[i] == bs[i];
      }
      if i :| 0 <= i < |bs'| && bs'[i] == Block(a, d, true) {
        assert bs[i] == bs'[i] && a in list;
        if a == bs[k].addr { SameAddr(bs, cursor, i, k); }
      }
    }
  }

  lemma ListPush(bs: seq<Block>, cursor: nat, k: nat, d: nat, list: seq<nat>)
    requires Tiled(bs, cursor) && k < |bs| && !bs[k].free && ListOk(bs, d, list)
    ensures ListOk(bs[k := bs[k].(free := true)], d, if d == bs[k].class_ then [bs[k].addr] + list else list)
  {
    var bs' := bs[k := bs[k].(free := true)];
    var list' := if d == bs[k].class_ then [bs[k].addr] + list else list;
    if bs[k].addr in list {
      var i :| 0 <= i < |bs| && bs[i] == Block(bs[k].addr, d, true);
      SameAddr(bs, cursor, i, k);
    }
    forall a ensures a in list' <==> exists i :: 0 <= i < |bs'| && bs'[i] == Block(a, d, true) {
      if a in list' {
        if a in list {
          var i :| 0 <= i < |bs| && bs[i] == Block(a, d, true);
          assert bs'[i] == bs[i];
        } else {
          assert bs'[k] == Block(a, d, true);
        }
      }
      if i :| 0 <= i < |bs'| && bs'[i] == Block(a, d, true) {
        if i != k { assert bs[i] == bs'[i] && a in list; }
      }
    }
  }

  lemma ListGrow(bs: seq<Block>, d: nat, list: seq<nat>, b: Block)
    requires ListOk(bs, d, list) && !b.free
    ensures ListOk(bs + [b], d, list)
  {
    var bs' := bs + [b];
    forall a ensures a in list <==> exists i :: 0 <= i < |bs'| && bs'[i] == Block(a, d, true) {
      if a in list {
        var i :| 0 <= i < |bs| && bs[i] == Block(a, d, true);
        assert bs'[i] == bs[i];
      }
      if i :| 0 <= i < |bs'| && bs'[i] == Block(a, d, true) { assert bs[i] == bs'[i]; }
    }
  }

  // -------------------------------------------------- sizes used by constructors

  /** The heap objects and what their constructors reserve. */
  datatype Shape =
    | ObjectOf(nslots: nat) | ClosureBody | StringOf(len: nat) | MapOf(len: nat) | ProxyCell
    | BoxedOf(cap: nat) | RowsOf(len: nat, recBytes: nat) | ColumnsOf(len: nat, fields: nat) | ListNode
    | BlockHandle | BlockBytes(size: nat)

  /** Bytes requested when the object is made: the body plus its 16-byte header, if it has one. */
  function Requested(s: Shape): nat {
    match s
    case ObjectOf(n) => 16 + 16 * n + 16
    case ClosureBody => 16 + 16
    case StringOf(n) => 8 + n + 1 + 16
    case MapOf(n) => 8 + 32 * n + 16
    case ProxyCell => 16 + 16
    case BoxedOf(cap) => 8 + 16 * cap + 16
    case RowsOf(n, r) => 16 + n * r + 16
    case ColumnsOf(n, f) => 16 + f * 8 * n + 16
    case ListNode => 32
    case BlockHandle => 32 + 16
    case BlockBytes(n) => n + 16
  }

  /** The header's second word: the total size, except that a boxed array keeps its capacity there. */
  function Meta(s: Shape): nat {
    if s.BoxedOf? then s.cap else Requested(s)
  }

  /** Bytes named when the object is freed. */
  function Returned(s: Shape): nat {
    match s
    case BoxedOf(_) => 24 + 16 * Meta(s)
    case ListNode => 32
    case _ => Meta(s)
  }

  /** Every free names the class its allocation used, so the meter cannot drift. */
  lemma FreeUsesItsClass(s: Shape, c: nat)
    requires IsClassFor(Requested(s), c)
    ensures IsClassFor(Returned(s), c)
  {}

  /** The allocated blocks are those of the objects made, each of its object's class. */
  ghost predicate Shaped(bs: seq<Block>, shapes: map<int, Shape>) {
    && (forall k :: 0 <= k < |bs| && !bs[k].free ==> bs[k].addr in shapes && IsClassFor(Requested(shapes[bs[k].addr]), bs[k].class_))
    && (forall p :: p in shapes ==> Allocated(bs, p))
  }

  ghost predicate Allocated(bs: seq<Block>, p: int) {
    exists k :: 0 <= k < |bs| && bs[k].addr == p && !bs[k].free
  }

  lemma ShapedAt(bs: seq<Block>, shapes: map<int, Shape>, p: int) returns (k: nat)
    requires Shaped(bs, shapes) && p in shapes
    ensures k < |bs| && bs[k].addr == p && !bs[k].free && IsClassFor(Requested(shapes[p]), bs[k].class_)
  {
    assert Allocated(bs, p);
    k :| 0 <= k < |bs| && bs[k].addr == p && !bs[k].free;
  }

  lemma ShapedMake(bs: seq<Block>, bs': seq<Block>, cursor: nat, shapes: map<int, Shape>, k: nat, p: int, s: Shape)
    requires Shaped(bs, shapes) && Tiled(bs', cursor) && k < |bs'| && Taken(bs, bs', k, p, Requested(s))
    ensures p !in shapes && Shaped(bs', shapes[p := s])
  {
    hide Size, IsClassFor, Requested;
    assert bs'[k].addr == p;
    forall j | 0 <= j < |bs'| && j != k ensures bs'[j].addr != p && j < |bs| && bs'[j] == bs[j] {
      Apart(bs', cursor, j, k);
    }
    forall q | q in shapes ensures q != p {
      var j := ShapedAt(bs, shapes, q);
      assert j < |bs'| && j != k;
    }
    forall q | q in shapes[p := s] ensures Allocated(bs', q) {
      if q != p {
        var j := ShapedAt(bs, shapes, q);
        assert bs'[j] == bs[j];
      }
    }
  }

  lemma ShapedDispose(bs: seq<Block>, cursor: nat, shapes: map<int, Shape>, k: nat, p: int)
    requires Shaped(bs, shapes) && Tiled(bs, cursor) && k < |bs| && bs[k].addr == p
    ensures Shaped(bs[k := bs[k].(free := true)], shapes - {p})
  {
    hide Size, IsClassFor, Requested;
    var bs' := bs[k := bs[k].(free := true)];
    forall j | 0 <= j < |bs| && j != k ensures bs[j].addr != p {
      Apart(bs, cursor, j, k);
    }
    forall q | q in shapes - {p} ensures Allocated(bs', q) {
      var j := ShapedAt(bs, shapes, q);
      assert bs'[j] == bs[j];
    }
  }

  lemma Apart(bs: seq<Block>, cursor: nat, i: nat, j: nat)
    requires Tiled(bs, cursor) && i < |bs| && j < |bs| && i != j
    ensures bs[i].addr != bs[j].addr
  {
    if i < j { TiledDisjoint(bs, cursor, i, j); } else { TiledDisjoint(bs, cursor, j, i); }
  }

  /** Once every object has been disposed of the meter reads zero: it has not drifted. */
  lemma {:induction false} NothingLive(bs: seq<Block>)
    requires Shaped(bs, map[])
    ensures Bytes(bs) == 0
    decreases |bs|
  {
    if bs != [] {
      var p := bs[..|bs| - 1];
      assert bs[|bs| - 1].free;
      forall k | 0 <= k < |p| ensures p[k].free { assert p[k] == bs[k]; }
      NothingLive(p);
    }
  }
}
