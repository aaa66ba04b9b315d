/**
 Word-level layout of the relocatable transfer buffer. A buffer is a sequence of
 8-byte cells: a four-cell header followed by 16-byte aligned records. A cell
 holds an integer word, an interned key pointer, or up to eight bytes of text.
 */
module FlatBuffer {
  import opened Values

  datatype Cell = W(word: int) | K(key: Key) | B(bytes: seq<Byte>)

  const HEADER_CELLS: nat := 4
  const DENSE_BIT: int := -0x8000_0000_0000_0000
  const TOP_BITS: int := -0x4000_0000_0000_0000

  function TagCode(t: Tag): int {
    match t
    case Void => 0 case Int => 1 case Float => 2 case Bool => 3 case Str => 4
    case Obj => 5 case Arr => 6 case Map => 7 case None => 8 case Clo => 9
    case Char => 10 case Block => 11 case WeakProxy => 12
  }

  function TagOf(c: int): Tag {
    if c == 1 then Int else if c == 2 then Float else if c == 3 then Bool
    else if c == 4 then Str else if c == 5 then Obj else if c == 6 then Arr
    else if c == 7 then Map else if c == 8 then Tag.None else if c == 9 then Clo
    else if c == 10 then Char else if c == 11 then Block else if c == 12 then WeakProxy
    else Void
  }

  function RecBytes(h: Head): nat {
    match h
    case StrH(t) => 24 + |t|
    case ObjH(_, n, keys) => 40 + 16 * n + 24 * |keys|
    case BoxedH(n) => 24 + 16 * n
    case DenseH(_, _, ws) => 32 + 8 * |ws|
    case ColumnarH(_, _, ws) => 32 + 8 * |ws|
    case MapH(n) => 24 + 32 * n
    case CloH(_, keys) => 32 + 24 * |keys|
  }

  /** Cells of a record once its byte count is rounded up to a multiple of 16. */
  function RecCells(h: Head): (c: nat)
    ensures c % 2 == 0 && RecBytes(h) <= 8 * c < RecBytes(h) + 16
  {
    2 * ((RecBytes(h) + 15) / 16)
  }

  /** The length word of a record: element count with the layout in its top two bits. */
  function Word2(h: Head): int {
    match h
    case StrH(t) => |t|
    case ObjH(c, _, _) => c
    case BoxedH(n) => n
    case DenseH(n, _, _) => n + DENSE_BIT
    case ColumnarH(_, n, _) => n + TOP_BITS
    case MapH(n) => n
    case CloH(f, _) => f
  }

  /** Position of kid `i`'s tag cell inside its record; its payload cell follows. */
  function KidCell(h: Head, i: nat): nat
    requires i < Arity(h)
  {
    match h
    case ObjH(_, n, _) => if i < n then 4 + 2 * i else 5 + 2 * n + 3 * (i - n) + 1
    case CloH(_, _) => 4 + 3 * i + 1
    case _ => 3 + 2 * i
  }

  function Chunk(t: seq<Byte>, q: nat): seq<Byte> {
    if 8 * q >= |t| then [] else if 8 * q + 8 <= |t| then t[8 * q..8 * q + 8] else t[8 * q..]
  }

  function KidHalf(kids: seq<Value>, q: nat, r: nat): Cell {
    if q >= |kids| then W(0) else if r == 0 then W(TagCode(kids[q].tag)) else W(kids[q].payload)
  }

  function Triple(keys: seq<Key>, kids: seq<Value>, r: nat): Cell {
    if r / 3 >= |keys| then W(0)
    else if r % 3 == 0 then K(keys[r / 3]) else KidHalf(kids, r / 3, r % 3 - 1)
  }

  function WordAt(ws: seq<int>, q: nat): Cell {
    if q < |ws| then W(ws[q]) else W(0)
  }

  /** The cell a finished record holds at position `j`; padding cells are zero. */
  function CellAt(n: Node, j: nat): Cell
    requires |n.kids| == Arity(n.head)
  {
    if j == 0 then W(TagCode(HeadTag(n.head)))
    else if j == 1 then W(RecBytes(n.head))
    else if j == 2 then W(Word2(n.head))
    else
      match n.head
      case StrH(t) => if 8 * (j - 3) < |t| then B(Chunk(t, j - 3)) else W(0)
      case ObjH(_, ns, keys) =>
        if j == 3 then W(ns)
        else if j < 4 + 2 * ns then KidHalf(n.kids[..ns], (j - 4) / 2, j % 2)
        else if j == 4 + 2 * ns then W(|keys|)
        else Triple(keys, n.kids[ns..], j - 5 - 2 * ns)
      case BoxedH(_) => KidHalf(n.kids, (j - 3) / 2, (j - 3) % 2)
      case DenseH(_, r, ws) => if j == 3 then W(8 * r) else WordAt(ws, j - 4)
      case ColumnarH(c, _, ws) => if j == 3 then W(c) else WordAt(ws, j - 4)
      case MapH(_) => KidHalf(n.kids, (j - 3) / 2, (j - 3) % 2)
      case CloH(_, keys) => if j == 3 then W(|keys|) else Triple(keys, n.kids, j - 4)
  }

  /** Record `n` is stored in the buffer from cell `start` on. */
  ghost predicate RecAt(cells: seq<Cell>, start: nat, n: Node)
  {
    && |n.kids| == Arity(n.head)
    && start + RecCells(n.head) <= |cells|
    && forall j: nat {:trigger CellAt(n, j)} :: j < RecCells(n.head) ==> cells[start + j] == CellAt(n, j)
  }

  /** The bytes a fresh record is initialised with: no kid written yet. */
  function Blank(h: Head): (n: Node)
    ensures |n.kids| == Arity(n.head) && n.head == h
  {
    Node(h, seq(Arity(h), _ => VOID))
  }

  function Image(n: Node): (cs: seq<Cell>)
    requires |n.kids| == Arity(n.head)
    ensures |cs| == RecCells(n.head)
    ensures RecAt(cs, 0, n)
  {
    var cs := seq(RecCells(n.head), j requires j >= 0 => CellAt(n, j));
    cs
  }

  lemma KidCellInside(h: Head, i: nat)
    requires i < Arity(h)
    ensures 3 <= KidCell(h, i) && KidCell(h, i) + 1 < RecCells(h)
  {}

  lemma PairWrite(kids: seq<Value>, i: nat, v: Value, q: nat, r: nat)
    requires i < |kids| && r < 2
    ensures KidHalf(kids[i := v], q, r) ==
            if q != i then KidHalf(kids, q, r) else if r == 0 then W(TagCode(v.tag)) else W(v.payload)
  {}

  lemma TripleWrite(keys: seq<Key>, kids: seq<Value>, i: nat, v: Value, r: nat)
    requires i < |kids| == |keys|
    ensures Triple(keys, kids[i := v], r) ==
            if r == 3 * i + 1 then W(TagCode(v.tag)) else if r == 3 * i + 2 then W(v.payload) else Triple(keys, kids, r)
  {
    PairWrite(kids, i, v, r / 3, if r % 3 == 0 then 0 else r % 3 - 1);
  }

  lemma ObjWrite(n: Node, i: nat, v: Value, j: nat)
    requires n.head.ObjH? && |n.kids| == Arity(n.head) && i < |n.kids|
    ensures var m := n.(kids := n.kids[i := v]); var p := KidCell(n.head, i);
            CellAt(m, j) == if j == p then W(TagCode(v.tag)) else if j == p + 1 then W(v.payload) else CellAt(n, j)
  {
    var m := n.(kids := n.kids[i := v]);
    var ns, keys := n.head.nslots, n.head.keys;
    hide RecCells, Triple, KidHalf;
    if i < ns {
      assert m.kids[..ns] == n.kids[..ns][i := v];
      assert m.kids[ns..] == n.kids[ns..];
      if 4 <= j < 4 + 2 * ns { PairWrite(n.kids[..ns], i, v, (j - 4) / 2, j % 2); }
    } else {
      assert m.kids[..ns] == n.kids[..ns];
      assert m.kids[ns..] == n.kids[ns..][i - ns := v];
      if j > 4 + 2 * ns { TripleWrite(keys, n.kids[ns..], i - ns, v, j - 5 - 2 * ns); }
    }
  }

  /** Writing one kid changes exactly its two cells of the record. */
  lemma KidWrite(n: Node, i: nat, v: Value, j: nat)
    requires |n.kids| == Arity(n.head) && i < |n.kids|
    ensures var m := n.(kids := n.kids[i := v]); var p := KidCell(n.head, i);
            CellAt(m, j) == if j == p then W(TagCode(v.tag)) else if j == p + 1 then W(v.payload) else CellAt(n, j)
  {
    hide RecCells, Triple, KidHalf;
    if n.head.ObjH? {
      ObjWrite(n, i, v, j);
    } else if n.head.CloH? {
      if j >= 4 { TripleWrite(n.head.keys, n.kids, i, v, j - 4); }
    } else if j >= 3 {
      PairWrite(n.kids, i, v, (j - 3) / 2, (j - 3) % 2);
    }
  }

  // ------------------------------------------------------------------ reading

  function ReadWord(cells: seq<Cell>, at: nat): int {
    if at < |cells| && cells[at].W? then cells[at].word else 0
  }

  function ReadKey(cells: seq<Cell>, at: nat): Key {
    if at < |cells| && cells[at].K? then cells[at].key else ""
  }

  function ReadText(cells: seq<Cell>, at: nat, len: nat): seq<Byte>
    decreases len
  {
    if len == 0 then []
    else
      var chunk := if at < |cells| && cells[at].B? then cells[at].bytes else [];
      if len <= 8 then chunk else chunk + ReadText(cells, at + 1, len - 8)
  }

  function ReadWords(cells: seq<Cell>, at: nat, n: nat): seq<int> {
    seq(n, q requires q >= 0 => ReadWord(cells, at + q))
  }

  function Nat(x: int): nat {
    if x < 0 then 0 else x
  }

  /** The header part of a record, as rebuild reads it before it allocates the node. */
  function ReadHead(ct: ClassTable, cells: seq<Cell>, start: nat): Head {
    var tag := TagOf(ReadWord(cells, start));
    var w2 := ReadWord(cells, start + 2);
    var w3 := ReadWord(cells, start + 3);
    match tag
    case Str => StrH(ReadText(cells, start + 3, Nat(w2)))
    case Obj =>
      var nd := Nat(ReadWord(cells, start + 4 + 2 * Nat(w3)));
      ObjH(w2, Nat(w3), seq(nd, q requires q >= 0 => ReadKey(cells, start + 5 + 2 * Nat(w3) + 3 * q)))
    case Arr =>
      if w2 >= 0 then BoxedH(w2)
      else if w2 >= TOP_BITS then
        var n := w2 - TOP_BITS;
        ColumnarH(w3, n, ReadWords(cells, start + 4, FieldCount(ct, w3) * n))
      else
        var n := Nat(w2 - DENSE_BIT);
        var r := Nat(w3 / 8);
        DenseH(n, r, ReadWords(cells, start + 4, n * r))
    case Map => MapH(Nat(w2))
    case _ => CloH(w2, seq(Nat(w3), q requires q >= 0 => ReadKey(cells, start + 4 + 3 * q)))
  }

  function ReadKid(cells: seq<Cell>, start: nat, h: Head, i: nat): Value
    requires i < Arity(h)
  {
    var p := start + KidCell(h, i);
    Value(TagOf(ReadWord(cells, p)), ReadWord(cells, p + 1))
  }

  /** Chunks `k` and later of `text` lie in consecutive cells from `at` on. */
  ghost predicate TextAt(cells: seq<Cell>, at: nat, text: seq<Byte>, k: nat) {
    forall q: nat {:trigger Chunk(text, q)} :: k <= q && 8 * q < |text| ==> Holds(cells, at + q - k, Chunk(text, q))
  }

  predicate Holds(cells: seq<Cell>, at: int, chunk: seq<Byte>) {
    0 <= at < |cells| && cells[at] == B(chunk)
  }

  lemma {:induction false} ReadTextChunks(cells: seq<Cell>, at: nat, text: seq<Byte>, k: nat)
    requires 8 * k <= |text| && TextAt(cells, at, text, k)
    ensures ReadText(cells, at, |text| - 8 * k) == text[8 * k..]
    decreases |text| - 8 * k
  {
    if 8 * k < |text| {
      var c := Chunk(text, k);
      assert Holds(cells, at, c);
      if |text| - 8 * k > 8 {
        ReadTextChunks(cells, at + 1, text, k + 1);
        assert text[8 * k..] == c + text[8 * (k + 1)..];
      }
    }
  }

  lemma StrRoundTrip(ct: ClassTable, cells: seq<Cell>, start: nat, n: Node)
    requires RecAt(cells, start, n) && n.head.StrH?
    ensures ReadHead(ct, cells, start) == n.head
  {
    var t := n.head.text;
    assert cells[start + 0] == CellAt(n, 0);
    assert cells[start + 2] == CellAt(n, 2);
    forall q: nat {:trigger Chunk(t, q)} | 8 * q < |t|
      ensures Holds(cells, start + 3 + q, Chunk(t, q))
    {
      assert cells[start + (3 + q)] == CellAt(n, 3 + q);
    }
    ReadTextChunks(cells, start + 3, t, 0);
  }

  lemma ObjRoundTrip(ct: ClassTable, cells: seq<Cell>, start: nat, n: Node)
    requires RecAt(cells, start, n) && n.head.ObjH?
    ensures ReadHead(ct, cells, start) == n.head
  {
    var ns, keys := n.head.nslots, n.head.keys;
    assert cells[start + 0] == CellAt(n, 0);
    assert cells[start + 2] == CellAt(n, 2);
    assert cells[start + 3] == CellAt(n, 3);
    assert cells[start + (4 + 2 * ns)] == CellAt(n, 4 + 2 * ns);
    forall q: nat | q < |keys| ensures ReadKey(cells, start + 5 + 2 * ns + 3 * q) == keys[q] {
      assert cells[start + (5 + 2 * ns + 3 * q)] == CellAt(n, 5 + 2 * ns + 3 * q);
    }
  }

  lemma CloRoundTrip(ct: ClassTable, cells: seq<Cell>, start: nat, n: Node)
    requires RecAt(cells, start, n) && n.head.CloH?
    ensures ReadHead(ct, cells, start) == n.head
  {
    var keys := n.head.keys;
    assert cells[start + 0] == CellAt(n, 0);
    assert cells[start + 2] == CellAt(n, 2);
    assert cells[start + 3] == CellAt(n, 3);
    forall q: nat | q < |keys| ensures ReadKey(cells, start + 4 + 3 * q) == keys[q] {
      assert cells[start + (4 + 3 * q)] == CellAt(n, 4 + 3 * q);
    }
  }

  lemma ArrRoundTrip(ct: ClassTable, cells: seq<Cell>, start: nat, n: Node)
    requires RecAt(cells, start, n) && GoodNode(ct, n)
    requires n.head.BoxedH? || n.head.DenseH? || n.head.ColumnarH? || n.head.MapH?
    ensures ReadHead(ct, cells, start) == n.head
  {
    assert cells[start + 0] == CellAt(n, 0);
    assert cells[start + 2] == CellAt(n, 2);
    if n.head.DenseH? || n.head.ColumnarH? {
      assert cells[start + 3] == CellAt(n, 3);
      WordsRoundTrip(cells, start, n, n.head.words);
    }
  }

  /** Decoding is the inverse of layout, for the header part of every kind of record. */
  lemma HeadRoundTrip(ct: ClassTable, cells: seq<Cell>, start: nat, n: Node)
    requires RecAt(cells, start, n) && GoodNode(ct, n)
    ensures ReadHead(ct, cells, start) == n.head
  {
    match n.head
    case StrH(_) => StrRoundTrip(ct, cells, start, n);
    case ObjH(_, _, _) => ObjRoundTrip(ct, cells, start, n);
    case CloH(_, _) => CloRoundTrip(ct, cells, start, n);
    case _ => ArrRoundTrip(ct, cells, start, n);
  }

  lemma WordsRoundTrip(cells: seq<Cell>, start: nat, n: Node, ws: seq<int>)
    requires RecAt(cells, start, n)
    requires (n.head.DenseH? || n.head.ColumnarH?) && n.head.words == ws
    ensures ReadWords(cells, start + 4, |ws|) == ws
  {
    forall q: nat | q < |ws| ensures ReadWord(cells, start + 4 + q) == ws[q] {
      assert cells[start + (4 + q)] == CellAt(n, 4 + q);
    }
  }

  lemma KidRoundTrip(cells: seq<Cell>, start: nat, n: Node, i: nat)
    requires RecAt(cells, start, n) && i < |n.kids|
    ensures ReadKid(cells, start, n.head, i) == n.kids[i]
  {
    var p := KidCell(n.head, i);
    KidCellInside(n.head, i);
    KidWrite(n, i, n.kids[i], p);
    KidWrite(n, i, n.kids[i], p + 1);
    assert n.kids[i := n.kids[i]] == n.kids;
    assert cells[start + p] == CellAt(n, p);
    assert cells[start + (p + 1)] == CellAt(n, p + 1);
  }
}
