/**
 The three array layouts. A boxed array stores tagged values; a dense array stores the
 inline records of a value struct row by row; a columnar array stores one column of
 payload words per field and synthesises the tags on read. All of them represent a
 sequence of elements; stores copy the buffer unless it has a single owner.
 */
module Arrays {
  import Values
  import FlatBuffer

  type TagCode = nat

  datatype Field = Field(tag: TagCode, bits: int)

  /** An element as the language sees it: a plain value or a value struct with its fields. */
  datatype Elem = Plain(tag: TagCode, bits: int) | Record(classId: int, fields: seq<Field>)

  /** `tags` are the declared field tags; `columnar` says the class may be stored in columns. */
  datatype Class = Class(tags: seq<TagCode>, columnar: bool)

  type Classes = map<int, Class>

  datatype Buf =
    | Boxed(elems: seq<Elem>, cap: nat)
    | Dense(recWords: nat, len: nat, rows: seq<int>)
    | Columnar(classId: int, len: nat, cols: seq<int>)

  // ------------------------------------------------------------------ columns

  /** Word index of field k of element i among the columns of an array of `len` elements. */
  function Col(len: nat, k: nat, i: nat): nat {
    k * len + i
  }

  lemma ColBounds(len: nat, f: nat, k: nat, i: nat)
    requires k < f && i < len
    ensures Col(len, k, i) < f * len
  {
    assert (k + 1) * len <= f * len;
  }

  lemma ColumnsApart(len: nat, a: nat, b: nat)
    ensures a < b ==> a * len + len <= b * len
  {
    if a < b { assert (a + 1) * len <= b * len; }
  }

  /** Distinct fields of distinct elements never share a word. */
  lemma ColInjective(len: nat, k: nat, i: nat, k': nat, i': nat)
    requires i < len && i' < len && Col(len, k, i) == Col(len, k', i')
    ensures k == k' && i == i'
  {
    ColumnsApart(len, k, k');
    ColumnsApart(len, k', k);
  }

  /** The columns hold exactly the payload rows `pays`. */
  ghost predicate IsColumns(cols: seq<int>, f: nat, pays: seq<seq<int>>) {
    && |cols| == f * |pays|
    && forall k, i {:trigger Col(|pays|, k, i)} :: 0 <= k < f && 0 <= i < |pays| ==>
         Col(|pays|, k, i) < |cols| && |pays[i]| == f && cols[Col(|pays|, k, i)] == pays[i][k]
  }

  /** Copies every column into a layout that is one element wider and scatters the new element. */
  method ColumnarAppend(cols: seq<int>, f: nat, ghost pays: seq<seq<int>>, len: nat, p: seq<int>) returns (r: seq<int>)
    requires IsColumns(cols, f, pays) && len == |pays| && |p| == f
    ensures IsColumns(r, f, pays + [p])
  {
    var n := len + 1;
    var w := new int[f * n];
    CopyColumns(w, cols, f, pays, len);
    for k := 0 to f
      invariant forall k', i' {:trigger Col(n, k', i')} :: 0 <= k' < f && 0 <= i' < len ==>
                  Col(n, k', i') < w.Length && w[Col(n, k', i')] == pays[i'][k']
      invariant forall k' {:trigger Col(n, k', len)} :: 0 <= k' < k ==> Col(n, k', len) < w.Length && w[Col(n, k', len)] == p[k']
    {
      hide IsColumns;
      ColBounds(n, f, k, len);
      forall k', i' | 0 <= k' < f && 0 <= i' < n && (i' < len || k' < k) ensures Col(n, k', i') != Col(n, k, len) {
        if Col(n, k', i') == Col(n, k, len) { ColInjective(n, k', i', k, len); }
      }
      w[Col(n, k, len)] := p[k];
    }
    r := w[..];
    var pays' := pays + [p];
    forall k, i {:trigger Col(n, k, i)} | 0 <= k < f && 0 <= i < n
      ensures Col(n, k, i) < |r| && |pays'[i]| == f && r[Col(n, k, i)] == pays'[i][k]
    {
      ColBounds(n, f, k, i);
      if i < len { var _ := Col(len, k, i); }
    }
  }

  /** Moves the elements of the old columns to their places in the wider ones. */
  method CopyColumns(w: array<int>, cols: seq<int>, f: nat, ghost pays: seq<seq<int>>, len: nat)
    requires IsColumns(cols, f, pays) && len == |pays| && w.Length == f * (len + 1)
    modifies w
    ensures forall i :: 0 <= i < len && f > 0 ==> |pays[i]| == f
    ensures var n := len + 1; forall k', i' {:trigger Col(n, k', i')} :: 0 <= k' < f && 0 <= i' < len ==>
              Col(n, k', i') < w.Length && w[Col(n, k', i')] == pays[i'][k']
  {
    var n := len + 1;
    forall i | 0 <= i < len && f > 0 ensures |pays[i]| == f {
      var _ := Col(len, 0, i);
    }
    for k := 0 to f
      invariant forall k', i' {:trigger Col(n, k', i')} :: 0 <= k' < k && 0 <= i' < len ==>
                  Col(n, k', i') < w.Length && w[Col(n, k', i')] == pays[i'][k']
    {
      for i := 0 to len
        invariant forall k', i' {:trigger Col(n, k', i')} :: 0 <= k' < f && 0 <= i' < len && (k' < k || (k' == k && i' < i)) ==>
                    Col(n, k', i') < w.Length && w[Col(n, k', i')] == pays[i'][k']
      {
        ColBounds(n, f, k, i);
        assert Col(len, k, i) < |cols| && cols[Col(len, k, i)] == pays[i][k];
        forall k', i' | 0 <= k' < f && 0 <= i' < len && (k' < k || (k' == k && i' < i)) ensures Col(n, k', i') != Col(n, k, i) {
          if Col(n, k', i') == Col(n, k, i) { ColInjective(n, k', i', k, i); }
        }
        w[Col(n, k, i)] := cols[Col(len, k, i)];
      }
    }
  }

  /** Overwrites the fields of element i, one word per column. */
  method ColumnarSet(cols: seq<int>, f: nat, ghost pays: seq<seq<int>>, len: nat, i: nat, p: seq<int>) returns (r: seq<int>)
    requires IsColumns(cols, f, pays) && len == |pays| && |p| == f && i < len
    ensures IsColumns(r, f, pays[i := p])
  {
    r := cols;
    for k := 0 to f
      invariant |r| == |cols|
      invariant forall k', i' {:trigger Col(len, k', i')} :: 0 <= k' < f && 0 <= i' < len ==>
                  Col(len, k', i') < |r| && r[Col(len, k', i')] == (if i' == i && k' < k then p[k'] else cols[Col(len, k', i')])
    {
      ColBounds(len, f, k, i);
      ghost var r0 := r;
      r := r[Col(len, k, i) := p[k]];
      forall k', i' {:trigger Col(len, k', i')} | 0 <= k' < f && 0 <= i' < len
        ensures Col(len, k', i') < |r| && r[Col(len, k', i')] == (if i' == i && k' < k + 1 then p[k'] else cols[Col(len, k', i')])
      {
        ColBounds(len, f, k', i');
        if Col(len, k', i') == Col(len, k, i) { ColInjective(len, k', i', k, i); }
      }
    }
  }

  // --------------------------------------------------------------------- rows

  function Nat(x: int): nat {
    if x < 0 then 0 else x
  }

  /** The inline body of a record: class id, empty dynamic list, then tag and payload per field. */
  function RowOf(e: Elem): (w: seq<int>)
    requires e.Record?
    ensures |w| == 2 + 2 * |e.fields|
  {
    seq(2 + 2 * |e.fields|, j requires 0 <= j < 2 + 2 * |e.fields| =>
      if j == 0 then e.classId else if j == 1 then 0
      else if j % 2 == 0 then e.fields[j / 2 - 1].tag else e.fields[j / 2 - 1].bits)
  }

  function FromRow(w: seq<int>): Elem
    requires |w| >= 2
  {
    Record(w[0], seq((|w| - 2) / 2, k requires 0 <= k < (|w| - 2) / 2 => Field(Nat(w[2 + 2 * k]), w[3 + 2 * k])))
  }

  lemma RowRoundTrip(e: Elem)
    requires e.Record?
    ensures FromRow(RowOf(e)) == e
  {
    hide RowOf, FromRow;
    var w := RowOf(e);
    RowFields(w);
    var r := FromRow(w);
    forall k | 0 <= k < |e.fields| ensures r.fields[k] == e.fields[k] {
      RowWords(e, k);
    }
    RowHead(e);
  }

  lemma RowFields(w: seq<int>)
    requires |w| >= 2
    ensures var r := FromRow(w); r.Record? && r.classId == w[0] && |r.fields| == (|w| - 2) / 2
    ensures forall k :: 0 <= k < (|w| - 2) / 2 ==> FromRow(w).fields[k] == Field(Nat(w[2 + 2 * k]), w[3 + 2 * k])
  {
  }

  lemma RowHead(e: Elem)
    requires e.Record?
    ensures RowOf(e)[0] == e.classId
  {
  }

  lemma RowWords(e: Elem, k: nat)
    requires e.Record? && k < |e.fields|
    ensures RowOf(e)[2 + 2 * k] == e.fields[k].tag && RowOf(e)[3 + 2 * k] == e.fields[k].bits
  {
    assert (2 + 2 * k) / 2 - 1 == k && (3 + 2 * k) / 2 - 1 == k;
  }

  predicate Rows(rows: seq<int>, rw: nat, len: nat) {
    |rows| == len * rw && rw >= 2
  }

  function RowAt(rows: seq<int>, rw: nat, len: nat, i: nat): (w: seq<int>)
    requires Rows(rows, rw, len) && i < len
    ensures |w| == rw
  {
    ColBounds(rw, len, i, rw - 1);
    rows[i * rw..i * rw + rw]
  }

  lemma RowsAppend(rows: seq<int>, rw: nat, len: nat, w: seq<int>)
    requires Rows(rows, rw, len) && |w| == rw
    ensures Rows(rows + w, rw, len + 1)
    ensures forall i :: 0 <= i < len ==> RowAt(rows + w, rw, len + 1, i) == RowAt(rows, rw, len, i)
    ensures RowAt(rows + w, rw, len + 1, len) == w
  {
    assert (len + 1) * rw == len * rw + rw;
    forall i | 0 <= i < len ensures RowAt(rows + w, rw, len + 1, i) == RowAt(rows, rw, len, i) {
      ColBounds(rw, len, i, rw - 1);
    }
  }

  function RowsSet(rows: seq<int>, rw: nat, len: nat, i: nat, w: seq<int>): (r: seq<int>)
    requires Rows(rows, rw, len) && i < len && |w| == rw
    ensures |r| == |rows|
  {
    ColBounds(rw, len, i, rw - 1);
    rows[..i * rw] + w + rows[i * rw + rw..]
  }

  lemma RowsSetView(rows: seq<int>, rw: nat, len: nat, i: nat, w: seq<int>, j: nat)
    requires Rows(rows, rw, len) && i < len && |w| == rw && j < len
    ensures RowAt(RowsSet(rows, rw, len, i, w), rw, len, j) == if j == i then w else RowAt(rows, rw, len, j)
  {
    RowsApart(rw, len, i, j);
    var p, q := i * rw, j * rw;
    SliceReplaced(rows, p, rw, w, q);
    assert RowsSet(rows, rw, len, i, w) == rows[..p] + w + rows[p + rw..];
    hide RowsSet;
  }

  lemma RowsApart(rw: nat, len: nat, i: nat, j: nat)
    requires rw >= 1 && i < len && j < len
    ensures i * rw + rw <= len * rw && j * rw + rw <= len * rw
    ensures i < j ==> i * rw + rw <= j * rw
    ensures j < i ==> j * rw + rw <= i * rw
  {
    ColBounds(rw, len, i, rw - 1);
    ColBounds(rw, len, j, rw - 1);
    if j < i { assert (j + 1) * rw <= i * rw; }
    if i < j { assert (i + 1) * rw <= j * rw; }
  }

  lemma SliceReplaced(rows: seq<int>, p: nat, rw: nat, w: seq<int>, q: nat)
    requires p + rw <= |rows| && q + rw <= |rows| && |w| == rw && (q + rw <= p || p + rw <= q || p == q)
    ensures (rows[..p] + w + rows[p + rw..])[q..q + rw] == if p == q then w else rows[q..q + rw]
  {
    var r := rows[..p] + w + rows[p + rw..];
    if p == q {
      assert r[q..q + rw] == w;
    } else {
      assert r[q..q + rw] == rows[q..q + rw];
    }
  }

  // ---------------------------------------------------------------- the sequence

  function Payloads(e: Elem): (p: seq<int>)
    requires e.Record?
    ensures |p| == |e.fields|
  {
    seq(|e.fields|, k requires 0 <= k < |e.fields| => e.fields[k].bits)
  }

  /** Element i gathered from the columns, with the declared tags. */
  function Gather(c: Class, classId: int, len: nat, cols: seq<int>, i: nat): Elem
    requires |cols| == |c.tags| * len && i < len
  {
    Record(classId, seq(|c.tags|, k requires 0 <= k < |c.tags| => ColBounds(len, |c.tags|, k, i); Field(c.tags[k], cols[Col(len, k, i)])))
  }

  predicate Good(cs: Classes, b: Buf) {
    match b
    case Boxed(elems, cap) => |elems| <= cap
    case Dense(rw, len, rows) => Rows(rows, rw, len)
    case Columnar(classId, len, cols) => classId in cs && |cols| == |cs[classId].tags| * len
  }

  function Len(b: Buf): nat {
    match b
    case Boxed(elems, _) => |elems|
    case Dense(_, len, _) => len
    case Columnar(_, len, _) => len
  }

  /** What reading position i yields. */
  function Read(cs: Classes, b: Buf, i: nat): Elem
    requires Good(cs, b) && i < Len(b)
  {
    match b
    case Boxed(elems, _) => elems[i]
    case Dense(rw, len, rows) => FromRow(RowAt(rows, rw, len, i))
    case Columnar(classId, len, cols) => Gather(cs[classId], classId, len, cols, i)
  }

  /** The abstract sequence a buffer stands for. */
  function View(cs: Classes, b: Buf): (v: seq<Elem>)
    requires Good(cs, b)
    ensures |v| == Len(b)
  {
    seq(Len(b), i requires 0 <= i < Len(b) => Read(cs, b, i))
  }

  /** A record with exactly the declared field tags of its class. */
  predicate Conforms(cs: Classes, classId: int, e: Elem) {
    e.Record? && e.classId == classId && classId in cs && |e.fields| == |cs[classId].tags| &&
    forall k :: 0 <= k < |e.fields| ==> e.fields[k].tag == cs[classId].tags[k]
  }

  /** Elements an array may receive: arrays are typed, so inline layouts hold one class only. */
  predicate Fits(cs: Classes, b: Buf, e: Elem) {
    match b
    case Boxed(_, _) => e.Record? && e.classId in cs && cs[e.classId].columnar ==> Conforms(cs, e.classId, e)
    case Dense(rw, _, _) => e.Record? && 2 + 2 * |e.fields| == rw
    case Columnar(classId, _, _) => Conforms(cs, classId, e)
  }

  ghost function Pays(cols: seq<int>, f: nat, len: nat): (ps: seq<seq<int>>)
    requires |cols| == f * len
    ensures |ps| == len && IsColumns(cols, f, ps)
  {
    var ps := seq(len, i requires 0 <= i < len =>
      seq(f, k requires 0 <= k < f => ColBounds(len, f, k, i); cols[Col(len, k, i)]));
    assert forall k, i {:trigger Col(|ps|, k, i)} :: 0 <= k < f && 0 <= i < |ps| ==>
      Col(|ps|, k, i) < |cols| && |ps[i]| == f && cols[Col(|ps|, k, i)] == ps[i][k] by {
      forall k, i {:trigger Col(|ps|, k, i)} | 0 <= k < f && 0 <= i < |ps|
        ensures Col(|ps|, k, i) < |cols| && |ps[i]| == f && cols[Col(|ps|, k, i)] == ps[i][k]
      {
        ColBounds(len, f, k, i);
      }
    }
    ps
  }

  /** Gathering what was scattered gives the record back. */
  lemma GatherScatter(cs: Classes, classId: int, cols: seq<int>, pays: seq<seq<int>>, i: nat, e: Elem)
    requires classId in cs && IsColumns(cols, |cs[classId].tags|, pays) && i < |pays|
    requires Conforms(cs, classId, e) && pays[i] == Payloads(e)
    ensures Gather(cs[classId], classId, |pays|, cols, i) == e
  {
    var g := Gather(cs[classId], classId, |pays|, cols, i);
    forall k | 0 <= k < |e.fields| ensures g.fields[k] == e.fields[k] {
      ColBounds(|pays|, |cs[classId].tags|, k, i);
      assert cols[Col(|pays|, k, i)] == pays[i][k];
    }
  }

  /** Equal payload rows gather to equal elements, whatever the layout's width. */
  lemma GatherSame(c: Class, classId: int, cols: seq<int>, pays: seq<seq<int>>, cols': seq<int>, pays': seq<seq<int>>, i: nat)
    requires IsColumns(cols, |c.tags|, pays) && IsColumns(cols', |c.tags|, pays')
    requires i < |pays| && i < |pays'| && pays[i] == pays'[i]
    ensures Gather(c, classId, |pays|, cols, i) == Gather(c, classId, |pays'|, cols', i)
  {
    var g, g' := Gather(c, classId, |pays|, cols, i), Gather(c, classId, |pays'|, cols', i);
    forall k | 0 <= k < |c.tags| ensures g.fields[k] == g'.fields[k] {
      assert cols[Col(|pays|, k, i)] == pays[i][k];
      assert cols'[Col(|pays'|, k, i)] == pays'[i][k];
    }
  }

  // ------------------------------------------------------------------ operations

  const HEAP_TAGS: set<nat> := {4, 5, 6, 7, 9, 11, 12}

  /** They are the codes of the tags whose values are references. */
  lemma HeapTagsAre(t: Values.Tag)
    ensures FlatBuffer.TagCode(t) in HEAP_TAGS <==> !Values.IsImmediate(t)
  {
  }

  predicate HasHeapField(e: Elem) {
    e.Record? && exists k :: 0 <= k < |e.fields| && e.fields[k].tag in HEAP_TAGS
  }

  // ------------------------------------------------------------ what an array owns

  /** A reader of the element meets a heap reference. */
  predicate ShowsRef(e: Elem) {
    if e.Record? then HasHeapField(e) else e.tag in HEAP_TAGS
  }

  predicate ShowsNone(v: seq<Elem>) {
    forall k :: 0 <= k < |v| ==> !ShowsRef(v[k])
  }

  /**
   Position k is right only with a count, or a struct block, taken for it alone: freeing a boxed
   array releases every reference and reclaims every struct in it, and a reference inside an
   inline row is good only while somebody holds it.
   */
  predicate Needs(cs: Classes, b: Buf, k: nat)
    requires Good(cs, b) && k < Len(b)
  {
    (b.Boxed? && b.elems[k].Record?) || ShowsRef(Read(cs, b, k))
  }

  /** Leaving out position i, the array has of its own all that it needs; `own` says what was taken for each position. */
  predicate OwnsBut(cs: Classes, b: Buf, own: seq<bool>, i: int)
    requires Good(cs, b) && |own| == Len(b)
  {
    forall k :: 0 <= k < Len(b) && k != i && Needs(cs, b, k) ==> own[k]
  }

  predicate Owns(cs: Classes, b: Buf, own: seq<bool>)
    requires Good(cs, b) && |own| == Len(b)
  {
    OwnsBut(cs, b, own, -1)
  }

  function Same(n: nat, x: bool): seq<bool> {
    seq(n, _ => x)
  }

  /** Freeing an inline array looks at no element, and filling one counts nothing. */
  lemma InlineOwns(cs: Classes, b: Buf, own: seq<bool>)
    requires Good(cs, b) && !b.Boxed? && |own| == Len(b) && forall k :: 0 <= k < |own| ==> !own[k]
    ensures Owns(cs, b, own) <==> ShowsNone(View(cs, b))
  {
    hide ShowsRef;
    var v := View(cs, b);
    forall k | 0 <= k < Len(b) ensures Needs(cs, b, k) <==> ShowsRef(v[k]) {}
  }

  /** A fresh inline buffer for the first struct appended to an empty array. */
  method FirstRecord(cs: Classes, useColumns: bool, e: Elem) returns (b: Buf)
    requires e.Record? && (e.classId in cs && cs[e.classId].columnar ==> Conforms(cs, e.classId, e))
    ensures Good(cs, b) && View(cs, b) == [e]
    ensures b.Columnar? <==> useColumns && e.classId in cs && cs[e.classId].columnar
    ensures !b.Columnar? ==> b.Dense?
    ensures Fits(cs, b, e)
  {
    if useColumns && e.classId in cs && cs[e.classId].columnar {
      var f := |cs[e.classId].tags|;
      var cols := ColumnarAppend([], f, [], 0, Payloads(e));
      b := Columnar(e.classId, 1, cols);
      GatherScatter(cs, e.classId, cols, [] + [Payloads(e)], 0, e);
    } else {
      RowsAppend([], |RowOf(e)|, 0, RowOf(e));
      RowRoundTrip(e);
      b := Dense(|RowOf(e)|, 1, [] + RowOf(e));
    }
  }

  /** Append to an inline buffer: always into a fresh, wider buffer. */
  method InlineAppend(cs: Classes, b: Buf, e: Elem) returns (r: Buf)
    requires Good(cs, b) && !b.Boxed? && Fits(cs, b, e)
    ensures Good(cs, r) && View(cs, r) == View(cs, b) + [e]
    ensures LayoutOf(r) == LayoutOf(b) && Fits(cs, r, e)
  {
    hide Gather, FromRow, RowOf, Payloads, IsColumns, RowAt;
    if b.Columnar? {
      var f := |cs[b.classId].tags|;
      ghost var pays := Pays(b.cols, f, b.len);
      var cols := ColumnarAppend(b.cols, f, pays, b.len, Payloads(e));
      r := Columnar(b.classId, b.len + 1, cols);
      ColumnsWide(cols, f, pays + [Payloads(e)]);
      GatherScatter(cs, b.classId, cols, pays + [Payloads(e)], b.len, e);
      forall i | 0 <= i < b.len ensures Read(cs, r, i) == Read(cs, b, i) {
        GatherSame(cs[b.classId], b.classId, b.cols, pays, cols, pays + [Payloads(e)], i);
      }
    } else {
      RowsAppend(b.rows, b.recWords, b.len, RowOf(e));
      RowRoundTrip(e);
      r := Dense(b.recWords, b.len + 1, b.rows + RowOf(e));
      forall i | 0 <= i < b.len ensures Read(cs, r, i) == Read(cs, b, i) {
        assert RowAt(r.rows, r.recWords, r.len, i) == RowAt(b.rows, b.recWords, b.len, i);
      }
    }
  }

  lemma ColumnsWide(cols: seq<int>, f: nat, pays: seq<seq<int>>)
    requires IsColumns(cols, f, pays)
    ensures |cols| == f * |pays|
  {}

  /** Overwrite position i of a buffer's contents; a position out of range changes nothing. */
  method StoreAt(cs: Classes, b: Buf, i: int, e: Elem) returns (r: Buf)
    requires Good(cs, b) && Fits(cs, b, e)
    ensures Good(cs, r) && View(cs, r) == if 0 <= i < Len(b) then View(cs, b)[i := e] else View(cs, b)
    ensures r.Columnar? == b.Columnar? && r.Dense? == b.Dense?
  {
    if i < 0 || i >= Len(b) { return b; }
    match b
    case Boxed(elems, cap) => r := Boxed(elems[i := e], cap);
    case Dense(rw, len, rows) =>
      RowRoundTrip(e);
      r := Dense(rw, len, RowsSet(rows, rw, len, i, RowOf(e)));
      forall j | 0 <= j < len ensures Read(cs, r, j) == if j == i then e else Read(cs, b, j) {
        RowsSetView(rows, rw, len, i, RowOf(e), j);
      }
    case Columnar(classId, len, cols) =>
      var f := |cs[classId].tags|;
      ghost var pays := Pays(cols, f, len);
      var cols' := ColumnarSet(cols, f, pays, len, i, Payloads(e));
      r := Columnar(classId, len, cols');
      forall j | 0 <= j < len ensures Read(cs, r, j) == if j == i then e else Read(cs, b, j) {
        if j == i { GatherScatter(cs, classId, cols', pays[i := Payloads(e)], i, e); }
        else { GatherSame(cs[classId], classId, cols, pays, cols', pays[i := Payloads(e)], j); }
      }
  }

  // ------------------------------------------------------- shared buffers, copy on write

  datatype Cell = Cell(rc: int, buf: Buf)

  class ArrayHeap {
    const cs: Classes
    const useColumns: bool
    var cells: map<nat, Cell>
    /** For each array and position: was a count, or a struct block, taken for it alone? */
    ghost var own: map<nat, seq<bool>>

    ghost predicate Valid()
      reads this
    {
      && (forall a :: a in cells ==> Good(cs, cells[a].buf))
      && (forall a :: a in cells ==> a in own && OwnFits(cells[a].buf, own[a]))
    }

    ghost predicate OwnsAt(a: nat)
      reads this
      requires Valid() && a in cells
    {
      Owns(cs, cells[a].buf, own[a])
    }

    ghost function ViewAt(a: nat): seq<Elem>
      reads this
      requires Valid() && a in cells
    {
      View(cs, cells[a].buf)
    }

    /** Every array except `a` still reads as before; `a` too unless the caller was its only owner. */
    twostate predicate OthersKeep(a: nat)
      reads this
      requires old(Valid()) && Valid() && old(a in cells)
    {
      forall c :: c in old(cells) && (c != a || old(cells[a].rc) != 1) ==> c in cells && cells[c] == old(cells[c]) && own[c] == old(own[c])
    }

    constructor (cs: Classes, useColumns: bool)
      ensures Valid() && this.cs == cs && this.useColumns == useColumns && cells == map[]
    {
      this.cs, this.useColumns, cells, own := cs, useColumns, map[], map[];
    }

    /** Puts a buffer in place, with what was taken for its positions. */
    method Place(a: nat, rc: int, b: Buf, ghost taken: seq<bool>)
      requires Valid() && Good(cs, b) && OwnFits(b, taken)
      modifies this`cells, this`own
      ensures Valid() && cells == old(cells)[a := Cell(rc, b)] && own == old(own)[a := taken]
    {
      cells, own := cells[a := Cell(rc, b)], own[a := taken];
    }

    /** Reads position i, or fails with a bounds error. */
    method Get(a: nat, i: int) returns (ok: bool, e: Elem)
      requires Valid() && a in cells
      ensures ok <==> 0 <= i < |ViewAt(a)|
      ensures ok ==> e == ViewAt(a)[i]
    {
      ok, e := false, Plain(0, 0);
      if 0 <= i < Len(cells[a].buf) { ok, e := true, Read(cs, cells[a].buf, i); }
    }

    /**
     Appends `e`. The result is owned by the caller alone; `at` is the address a fresh buffer
     gets. A uniquely owned boxed array grows in place or moves, anything shared is copied. A boxed
     result owns what it needs if the array did, and in any case if it was shared; an inline one
     exactly when it shows no reference.
     */
    method Append(a: nat, e: Elem, at: nat) returns (r: nat)
      requires Valid() && a in cells && at !in cells && Fits(cs, cells[a].buf, e)
      modifies this`cells, this`own
      ensures Valid() && r in cells && ViewAt(r) == old(ViewAt(a)) + [e]
      ensures OthersKeep(a) && cells[r].rc == 1
      ensures (r == a || r == at) && cells.Keys <= old(cells.Keys) + {at}
      ensures Fits(cs, cells[r].buf, e)
      ensures LayoutOf(cells[r].buf) ==
              if old(ViewAt(a)) == [] && old(cells[a].buf).Boxed? then AppendLayout(cs, useColumns, 1, e) else LayoutOf(old(cells[a].buf))
      ensures OwnsAt(r) <==> if cells[r].buf.Boxed? then old(cells[a].rc) != 1 || old(OwnsAt(a)) else ShowsNone(ViewAt(r))
    {
      hide Owns, View, HasHeapField, Good, ShowsNone;
      var b := cells[a].buf;
      BoxedRoom(cs, b);
      if !b.Boxed? {
        var nb := InlineAppend(cs, b, e);
        Place(at, 1, nb, Same(Len(nb), false));
        InlineOwns(cs, nb, own[at]);
        r := at;
      } else if b.elems == [] && e.Record? && !HasHeapField(e) {
        var nb := FirstRecord(cs, useColumns, e);
        Place(at, 1, nb, Same(Len(nb), false));
        InlineOwns(cs, nb, own[at]);
        r := at;
      } else {
        r := BoxedPush(a, e, at);
      }
    }

    /** Append to a boxed array that stays boxed. */
    method BoxedPush(a: nat, e: Elem, at: nat) returns (r: nat)
      requires Valid() && a in cells && at !in cells && cells[a].buf.Boxed? && Fits(cs, cells[a].buf, e)
      modifies this`cells, this`own
      ensures Valid() && r in cells && cells[r].buf.Boxed? && ViewAt(r) == old(ViewAt(a)) + [e]
      ensures OthersKeep(a) && cells[r].rc == 1
      ensures (r == a || r == at) && cells.Keys <= old(cells.Keys) + {at}
      ensures OwnsAt(r) <==> old(cells[a].rc) != 1 || old(OwnsAt(a))
      ensures var b := old(cells[a].buf); var grown := cells[r].buf.cap;
              if old(cells[a].rc) != 1 then r == at && grown == |b.elems| + 1
              else if |b.elems| < b.cap then r == a && grown == b.cap else r == at && a !in cells && grown >= 2 * b.cap && grown >= 4
    {
      hide Owns, View, Good;
      var b := cells[a].buf;
      ghost var had := own[a];
      BoxedRoom(cs, b);
      r := at;
      if cells[a].rc != 1 {
        // every element is counted again, or copied
        BoxedAppend(cs, b, Same(|b.elems|, true), e, |b.elems| + 1);
        AllOwn(cs, b);
        Place(at, 1, Boxed(b.elems + [e], |b.elems| + 1), Same(|b.elems|, true) + [true]);
      } else if |b.elems| < b.cap {
        // the array takes a count, or a copy, of `e`
        BoxedAppend(cs, b, had, e, b.cap);
        r := a;
        Place(a, 1, Boxed(b.elems + [e], b.cap), had + [true]);
      } else {
        // what the old buffer has moves to the new one
        var cap := if 2 * b.cap < 4 then 4 else 2 * b.cap;
        BoxedAppend(cs, b, had, e, cap);
        cells := cells - {a};
        Place(at, 1, Boxed(b.elems + [e], cap), had + [true]);
      }
    }

    /**
     Stores `e` at position i, in place if uniquely owned, else in a fresh copy with count 0; a
     struct stored into a boxed array is handed over by the caller. The in-place store leaves a
     boxed array owning what it owned at the other positions. The copy retains what it copies,
     which does nothing for structs: it owns what it needs exactly when it copied no struct.
     */
    method Set(a: nat, i: int, e: Elem, at: nat) returns (r: nat)
      requires Valid() && a in cells && at !in cells && Fits(cs, cells[a].buf, e)
      modifies this`cells, this`own
      ensures Valid() && r in cells
      ensures ViewAt(r) == if 0 <= i < |old(ViewAt(a))| then old(ViewAt(a))[i := e] else old(ViewAt(a))
      ensures OthersKeep(a)
      ensures r == if old(cells[a].rc) == 1 then a else at
      ensures cells[r].rc == if r == a then 1 else 0
      ensures cells[r].buf.Boxed? == old(cells[a].buf).Boxed?
      ensures OwnsAt(r) <==>
                if !cells[r].buf.Boxed? then ShowsNone(ViewAt(r))
                else if old(cells[a].rc) == 1 then old(OwnsBut(cs, cells[a].buf, own[a], i))
                else forall k :: 0 <= k < |old(ViewAt(a))| && k != i ==> !old(ViewAt(a))[k].Record?
    {
      hide Owns, View, HasHeapField, Good, Fits, ShowsNone, OwnsBut;
      var b := cells[a].buf;
      ghost var had := own[a];
      var nb := StoreAt(cs, b, i, e);
      ghost var taken := Taken(b, nb, had, i, cells[a].rc == 1);
      r := if cells[a].rc == 1 then a else at;
      Place(r, if r == a then 1 else 0, nb, taken);
      if b.Boxed? {
        BoxedStore(cs, b, nb, had, i, e, old(cells[a].rc) == 1);
      } else {
        InlineOwns(cs, nb, taken);
      }
    }
  }

  ghost predicate OwnFits(b: Buf, own: seq<bool>) {
    |own| == Len(b) && (!b.Boxed? ==> forall k :: 0 <= k < |own| ==> !own[k])
  }

  /** What a store takes: in place, the stored value; for a copy, every counted element and the stored value. */
  ghost function Taken(b: Buf, nb: Buf, had: seq<bool>, i: int, inPlace: bool): (own: seq<bool>)
    requires |had| == Len(b)
  {
    if !b.Boxed? || !nb.Boxed? then Same(Len(nb), false)
    else if inPlace then (if 0 <= i < |had| then had[i := true] else had)
    else seq(|nb.elems|, k requires 0 <= k < |nb.elems| => k == i || !nb.elems[k].Record?)
  }

  lemma BoxedView(cs: Classes, b: Buf)
    requires b.Boxed? && Good(cs, b)
    ensures View(cs, b) == b.elems
  {
  }

  lemma BoxedRoom(cs: Classes, b: Buf)
    requires b.Boxed? ==> Good(cs, b)
    ensures b.Boxed? ==> |b.elems| <= b.cap && View(cs, b) == b.elems
  {
  }

  lemma AllOwn(cs: Classes, b: Buf)
    requires b.Boxed? && Good(cs, b)
    ensures Owns(cs, b, Same(|b.elems|, true))
  {
  }

  lemma BoxedAppend(cs: Classes, b: Buf, own: seq<bool>, e: Elem, cap: nat)
    requires b.Boxed? && Good(cs, b) && |own| == |b.elems| && |b.elems| < cap
    ensures var b' := Boxed(b.elems + [e], cap);
            && Good(cs, b') && View(cs, b') == b.elems + [e]
            && (Owns(cs, b', own + [true]) <==> Owns(cs, b, own))
  {
    var b' := Boxed(b.elems + [e], cap);
    BoxedView(cs, b');
    hide ShowsRef;
    if Owns(cs, b', own + [true]) {
      forall k | 0 <= k < Len(b) && Needs(cs, b, k) ensures own[k] {
        assert Needs(cs, b', k) && (own + [true])[k];
      }
    }
  }

  lemma BoxedStore(cs: Classes, b: Buf, nb: Buf, had: seq<bool>, i: int, e: Elem, inPlace: bool)
    requires b.Boxed? && nb.Boxed? && Good(cs, b) && Good(cs, nb) && |had| == Len(b)
    requires View(cs, nb) == if 0 <= i < Len(b) then View(cs, b)[i := e] else View(cs, b)
    ensures |nb.elems| == |b.elems| && |Taken(b, nb, had, i, inPlace)| == |nb.elems|
    ensures Owns(cs, nb, Taken(b, nb, had, i, inPlace)) <==>
              if inPlace then OwnsBut(cs, b, had, i) else forall k :: 0 <= k < Len(b) && k != i ==> !View(cs, b)[k].Record?
  {
    BoxedView(cs, b);
    BoxedView(cs, nb);
    hide ShowsRef, View;
    var own := Taken(b, nb, had, i, inPlace);
    forall k | 0 <= k < Len(b) && k != i ensures Needs(cs, nb, k) == Needs(cs, b, k) && nb.elems[k] == b.elems[k] {}
    if inPlace {
      forall k | 0 <= k < Len(b) && k != i ensures own[k] == had[k] {}
      if Owns(cs, nb, own) {
        forall k | 0 <= k < Len(b) && k != i && Needs(cs, b, k) ensures had[k] { assert Needs(cs, nb, k); }
      }
    } else if exists k :: 0 <= k < Len(b) && k != i && b.elems[k].Record? {
      var k :| 0 <= k < Len(b) && k != i && b.elems[k].Record?;
      assert Needs(cs, nb, k) && !own[k];
    }
  }

  // ----------------------------------------------------------------- Array(n, fill)

  datatype Layout = InBoxes | InRows | InColumns

  function LayoutOf(b: Buf): Layout {
    match b
    case Boxed(_, _) => InBoxes
    case Dense(_, _, _) => InRows
    case Columnar(_, _, _) => InColumns
  }

  /** The layout one-shot construction picks. */
  function FillLayout(cs: Classes, useColumns: bool, n: int, e: Elem): Layout {
    if n <= 0 || !e.Record? then InBoxes
    else if useColumns && e.classId in cs && cs[e.classId].columnar then InColumns
    else InRows
  }

  /** The layout n appends to an empty array end up with. */
  function AppendLayout(cs: Classes, useColumns: bool, n: int, e: Elem): Layout {
    if n <= 0 || !e.Record? || HasHeapField(e) then InBoxes
    else if useColumns && e.classId in cs && cs[e.classId].columnar then InColumns
    else InRows
  }

  /** Builds n copies by appending and reports the layout reached; the contents are n copies of `e`. */
  method AppendAll(cs: Classes, useColumns: bool, n: nat, e: Elem) returns (b: Buf, ghost own: seq<bool>)
    requires e.Record? && e.classId in cs && cs[e.classId].columnar ==> Conforms(cs, e.classId, e)
    ensures Good(cs, b) && View(cs, b) == seq(n, _ => e)
    ensures LayoutOf(b) == AppendLayout(cs, useColumns, n, e)
    ensures |own| == Len(b) && Owns(cs, b, own)
  {
    hide Owns, HasHeapField, View;
    var h := new ArrayHeap(cs, useColumns);
    var a := 0;
    NothingYet(cs);
    h.Place(0, 1, Boxed([], 0), []);
    AllOwn(cs, Boxed([], 0));
    assert Same(0, true) == [];
    for k := 0 to n
      invariant h.Valid() && a <= k && h.cs == cs && h.useColumns == useColumns
      invariant a in h.cells && (forall c :: c in h.cells ==> c <= k)
      invariant h.ViewAt(a) == seq(k, _ => e) && h.cells[a].rc == 1
      invariant LayoutOf(h.cells[a].buf) == AppendLayout(cs, useColumns, k, e)
      invariant Fits(cs, h.cells[a].buf, e) && h.OwnsAt(a)
    {
      AppendShows(cs, useColumns, k, e);
      var r := h.Append(a, e, k + 1);
      a := r;
    }
    b, own := h.cells[a].buf, h.own[a];
  }

  method FillColumns(f: nat, n: nat, p: seq<int>) returns (r: seq<int>)
    requires |p| == f
    ensures IsColumns(r, f, seq(n, _ => p))
  {
    var w := new int[f * n];
    for k := 0 to f
      invariant forall k', i' {:trigger Col(n, k', i')} :: 0 <= k' < k && 0 <= i' < n ==> Col(n, k', i') < w.Length && w[Col(n, k', i')] == p[k']
    {
      for i := 0 to n
        invariant forall k', i' {:trigger Col(n, k', i')} :: 0 <= k' < f && 0 <= i' < n && (k' < k || (k' == k && i' < i)) ==>
                    Col(n, k', i') < w.Length && w[Col(n, k', i')] == p[k']
      {
        ColBounds(n, f, k, i);
        forall k', i' | 0 <= k' < f && 0 <= i' < n && (k' < k || (k' == k && i' < i)) ensures Col(n, k', i') != Col(n, k, i) {
          if Col(n, k', i') == Col(n, k, i) { ColInjective(n, k', i', k, i); }
        }
        w[Col(n, k, i)] := p[k];
      }
    }
    r := w[..];
  }

  lemma NoRows(rw: nat)
    requires rw >= 2
    ensures Rows([], rw, 0)
  {}

  method FillRows(n: nat, row: seq<int>) returns (rows: seq<int>)
    requires |row| >= 2
    ensures Rows(rows, |row|, n) && forall j :: 0 <= j < n ==> RowAt(rows, |row|, n, j) == row
  {
    hide RowAt, Rows;
    rows := [];
    assert Rows(rows, |row|, 0) by { NoRows(|row|); }
    for i := 0 to n
      invariant Rows(rows, |row|, i) && forall j :: 0 <= j < i ==> RowAt(rows, |row|, i, j) == row
    {
      RowsAppend(rows, |row|, i, row);
      ghost var before, n' := rows, i + 1;
      rows := rows + row;
      forall j | 0 <= j < n' ensures RowAt(rows, |row|, n', j) == row {
        if j < i { assert RowAt(before, |row|, i, j) == row; }
      }
    }
  }

  /** One-shot construction of n copies of `e`: a boxed array counts each, an inline one nothing. */
  method Fill(cs: Classes, useColumns: bool, n: int, e: Elem) returns (b: Buf, ghost own: seq<bool>)
    requires e.Record? && e.classId in cs && cs[e.classId].columnar ==> Conforms(cs, e.classId, e)
    ensures Good(cs, b) && View(cs, b) == seq(if n > 0 then n else 0, _ => e)
    ensures LayoutOf(b) == FillLayout(cs, useColumns, n, e)
    ensures |own| == Len(b) && (Owns(cs, b, own) <==> !(n > 0 && HasHeapField(e)))
  {
    hide View;
    b := FillBuf(cs, useColumns, n, e);
    own := Same(Len(b), b.Boxed?);
    if b.Boxed? {
      AllOwn(cs, b);
    } else {
      InlineOwns(cs, b, own);
      assert n > 0 && View(cs, b)[0] == e;
    }
  }

  method FillBuf(cs: Classes, useColumns: bool, n: int, e: Elem) returns (b: Buf)
    requires e.Record? && e.classId in cs && cs[e.classId].columnar ==> Conforms(cs, e.classId, e)
    ensures Good(cs, b) && View(cs, b) == seq(if n > 0 then n else 0, _ => e)
    ensures LayoutOf(b) == FillLayout(cs, useColumns, n, e)
  {
    hide RowOf, FromRow, RowAt, Gather, IsColumns, Payloads;
    if n <= 0 { return Boxed([], 0); }
    if !e.Record? { return Boxed(seq(n, _ => e), n); }
    if useColumns && e.classId in cs && cs[e.classId].columnar {
      var cols := FillColumns(|e.fields|, n, Payloads(e));
      ghost var pays := seq(n, _ => Payloads(e));
      ColumnsWide(cols, |e.fields|, pays);
      b := Columnar(e.classId, n, cols);
      forall i | 0 <= i < n ensures Read(cs, b, i) == e {
        GatherScatter(cs, e.classId, cols, pays, i, e);
      }
    } else {
      RowRoundTrip(e);
      var rows := FillRows(n, RowOf(e));
      b := Dense(|RowOf(e)|, n, rows);
    }
  }

  lemma NothingYet(cs: Classes)
    ensures View(cs, Boxed([], 0)) == []
  {
  }

  /** Appending one struct after another: an inline result shows no reference. */
  lemma AppendShows(cs: Classes, useColumns: bool, k: nat, e: Elem)
    ensures ShowsNone(seq(k, _ => e) + [e]) <==> !ShowsRef(e)
    ensures AppendLayout(cs, useColumns, k + 1, e) != InBoxes ==> !ShowsRef(e)
    ensures seq(k, _ => e) + [e] == seq(k + 1, _ => e)
  {
    assert (seq(k, _ => e) + [e])[k] == e;
  }

  /**
   Filling in one step against appending n times: the contents agree always; layout and ownership
   agree if and only if the value is not a struct that holds references (or nothing is filled in).
   */
  method FillAgainstAppends(cs: Classes, useColumns: bool, n: int, e: Elem)
    returns (filled: Buf, appended: Buf, ghost own1: seq<bool>, ghost own2: seq<bool>)
    requires e.Record? && e.classId in cs && cs[e.classId].columnar ==> Conforms(cs, e.classId, e)
    ensures Good(cs, filled) && Good(cs, appended) && View(cs, filled) == View(cs, appended)
    ensures LayoutOf(filled) == LayoutOf(appended) <==> !(n > 0 && HasHeapField(e))
    ensures |own1| == Len(filled) && |own2| == Len(appended) && Owns(cs, appended, own2)
    ensures Owns(cs, filled, own1) <==> LayoutOf(filled) == LayoutOf(appended)
  {
    hide View, Good;
    filled, own1 := Fill(cs, useColumns, n, e);
    appended, own2 := AppendAll(cs, useColumns, if n > 0 then n else 0, e);
  }

  /** A struct whose one field is a string, and the same struct with the field empty. */
  const WITH_STRING: Elem := Record(0, [Field(4, 7)])
  const WITHOUT_STRING: Elem := Record(0, [Field(8, 0)])

  lemma StringIsHeap()
    ensures HasHeapField(WITH_STRING) && !HasHeapField(WITHOUT_STRING)
  {
    assert WITH_STRING.fields[0].tag in HEAP_TAGS;
  }

  /** Filling with a struct that holds a string: the array shows a reference it does not own. */
  method FillFails() returns (b: Buf, ghost own: seq<bool>)
    ensures Good(map[], b) && View(map[], b) == [WITH_STRING] && |own| == Len(b) && !Owns(map[], b, own)
  {
    hide Owns, View, HasHeapField;
    StringIsHeap();
    b, own := Fill(map[], false, 1, WITH_STRING);
    assert seq(1, _ => WITH_STRING) == [WITH_STRING];
  }

  /** An inline array started with the field empty takes the string inline too, and does not own it. */
  method InlineAppendFails() returns (h: ArrayHeap, a: nat)
    ensures h.Valid() && a in h.cells && h.cs == map[] && h.ViewAt(a) == [WITHOUT_STRING, WITH_STRING] && !h.OwnsAt(a)
  {
    hide Owns, View, HasHeapField;
    StringIsHeap();
    h := new ArrayHeap(map[], false);
    h.Place(0, 1, Boxed([], 0), []);
    NothingYet(map[]);
    a := h.Append(0, WITHOUT_STRING, 1);
    a := h.Append(a, WITH_STRING, 2);
    assert ShowsRef(h.ViewAt(a)[1]);
  }

  /** A boxed array of such a struct, shared: storing beside it copies the struct's address, and the copy does not own it. */
  method SharedSetFails() returns (h: ArrayHeap, a: nat, r: nat)
    ensures h.Valid() && a in h.cells && r in h.cells && a != r && h.OwnsAt(a) && !h.OwnsAt(r)
    ensures h.ViewAt(a) == [WITH_STRING, Plain(1, 0)] && h.ViewAt(r) == [WITH_STRING, Plain(1, 5)]
  {
    hide View, HasHeapField;
    StringIsHeap();
    h := new ArrayHeap(map[], false);
    var b := Boxed([WITH_STRING, Plain(1, 0)], 2);
    BoxedView(map[], b);
    a := 0;
    h.Place(a, 2, b, [true, true]);
    r := h.Set(a, 1, Plain(1, 5), 1);
    assert View(map[], b)[0].Record?;
  }
}
