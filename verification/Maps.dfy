/**
 Map keys and the insertion-ordered map. Keys are compared by a relation of their own:
 strings by content, floats by a canonical bit pattern, value structs field by field,
 every other object by identity. `Canon` erases exactly what that relation ignores.
 */
module Maps {
  import opened Util

  /** Scalars, references other than objects, and the three kinds compared specially. */
  datatype Key =
    | Plain(tag: int, payload: int)
    | Str(content: seq<int>)
    | Float(bits: bv64)
    | Obj(addr: int, cls: int, fields: seq<Key>)

  /** What the class descriptors say: which classes are value classes, and their field counts. */
  datatype Classes = Classes(isValue: int -> bool, fieldCount: int -> nat)

  const EXPONENT: bv64 := 0x7FF0000000000000
  const FRACTION: bv64 := 0x000FFFFFFFFFFFFF
  const QUIET_NAN: bv64 := 0x7FF8000000000000

  predicate IsNan(b: bv64) {
    b & EXPONENT == EXPONENT && b & FRACTION != 0
  }

  predicate IsZero(b: bv64) {
    b << 1 == 0
  }

  /** The canonical bit pattern of a float. */
  function CanonBits(b: bv64): bv64 {
    if IsNan(b) then QUIET_NAN else if IsZero(b) then 0 else b
  }

  predicate CanonEq(a: bv64, b: bv64) {
    CanonBits(a) == CanonBits(b)
  }

  /** Floats are one key exactly when both are NaN, both are zero, or their bits agree. */
  lemma CanonEqMeans(a: bv64, b: bv64)
    ensures CanonEq(a, b) <==> (IsNan(a) && IsNan(b)) || (IsZero(a) && IsZero(b)) || a == b
    ensures CanonBits(CanonBits(a)) == CanonBits(a)
  {
    assert IsNan(QUIET_NAN) && !IsZero(QUIET_NAN) && IsZero(0) && !IsNan(0);
  }

  /** Key equality, as the runtime computes it. */
  predicate KeyEq(cs: Classes, a: Key, b: Key)
    decreases a, 1
  {
    match (a, b)
    case (Str(x), Str(y)) => x == y
    case (Float(x), Float(y)) => CanonEq(x, y)
    case (Obj(p, c, _), Obj(q, d, _)) =>
      if c != d || !cs.isValue(c) then p == q else FieldsEq(cs, a, b, cs.fieldCount(c))
    case (Plain(t, p), Plain(u, q)) => t == u && p == q
    case _ => false
  }

  /** The first n fields agree. */
  predicate FieldsEq(cs: Classes, a: Key, b: Key, n: nat)
    requires a.Obj? && b.Obj?
    decreases a, 0
  {
    forall i :: 0 <= i < n && i < |a.fields| && i < |b.fields| ==> KeyEq(cs, a.fields[i], b.fields[i])
  }

  /** The key as the heap holds it: an address names one object, with its class's fields. */
  ghost predicate Held(cs: Classes, at: map<int, int>, k: Key)
    decreases k
  {
    k.Obj? ==>
      && k.addr in at && at[k.addr] == k.cls
      && (cs.isValue(k.cls) ==> |k.fields| == cs.fieldCount(k.cls))
      && forall i :: 0 <= i < |k.fields| ==> Held(cs, at, k.fields[i])
  }

  /** What key equality looks at, and nothing else. */
  datatype Canonical =
    | CPlain(tag: int, payload: int)
    | CStr(content: seq<int>)
    | CFloat(bits: bv64)
    | CIdentity(addr: int)
    | CStruct(cls: int, fields: seq<Canonical>)

  function Canon(cs: Classes, k: Key): Canonical
    decreases k
  {
    match k
    case Plain(t, p) => CPlain(t, p)
    case Str(x) => CStr(x)
    case Float(b) => CFloat(CanonBits(b))
    case Obj(p, c, fs) =>
      if cs.isValue(c) then CStruct(c, seq(|fs|, i requires 0 <= i < |fs| => Canon(cs, fs[i]))) else CIdentity(p)
  }

  /** Key equality is equality of canonical forms. */
  lemma {:induction false} KeyEqIsCanon(cs: Classes, at: map<int, int>, a: Key, b: Key)
    requires Held(cs, at, a) && Held(cs, at, b)
    ensures KeyEq(cs, a, b) <==> Canon(cs, a) == Canon(cs, b)
    decreases a
  {
    if a.Obj? && b.Obj? && a.cls == b.cls && cs.isValue(a.cls) {
      forall i | 0 <= i < |a.fields| ensures KeyEq(cs, a.fields[i], b.fields[i]) <==> Canon(cs, a.fields[i]) == Canon(cs, b.fields[i]) {
        KeyEqIsCanon(cs, at, a.fields[i], b.fields[i]);
      }
      StructCanon(cs, a, b);
    }
  }

  lemma StructCanon(cs: Classes, a: Key, b: Key)
    requires a.Obj? && b.Obj? && a.cls == b.cls && cs.isValue(a.cls) && |a.fields| == |b.fields|
    ensures Canon(cs, a) == Canon(cs, b) <==> forall i :: 0 <= i < |a.fields| ==> Canon(cs, a.fields[i]) == Canon(cs, b.fields[i])
  {
    var x, y := Canon(cs, a), Canon(cs, b);
    assert forall i :: 0 <= i < |a.fields| ==> x.fields[i] == Canon(cs, a.fields[i]) && y.fields[i] == Canon(cs, b.fields[i]);
    if forall i :: 0 <= i < |a.fields| ==> Canon(cs, a.fields[i]) == Canon(cs, b.fields[i]) {
      assert x.fields == y.fields;
    }
  }

  /** What key equality compares, kind by kind. */
  lemma KeyEqMeans(cs: Classes, a: Key, b: Key)
    ensures a.Plain? && b.Plain? ==> (KeyEq(cs, a, b) <==> a.tag == b.tag && a.payload == b.payload)
    ensures a.Str? && b.Str? ==> (KeyEq(cs, a, b) <==> a.content == b.content)
    ensures a.Float? && b.Float? ==>
              (KeyEq(cs, a, b) <==> (IsNan(a.bits) && IsNan(b.bits)) || (IsZero(a.bits) && IsZero(b.bits)) || a.bits == b.bits)
    ensures a.Obj? && b.Obj? && !(a.cls == b.cls && cs.isValue(a.cls)) ==> (KeyEq(cs, a, b) <==> a.addr == b.addr)
    ensures a.Obj? && b.Obj? && a.cls == b.cls && cs.isValue(a.cls) && |a.fields| == |b.fields| == cs.fieldCount(a.cls) ==>
              (KeyEq(cs, a, b) <==> forall i :: 0 <= i < |a.fields| ==> KeyEq(cs, a.fields[i], b.fields[i]))
    ensures KeyEq(cs, a, b) ==> (a.Plain? <==> b.Plain?) && (a.Str? <==> b.Str?) && (a.Float? <==> b.Float?) && (a.Obj? <==> b.Obj?)
  {
    hide CanonBits, CanonEq, IsNan, IsZero;
    if a.Float? && b.Float? { CanonEqMeans(a.bits, b.bits); }
  }

  /** Key equality is an equivalence relation on the keys of one heap. */
  lemma Equivalence(cs: Classes, at: map<int, int>, a: Key, b: Key, c: Key)
    requires Held(cs, at, a) && Held(cs, at, b) && Held(cs, at, c)
    ensures KeyEq(cs, a, a)
    ensures KeyEq(cs, a, b) ==> KeyEq(cs, b, a)
    ensures KeyEq(cs, a, b) && KeyEq(cs, b, c) ==> KeyEq(cs, a, c)
  {
    hide KeyEq, Canon, Held;
    KeyEqIsCanon(cs, at, a, a);
    KeyEqIsCanon(cs, at, a, b);
    KeyEqIsCanon(cs, at, b, a);
    KeyEqIsCanon(cs, at, b, c);
    KeyEqIsCanon(cs, at, a, c);
  }

  // ------------------------------------------------------------------- the map

  datatype Entry<V> = Entry(key: Key, val: V)
  /** Position of the first entry whose key equals `key`, or the length. */
  function Find<V>(cs: Classes, es: seq<Entry<V>>, key: Key): (i: nat)
    ensures i <= |es|
    ensures i < |es| ==> KeyEq(cs, es[i].key, key)
    ensures forall j :: 0 <= j < i ==> !KeyEq(cs, es[j].key, key)
  {
    if es == [] || KeyEq(cs, es[0].key, key) then 0 else 1 + Find(cs, es[1..], key)
  }

  function Lookup<V>(cs: Classes, es: seq<Entry<V>>, key: Key): Option<V> {
    var i := Find(cs, es, key);
    if i < |es| then Some(es[i].val) else None
  }

  /** An update that found its key in an unshared map keeps the old key; a copy stores the new one. */
  function Updated<V>(cs: Classes, es: seq<Entry<V>>, key: Key, val: V, inPlace: bool): (r: seq<Entry<V>>) {
    var i := Find(cs, es, key);
    if i == |es| then es + [Entry(key, val)]
    else es[i := Entry(if inPlace then es[i].key else key, val)]
  }

  datatype MapObj<V> = MapObj(rc: int, entries: seq<Entry<V>>)

  class MapHeap<V(==)> {
    const cs: Classes
    var maps: map<int, MapObj<V>>

    constructor (cs: Classes)
      ensures this.cs == cs && maps == map[]
    {
      this.cs := cs;
      maps := map[];
    }

    /** The index of a key, by a scan from the front. */
    method Scan(base: int, key: Key) returns (found: int)
      requires base in maps
      ensures var es := maps[base].entries; var i := Find(cs, es, key); found == if i < |es| then i else -1
    {
      var es := maps[base].entries;
      for i := 0 to |es|
        invariant i <= Find(cs, es, key)
      {
        if KeyEq(cs, es[i].key, key) { return i; }
      }
      found := -1;
    }

    method Get(base: int, key: Key) returns (r: Option<V>)
      requires base in maps
      ensures r == Lookup(cs, maps[base].entries, key)
    {
      var es := maps[base].entries;
      for i := 0 to |es|
        invariant i <= Find(cs, es, key)
      {
        if KeyEq(cs, es[i].key, key) { return Some(es[i].val); }
      }
      r := None;
    }

    /**
     Updates in place only when the map has one owner and the key is there; every
     other case leaves `base` as it was and builds the result at the unused address `at`.
     */
    method Upsert(base: int, key: Key, val: V, at: int) returns (out: int)
      requires base in maps && at !in maps
      modifies this
      ensures var o := old(maps)[base]; var hit := Find(cs, o.entries, key) < |o.entries|;
              if o.rc == 1 && hit
              then out == base && maps == old(maps)[base := o.(entries := Updated(cs, o.entries, key, val, true))]
              else out == at && maps == old(maps)[at := MapObj(0, Updated(cs, o.entries, key, val, false))]
      ensures var o, r := old(maps)[base].entries, maps[out].entries; var i := Find(cs, o, key);
              && |r| == (if i < |o| then |o| else |o| + 1) && r[i].val == val
              && r[i].key == (if out == base then o[i].key else key)
              && forall j :: 0 <= j < |o| && j != i ==> r[j] == o[j]
    {
      var found := Scan(base, key);
      var o := maps[base];
      var es := o.entries;
      if o.rc == 1 && found >= 0 {
        maps := maps[base := o.(entries := es[found := Entry(es[found].key, val)])];
        return base;
      }
      var newlen := if found >= 0 then |es| else |es| + 1;
      var target := if found >= 0 then found else |es|;
      var copy := seq(newlen, i requires 0 <= i < newlen => if i < |es| then es[i] else Entry(key, val));
      copy := copy[target := Entry(key, val)];
      assert copy == Updated(cs, es, key, val, false);
      maps := maps[at := MapObj(0, copy)];
      out := at;
    }

    /** Upsert with the result owned by the caller. */
    method With(base: int, key: Key, val: V, at: int) returns (out: int)
      requires base in maps && at !in maps
      modifies this
      ensures out in maps && exists inPlace :: maps[out].entries == Updated(cs, old(maps)[base].entries, key, val, inPlace)
      ensures out != base ==> maps[out].rc == 1 && base in maps && maps[base] == old(maps)[base]
      ensures out == base ==> old(maps)[base].rc == 1 == maps[base].rc
      ensures forall b :: b in old(maps) && b != base ==> b in maps && maps[b] == old(maps)[b]
    {
      out := Upsert(base, key, val, at);
      if out != base { maps := maps[out := maps[out].(rc := maps[out].rc + 1)]; }
    }
  }

  // -------------------------------------------- the map up to key equality

  datatype CEntry<V> = CEntry(key: Canonical, val: V)

  function CanonAll<V>(cs: Classes, es: seq<Entry<V>>): (r: seq<CEntry<V>>)
    ensures |r| == |es|
    ensures forall i :: 0 <= i < |es| ==> r[i] == CEntry(Canon(cs, es[i].key), es[i].val)
  {
    seq(|es|, i requires 0 <= i < |es| => CEntry(Canon(cs, es[i].key), es[i].val))
  }

  function CFind<V>(es: seq<CEntry<V>>, c: Canonical): (i: nat)
    ensures i <= |es|
    ensures i < |es| ==> es[i].key == c
    ensures forall j :: 0 <= j < i ==> es[j].key != c
  {
    if es == [] || es[0].key == c then 0 else 1 + CFind(es[1..], c)
  }

  /** Replace the value of an existing key where it stands, or append. */
  function Put<V>(es: seq<CEntry<V>>, c: Canonical, v: V): (r: seq<CEntry<V>>) {
    var i := CFind(es, c);
    if i == |es| then es + [CEntry(c, v)] else es[i := CEntry(c, v)]
  }

  ghost predicate AllHeld<V>(cs: Classes, at: map<int, int>, es: seq<Entry<V>>) {
    forall i :: 0 <= i < |es| ==> Held(cs, at, es[i].key)
  }

  predicate DistinctKeys<V>(es: seq<CEntry<V>>) {
    forall i, j :: 0 <= i < j < |es| ==> es[i].key != es[j].key
  }

  lemma FindAgrees<V>(cs: Classes, at: map<int, int>, es: seq<Entry<V>>, key: Key)
    requires AllHeld(cs, at, es) && Held(cs, at, key)
    ensures Find(cs, es, key) == CFind(CanonAll(cs, es), Canon(cs, key))
  {
    hide KeyEq, Canon, Held;
    forall i | 0 <= i < |es| ensures KeyEq(cs, es[i].key, key) <==> CanonAll(cs, es)[i].key == Canon(cs, key) {
      KeyEqIsCanon(cs, at, es[i].key, key);
    }
    hide CanonAll, Find, CFind;
    CFindIs(CanonAll(cs, es), Canon(cs, key), Find(cs, es, key));
  }

  /** Both update paths are the same update up to key equality. */
  lemma UpdateIsPut<V>(cs: Classes, at: map<int, int>, es: seq<Entry<V>>, key: Key, val: V, inPlace: bool)
    requires AllHeld(cs, at, es) && Held(cs, at, key)
    ensures AllHeld(cs, at, Updated(cs, es, key, val, inPlace))
    ensures CanonAll(cs, Updated(cs, es, key, val, inPlace)) == Put(CanonAll(cs, es), Canon(cs, key), val)
  {
    FindAgrees(cs, at, es, key);
    hide KeyEq, Canon, Held, Find, CFind;
    var i := Find(cs, es, key);
    if i < |es| { KeyEqIsCanon(cs, at, es[i].key, key); }
  }

  /** The lookup-after-update law. */
  lemma LookupUpdated<V>(cs: Classes, at: map<int, int>, es: seq<Entry<V>>, key: Key, val: V, inPlace: bool, probe: Key)
    requires AllHeld(cs, at, es) && Held(cs, at, key) && Held(cs, at, probe)
    ensures Lookup(cs, Updated(cs, es, key, val, inPlace), probe) ==
            if KeyEq(cs, key, probe) then Some(val) else Lookup(cs, es, probe)
  {
    var es' := Updated(cs, es, key, val, inPlace);
    UpdateIsPut(cs, at, es, key, val, inPlace);
    FindAgrees(cs, at, es, probe);
    FindAgrees(cs, at, es', probe);
    KeyEqIsCanon(cs, at, key, probe);
    hide KeyEq, Canon, Held, Find, Updated;
    CFindPut(CanonAll(cs, es), Canon(cs, key), val, Canon(cs, probe));
  }

  function CLookup<V>(es: seq<CEntry<V>>, c: Canonical): Option<V> {
    var i := CFind(es, c);
    if i < |es| then Some(es[i].val) else None
  }

  lemma CFindPut<V>(es: seq<CEntry<V>>, c: Canonical, v: V, d: Canonical)
    ensures CLookup(Put(es, c, v), d) == if c == d then Some(v) else CLookup(es, d)
  {
    hide CFind;
    var es', i, j := Put(es, c, v), CFind(es, d), CFind(Put(es, c, v), d);
    CFindIs(es', d, if c == d && i == |es| then |es| else if i == |es| then |es'| else i);
  }

  lemma CFindIs<V>(es: seq<CEntry<V>>, c: Canonical, i: nat)
    requires i <= |es| && (i < |es| ==> es[i].key == c) && forall j :: 0 <= j < i ==> es[j].key != c
    ensures CFind(es, c) == i
  {
    hide CFind;
  }

  // ------------------------------------------------------------- whole runs

  datatype Update<V> = Update(key: Key, val: V, inPlace: bool)

  /** The map after a run of updates, each taking whichever path its owner count allows. */
  function Run<V>(cs: Classes, us: seq<Update<V>>): seq<Entry<V>> {
    if us == [] then []
    else var u := us[|us| - 1]; Updated(cs, Run(cs, us[..|us| - 1]), u.key, u.val, u.inPlace)
  }

  /** Keys in the order of their first update. */
  function FirstSeen<V>(cs: Classes, us: seq<Update<V>>): seq<Canonical> {
    if us == [] then []
    else
      var p, c := FirstSeen(cs, us[..|us| - 1]), Canon(cs, us[|us| - 1].key);
      if c in p then p else p + [c]
  }

  function LastWrite<V>(cs: Classes, us: seq<Update<V>>, key: Key): Option<V> {
    if us == [] then None
    else if KeyEq(cs, us[|us| - 1].key, key) then Some(us[|us| - 1].val)
    else LastWrite(cs, us[..|us| - 1], key)
  }

  function CKeys<V>(es: seq<CEntry<V>>): (r: seq<Canonical>)
    ensures |r| == |es| && forall i :: 0 <= i < |es| ==> r[i] == es[i].key
  {
    seq(|es|, i requires 0 <= i < |es| => es[i].key)
  }

  ghost predicate KeysHeld<V>(cs: Classes, at: map<int, int>, us: seq<Update<V>>) {
    forall i :: 0 <= i < |us| ==> Held(cs, at, us[i].key)
  }

  lemma PutKeys<V>(es: seq<CEntry<V>>, c: Canonical, v: V)
    requires DistinctKeys(es)
    ensures DistinctKeys(Put(es, c, v))
    ensures CKeys(Put(es, c, v)) == if c in CKeys(es) then CKeys(es) else CKeys(es) + [c]
  {
    hide CFind;
    var i := CFind(es, c);
    if c in CKeys(es) {
      var j :| 0 <= j < |es| && CKeys(es)[j] == c;
      assert es[j].key == c;
    } else {
      forall j | 0 <= j < |es| ensures es[j].key != c {
        assert CKeys(es)[j] in CKeys(es);
      }
    }
  }

  /**
   After any run of updates the keys are pairwise different, stand in the order of their
   first update, and each maps to the last value written for it.
   */
  lemma {:induction false} RunMeans<V>(cs: Classes, at: map<int, int>, us: seq<Update<V>>, probe: Key)
    requires KeysHeld(cs, at, us) && Held(cs, at, probe)
    ensures AllHeld(cs, at, Run(cs, us)) && DistinctKeys(CanonAll(cs, Run(cs, us)))
    ensures CKeys(CanonAll(cs, Run(cs, us))) == FirstSeen(cs, us)
    ensures Lookup(cs, Run(cs, us), probe) == LastWrite(cs, us, probe)
    decreases |us|
  {
    hide KeyEq, Canon, Held, Lookup, Updated;
    if us == [] {
      assert Lookup<V>(cs, [], probe) == None by { LookupNone<V>(cs, probe); }
    } else {
      var p, u := us[..|us| - 1], us[|us| - 1];
      RunMeans(cs, at, p, probe);
      UpdateIsPut(cs, at, Run(cs, p), u.key, u.val, u.inPlace);
      PutKeys(CanonAll(cs, Run(cs, p)), Canon(cs, u.key), u.val);
      LookupUpdated(cs, at, Run(cs, p), u.key, u.val, u.inPlace, probe);
    }
  }

  lemma LookupNone<V>(cs: Classes, probe: Key)
    ensures Lookup<V>(cs, [], probe) == None
  {
  }
}
