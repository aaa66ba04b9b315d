/**
 The open-addressing tables of the transfer engine: linear probing over a table that
 doubles at three-quarters load. `empty` is the key value that marks a free slot
 (0 for source payloads, -1 for record offsets) and `zero` the value of a cleared slot.
 The ghost map is what the table means.
 */
module SeenTable {

  const FNV: nat := 1099511628211
  const WORD: nat := 0x1_0000_0000_0000_0000

  /** The 64-bit hash of a key: the product wraps around. */
  function Hash(key: int): nat {
    key * FNV % WORD
  }

  // -------------------------------------------------------------- masks and powers

  function Pow(k: nat): (p: nat)
    ensures p > 0
  {
    if k == 0 then 1 else 2 * Pow(k - 1)
  }

  /** Bitwise and. */
  function And(x: nat, y: nat): (r: nat) {
    if x == 0 || y == 0 then 0 else 2 * And(x / 2, y / 2) + x % 2 * (y % 2)
  }

  /** A table size: a power of two, at most 2^64. */
  ghost predicate PowerOfTwo(cap: nat) {
    exists k: nat :: k <= 64 && cap == Pow(k)
  }

  lemma {:induction false} PowAdd(a: nat, b: nat)
    ensures Pow(a + b) == Pow(a) * Pow(b)
    decreases a
  {
    if a > 0 {
      PowAdd(a - 1, b);
      Assoc(2, Pow(a - 1), Pow(b));
    }
  }

  lemma PowWord()
    ensures Pow(64) == WORD
  {
    assert Pow(4) == 16;
    PowAdd(4, 4);
    PowAdd(8, 8);
    PowAdd(16, 16);
    PowAdd(32, 32);
  }

  /** Halving a number halves its remainder by an even modulus. */
  lemma HalfMod(x: nat, p: nat)
    requires p > 0
    ensures x % (2 * p) == 2 * (x / 2 % p) + x % 2
  {
    var h := x / 2;
    assert h == p * (h / p) + h % p;
    Rebuilt(p, h / p, h % p, x % 2);
  }

  lemma Rebuilt(p: nat, q: nat, r: nat, b: nat)
    requires r < p && b < 2
    ensures (2 * (p * q + r) + b) % (2 * p) == 2 * r + b
  {
    Assoc(2, p, q);
    AddMultiple(2 * p, q, 2 * r + b);
    Small(2 * p, 2 * r + b);
  }

  lemma Small(m: nat, x: nat)
    requires x < m
    ensures x % m == x
  {
  }

  /** Masking with one less than a power of two is taking the remainder by it. */
  lemma {:induction false} AndMask(x: nat, k: nat)
    ensures And(x, Pow(k) - 1) == x % Pow(k)
    decreases k
  {
    hide And, Pow;
    PowStep(k);
    if k == 0 {
      AndNothing(x);
    } else {
      AndMask(x / 2, k - 1);
      MaskStep(x, Pow(k - 1));
    }
  }

  lemma MaskStep(x: nat, p: nat)
    requires p > 0 && And(x / 2, p - 1) == x / 2 % p
    ensures And(x, 2 * p - 1) == x % (2 * p)
  {
    hide And;
    HalfMod(x, p);
    AndOdd(x, p);
  }

  lemma PowStep(k: nat)
    ensures Pow(k) == if k == 0 then 1 else 2 * Pow(k - 1)
  {
  }

  lemma AndNothing(x: nat)
    ensures And(x, 0) == 0 == x % 1
  {
  }

  lemma AndOdd(x: nat, p: nat)
    requires p > 0
    ensures And(x, 2 * p - 1) == 2 * And(x / 2, p - 1) + x % 2
  {
    assert (2 * p - 1) / 2 == p - 1 && (2 * p - 1) % 2 == 1;
  }

  /** The slot index the code computes: a 64-bit sum, masked. */
  function Index(key: int, i: nat, cap: nat): nat
    requires cap > 0
  {
    And((Hash(key) + i) % WORD, cap - 1)
  }

  lemma IndexIsProbe(key: int, i: nat, cap: nat)
    requires PowerOfTwo(cap)
    ensures cap > 0 && Index(key, i, cap) == Probe(key, i, cap)
  {
    var k: nat :| k <= 64 && cap == Pow(k);
    PowAdd(k, 64 - k);
    PowWord();
    MaskIsRemainder(key, i, cap, Pow(64 - k));
    AndMask((Hash(key) + i) % WORD, k);
    hide Pow, And, Hash;
  }

  lemma DoubleIsPower(cap: nat)
    requires PowerOfTwo(cap) && cap < WORD
    ensures PowerOfTwo(2 * cap)
  {
    var k: nat :| k <= 64 && cap == Pow(k);
    PowWord();
    assert Pow(k + 1) == 2 * cap;
  }

  // ------------------------------------------------------------------------ probing

  /** Slot probed at step i, as a remainder. */
  function Probe(key: int, i: nat, cap: nat): (k: nat)
    requires cap > 0
    ensures k < cap
  {
    (Hash(key) + i) % cap
  }

  /** The probe's 64-bit sum may wrap around: no table whose size divides 2^64 can tell. */
  lemma MaskIsRemainder(key: int, i: nat, cap: nat, q: nat)
    requires cap > 0 && WORD == cap * q
    ensures (Hash(key) + i) % WORD % cap == Probe(key, i, cap)
  {
    hide Hash;
    ModMod(Hash(key) + i, cap, q, WORD);
  }

  lemma ModMod(x: nat, cap: nat, q: nat, word: nat)
    requires cap > 0 && word == cap * q > 0
    ensures x % word % cap == x % cap
  {
    var r, d := x % word, x / word;
    assert x == word * d + r;
    Multiples(cap, q, d, r);
  }

  lemma Multiples(cap: nat, q: nat, d: nat, r: nat)
    requires cap > 0
    ensures (cap * q * d + r) % cap == r % cap
  {
    Assoc(cap, q, d);
    AddMultiple(cap, q * d, r);
  }

  lemma Assoc(a: int, b: int, c: int)
    ensures a * b * c == a * (b * c)
  {
  }

  lemma Distribute(a: int, b: int, c: int)
    ensures a * (b + c) == a * b + a * c
  {
  }

  /** Linear probing reaches every slot within one round. */
  lemma ProbeReaches(key: int, k: nat, cap: nat) returns (i: nat)
    requires k < cap
    ensures i < cap && Probe(key, i, cap) == k
  {
    var h := Hash(key) % cap;
    var q := Hash(key) / cap;
    assert Hash(key) == cap * q + h;
    if k >= h {
      i := k - h;
      ModShift(q, cap, k);
    } else {
      i := k + cap - h;
      assert Hash(key) + i == cap * (q + 1) + k;
      ModShift(q + 1, cap, k);
    }
  }

  lemma {:induction false} AddMultiple(cap: nat, m: nat, r: nat)
    requires cap > 0
    ensures (cap * m + r) % cap == r % cap
    decreases m
  {
    if m > 0 {
      AddMultiple(cap, m - 1, r);
      Distribute(cap, m - 1, 1);
      ModDown(cap * (m - 1) + r, cap);
    }
  }

  lemma ModShift(q: nat, cap: nat, k: nat)
    requires k < cap
    ensures (cap * q + k) % cap == k
  {
    AddMultiple(cap, q, k);
  }

  lemma ModDown(x: nat, cap: nat)
    requires cap > 0
    ensures (x + cap) % cap == x % cap
  {
    var q := (x + cap) / cap - x / cap;
    Distribute(cap, (x + cap) / cap, -(x / cap));
    Unit(cap, q - 1, (x + cap) % cap - x % cap);
  }

  lemma Unit(cap: nat, d: int, r: int)
    requires cap * d == -r && 0 - cap < r < cap
    ensures r == 0
  {
    if d >= 1 { Distribute(cap, d - 1, 1); }
    if d <= -1 { Distribute(cap, d + 1, -1); }
  }

  /** Key `key` sits at probe step i of its own sequence, with no gap before it. */
  ghost predicate SitsAt(keys: seq<int>, empty: int, key: int, i: nat) {
    && i < |keys| && keys[Probe(key, i, |keys|)] == key
    && forall j :: 0 <= j < i ==> Occupied(keys, empty, Probe(key, j, |keys|))
  }

  ghost predicate Sits(keys: seq<int>, empty: int, key: int) {
    exists i :: SitsAt(keys, empty, key, i)
  }

  predicate Occupied(keys: seq<int>, empty: int, k: nat) {
    k < |keys| && keys[k] != empty
  }

  /** Number of occupied slots among the first n. */
  function Count(keys: seq<int>, empty: int, n: nat): (c: nat)
    requires n <= |keys|
    ensures c <= n
  {
    if n == 0 then 0 else Count(keys, empty, n - 1) + (if keys[n - 1] != empty then 1 else 0)
  }

  lemma {:induction false} CountFull(keys: seq<int>, empty: int, n: nat)
    requires n <= |keys| && forall k :: 0 <= k < n ==> keys[k] != empty
    ensures Count(keys, empty, n) == n
  {
    if n > 0 { CountFull(keys, empty, n - 1); }
  }

  lemma {:induction false} CountBlank(keys: seq<int>, empty: int, n: nat)
    requires n <= |keys| && forall k :: 0 <= k < n ==> keys[k] == empty
    ensures Count(keys, empty, n) == 0
  {
    if n > 0 { CountBlank(keys, empty, n - 1); }
  }

  lemma {:induction false} CountGrows(keys: seq<int>, empty: int, i: nat, n: nat)
    requires i <= n <= |keys|
    ensures Count(keys, empty, i) <= Count(keys, empty, n)
  {
    if i < n { CountGrows(keys, empty, i, n - 1); }
  }

  lemma {:induction false} CountInsert(keys: seq<int>, empty: int, k: nat, key: int, n: nat)
    requires n <= |keys| && k < |keys| && keys[k] == empty && key != empty
    ensures Count(keys[k := key], empty, n) == Count(keys, empty, n) + (if k < n then 1 else 0)
  {
    if n > 0 { CountInsert(keys, empty, k, key, n - 1); }
  }

  /** The table and the map agree. */
  ghost predicate Means<V>(keys: seq<int>, vals: seq<V>, empty: int, m: map<int, V>) {
    && |keys| == |vals| > 0 && empty !in m
    && (forall k :: 0 <= k < |keys| && keys[k] != empty ==> keys[k] in m && vals[k] == m[keys[k]])
    && (forall k, l :: 0 <= k < l < |keys| && keys[k] != empty ==> keys[k] != keys[l])
    && (forall key :: key in m ==> Sits(keys, empty, key))
    && Count(keys, empty, |keys|) == |m|
  }

  /** A table that is not full has a free slot. */
  lemma FreeSlot<V>(keys: seq<int>, vals: seq<V>, empty: int, m: map<int, V>) returns (k: nat)
    requires Means(keys, vals, empty, m) && |m| < |keys|
    ensures k < |keys| && keys[k] == empty
  {
    if forall k :: 0 <= k < |keys| ==> keys[k] != empty {
      CountFull(keys, empty, |keys|);
    }
    k :| 0 <= k < |keys| && keys[k] == empty;
  }

  lemma MeansBlank<V>(keys: seq<int>, vals: seq<V>, empty: int)
    requires |keys| == |vals| > 0 && forall k :: 0 <= k < |keys| ==> keys[k] == empty
    ensures Means(keys, vals, empty, map[])
  {
    CountBlank(keys, empty, |keys|);
  }

  lemma SitsKept(keys: seq<int>, empty: int, x: int, k: nat, key: int)
    requires Sits(keys, empty, x) && x != empty && k < |keys| && keys[k] == empty && key != empty
    ensures Sits(keys[k := key], empty, x)
  {
    hide Probe;
    var i: nat :| SitsAt(keys, empty, x, i);
    var keys' := keys[k := key];
    forall j | 0 <= j < i ensures Occupied(keys', empty, Probe(x, j, |keys'|)) {
      assert Occupied(keys, empty, Probe(x, j, |keys|));
    }
    assert SitsAt(keys', empty, x, i);
  }

  lemma SitsNew(keys: seq<int>, empty: int, key: int, i: nat)
    requires key != empty && i < |keys|
    requires forall j :: 0 <= j < i ==> Occupied(keys, empty, Probe(key, j, |keys|))
    ensures Sits(keys[Probe(key, i, |keys|) := key], empty, key)
  {
    hide Probe;
    var keys' := keys[Probe(key, i, |keys|) := key];
    forall j | 0 <= j < i ensures Occupied(keys', empty, Probe(key, j, |keys'|)) {
      assert Occupied(keys, empty, Probe(key, j, |keys|));
    }
    assert SitsAt(keys', empty, key, i);
  }

  /** Filling the first free slot of a key's probe sequence adds that key. */
  lemma MeansInsert<V>(keys: seq<int>, vals: seq<V>, empty: int, m: map<int, V>, key: int, v: V, i: nat)
    requires Means(keys, vals, empty, m) && key !in m && key != empty && i < |keys|
    requires keys[Probe(key, i, |keys|)] == empty
    requires forall j :: 0 <= j < i ==> Occupied(keys, empty, Probe(key, j, |keys|))
    ensures var k := Probe(key, i, |keys|); Means(keys[k := key], vals[k := v], empty, m[key := v])
  {
    hide Probe, Count, Sits;
    var k := Probe(key, i, |keys|);
    var keys', m' := keys[k := key], m[key := v];
    SitsNew(keys, empty, key, i);
    forall x | x in m' ensures Sits(keys', empty, x) {
      if x != key { SitsKept(keys, empty, x, k, key); }
    }
    CountInsert(keys, empty, k, key, |keys|);
    AddOne(m, key, v);
  }

  /** What a probe that sees `key` or a gap may conclude. */
  lemma ProbeHit<V>(keys: seq<int>, vals: seq<V>, empty: int, m: map<int, V>, key: int, k: nat)
    requires Means(keys, vals, empty, m) && key != empty && k < |keys| && keys[k] == key
    ensures key in m && vals[k] == m[key]
  {
  }

  lemma ProbeMiss<V>(keys: seq<int>, vals: seq<V>, empty: int, m: map<int, V>, key: int, i: nat)
    requires Means(keys, vals, empty, m) && key != empty && i <= |keys|
    requires forall j :: 0 <= j < i ==> keys[Probe(key, j, |keys|)] != key
    requires i == |keys| || keys[Probe(key, i, |keys|)] == empty
    ensures key !in m
  {
    hide Probe, Count;
    assert i < |keys| ==> !Occupied(keys, empty, Probe(key, i, |keys|));
    forall i': nat ensures !SitsAt(keys, empty, key, i') {
      assert i' < i ==> keys[Probe(key, i', |keys|)] != key;
    }
    assert !Sits(keys, empty, key);
  }

  /** The entries held by the first i slots. */
  ghost function Entries<V>(keys: seq<int>, vals: seq<V>, empty: int, i: nat): (m: map<int, V>)
    requires i <= |keys| == |vals|
  {
    if i == 0 then map[]
    else
      var m := Entries(keys, vals, empty, i - 1);
      if keys[i - 1] != empty then m[keys[i - 1] := vals[i - 1]] else m
  }

  lemma AddOne<V>(m: map<int, V>, key: int, v: V)
    requires key !in m
    ensures |m[key := v]| == |m| + 1
  {
    assert m[key := v].Keys == m.Keys + {key};
    assert |m[key := v].Keys| == |m.Keys| + 1;
  }

  lemma {:induction false} EntriesAre<V>(keys: seq<int>, vals: seq<V>, empty: int, m: map<int, V>, i: nat)
    requires i <= |keys| && Means(keys, vals, empty, m)
    ensures forall x :: x in Entries(keys, vals, empty, i) <==> exists k :: 0 <= k < i && keys[k] == x && x != empty
    ensures forall x :: x in Entries(keys, vals, empty, i) ==> x in m && Entries(keys, vals, empty, i)[x] == m[x]
    ensures |Entries(keys, vals, empty, i)| == Count(keys, empty, i)
  {
    hide Sits, Probe;
    if i > 0 {
      EntriesAre(keys, vals, empty, m, i - 1);
      if keys[i - 1] != empty {
        assert keys[i - 1] !in Entries(keys, vals, empty, i - 1);
        AddOne(Entries(keys, vals, empty, i - 1), keys[i - 1], vals[i - 1]);
      }
    }
  }

  /** Every key the table means sits in some slot, so all the slots together give the map back. */
  lemma EntriesAll<V>(keys: seq<int>, vals: seq<V>, empty: int, m: map<int, V>)
    requires Means(keys, vals, empty, m)
    ensures Entries(keys, vals, empty, |keys|) == m
  {
    hide Probe, Count;
    EntriesAre(keys, vals, empty, m, |keys|);
    var e := Entries(keys, vals, empty, |keys|);
    forall x | x in e ensures x in m && e[x] == m[x] {
      assert x in Entries(keys, vals, empty, |keys|);
    }
    forall x | x in m ensures x in e {
      assert Sits(keys, empty, x);
      var i :| SitsAt(keys, empty, x, i);
      var k := Probe(x, i, |keys|);
      assert 0 <= k < |keys| && keys[k] == x && x != empty;
    }
    assert e.Keys == m.Keys;
  }

  class Table<V> {
    const empty: int
    const zero: V
    var cap: nat
    var n: nat
    var keys: seq<int>
    var vals: seq<V>
    ghost var m: map<int, V>

    ghost predicate Valid()
      reads this
    {
      cap == |keys| && PowerOfTwo(cap) && n == |m| && Means(keys, vals, empty, m) && 4 * n < 3 * cap
    }

    constructor (empty: int, zero: V)
      ensures Valid() && m == map[] && this.empty == empty
    {
      this.empty, this.zero := empty, zero;
      cap, n, keys, vals, m := 64, 0, seq(64, _ => empty), seq(64, _ => zero), map[];
      new;
      MeansBlank(keys, vals, empty);
      assert Pow(6) == 64;
    }

    /** Looks a key up. */
    method Get(key: int) returns (found: bool, v: V)
      requires Valid() && key != empty
      ensures found <==> key in m
      ensures found ==> v == m[key]
    {
      hide Means, Probe, Index, PowerOfTwo;
      MeansShape(keys, vals, empty, m);
      v := zero;
      for i := 0 to cap
        invariant forall j :: 0 <= j < i ==> keys[Probe(key, j, cap)] != key
      {
        IndexIsProbe(key, i, cap);
        var idx := Index(key, i, cap);
        if keys[idx] == empty {
          ProbeMiss(keys, vals, empty, m, key, i);
          return false, zero;
        }
        if keys[idx] == key {
          ProbeHit(keys, vals, empty, m, key, idx);
          return true, vals[idx];
        }
      }
      ProbeMiss(keys, vals, empty, m, key, cap);
      found := false;
    }

    /** Adds a new key, doubling the table first when it would become three-quarters full. */
    method Put(key: int, v: V)
      requires Valid() && key != empty && key !in m && ((n + 1) * 4 >= cap * 3 ==> cap < WORD)
      modifies this
      ensures Valid() && m == old(m)[key := v]
      ensures cap == if (old(n) + 1) * 4 >= old(cap) * 3 then 2 * old(cap) else old(cap)
      decreases if (n + 1) * 4 >= cap * 3 then 2 else 0
    {
      hide Means, Probe, PowerOfTwo;
      if (n + 1) * 4 >= cap * 3 {
        Grow();
      }
      Insert(key, v);
    }

    /** Rehashes every entry into a table of twice the size; the nested puts never grow again. */
    method Grow()
      requires Valid() && (n + 1) * 4 >= cap * 3 && cap < WORD
      modifies this
      ensures Valid() && m == old(m) && cap == 2 * old(cap) && (n + 1) * 4 < cap * 3
      decreases 1
    {
      hide Means, Probe, Count, Entries, PowerOfTwo;
      MeansShape(keys, vals, empty, m);
      DoubleIsPower(cap);
      var oldCap, oldKeys, oldVals := cap, keys, vals;
      ghost var all := m;
      ghost var total := n;
      cap := 2 * cap;
      keys, vals, n, m := seq(cap, _ => empty), seq(cap, _ => zero), 0, map[];
      MeansBlank(keys, vals, empty);
      EntriesNone(oldKeys, oldVals, empty);
      for i := 0 to oldCap
        invariant Valid() && cap == 2 * oldCap
        invariant m == Entries(oldKeys, oldVals, empty, i)
      {
        EntriesStep(oldKeys, oldVals, empty, all, i);
        if oldKeys[i] != empty {
          Put(oldKeys[i], oldVals[i]);
        }
      }
      EntriesAll(oldKeys, oldVals, empty, all);
    }

    method Insert(key: int, v: V)
      requires Valid() && key != empty && key !in m && (n + 1) * 4 < cap * 3
      modifies this
      ensures Valid() && m == old(m)[key := v] && cap == old(cap)
    {
      hide Means, Probe, Index, PowerOfTwo;
      MeansShape(keys, vals, empty, m);
      ghost var slot := FreeSlot(keys, vals, empty, m);
      ghost var last := ProbeReaches(key, slot, cap);
      for i := 0 to cap
        invariant i <= last && cap == old(cap) && Valid()
        invariant keys == old(keys) && vals == old(vals) && m == old(m) && n == old(n)
        invariant forall j :: 0 <= j < i ==> Occupied(keys, empty, Probe(key, j, cap))
      {
        IndexIsProbe(key, i, cap);
        var idx := Index(key, i, cap);
        if keys[idx] == empty {
          MeansInsert(keys, vals, empty, m, key, v, i);
          keys, vals, n := keys[idx := key], vals[idx := v], n + 1;
          m := m[key := v];
          return;
        }
      }
      assert false;
    }
  }

  lemma MeansShape<V>(keys: seq<int>, vals: seq<V>, empty: int, m: map<int, V>)
    requires Means(keys, vals, empty, m)
    ensures |keys| == |vals| > 0
  {
  }

  lemma EntriesNone<V>(keys: seq<int>, vals: seq<V>, empty: int)
    requires |keys| == |vals|
    ensures Entries(keys, vals, empty, 0) == map[]
  {
  }

  /** Rehashing slot i: its key is new to the entries before it, and those leave room. */
  lemma EntriesStep<V>(keys: seq<int>, vals: seq<V>, empty: int, m: map<int, V>, i: nat)
    requires Means(keys, vals, empty, m) && i < |keys|
    ensures keys[i] != empty ==> keys[i] !in Entries(keys, vals, empty, i)
    ensures keys[i] != empty ==> |Entries(keys, vals, empty, i)| + 1 <= |m|
    ensures Entries(keys, vals, empty, i + 1) ==
      if keys[i] != empty then Entries(keys, vals, empty, i)[keys[i] := vals[i]] else Entries(keys, vals, empty, i)
  {
    hide Sits, Probe;
    EntriesAre(keys, vals, empty, m, i);
    CountGrows(keys, empty, i + 1, |keys|);
  }
}
