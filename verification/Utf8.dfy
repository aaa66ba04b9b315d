/**
 UTF-8 as the runtime encodes and decodes it, per section 4 of RFC 3629: strict
 decoding with one replacement character per maximal ill-formed subpart.
 */
module Utf8 {

  type Byte = b: int | 0 <= b < 256

  const REPLACEMENT: int := 0xFFFD

  /** A Unicode scalar value: a code point outside the surrogate range. */
  predicate Scalar(c: int) {
    0 <= c < 0xD800 || 0xE000 <= c <= 0x10FFFF
  }

  /** The bytes written for a 64-bit argument; or-ing the marker bits is an addition. */
  function Encode(cp: int): (e: seq<Byte>)
    ensures 1 <= |e| <= 4
  {
    EncodeWord(cp % 0x1_0000_0000_0000_0000)
  }

  function EncodeWord(c: nat): (e: seq<Byte>)
    ensures 1 <= |e| <= 4
  {
    if c <= 0x7F then [c]
    else if c <= 0x7FF then [0xC0 + c / 64, 0x80 + c % 64]
    else if c <= 0xFFFF then [0xE0 + c / 4096, 0x80 + c / 64 % 64, 0x80 + c % 64]
    else [0xF0 + c / 262144 % 16, 0x80 + c / 4096 % 64, 0x80 + c / 64 % 64, 0x80 + c % 64]
  }

  lemma EncodeIsWord(c: int)
    requires Scalar(c)
    ensures Encode(c) == EncodeWord(c)
  {
    hide EncodeWord;
  }

  function EncodeAll(cs: seq<int>): (e: seq<Byte>) {
    if cs == [] then [] else Encode(cs[0]) + EncodeAll(cs[1..])
  }

  predicate Scalars(cs: seq<int>) {
    forall i :: 0 <= i < |cs| ==> Scalar(cs[i])
  }

  /** One decoding step: the code point, the bytes used, and whether the offset is a boundary. */
  datatype Step = Step(cp: int, len: nat, boundary: bool)

  /** What a lead byte asks for: how many more bytes, and the bounds of the second. */
  datatype Lead = Bad | Lead(need: nat, lo: int, hi: int, bits: int)

  function LeadOf(b0: Byte): (l: Lead)
    requires b0 > 0xBF
    ensures l.Lead? ==> 1 <= l.need <= 3
  {
    if b0 <= 0xC1 then Bad
    else if b0 <= 0xDF then Lead(1, 0x80, 0xBF, b0 % 32)
    else if b0 == 0xE0 then Lead(2, 0xA0, 0xBF, b0 % 16)
    else if b0 <= 0xEC then Lead(2, 0x80, 0xBF, b0 % 16)
    else if b0 == 0xED then Lead(2, 0x80, 0x9F, b0 % 16)
    else if b0 <= 0xEF then Lead(2, 0x80, 0xBF, b0 % 16)
    else if b0 == 0xF0 then Lead(3, 0x90, 0xBF, b0 % 8)
    else if b0 <= 0xF3 then Lead(3, 0x80, 0xBF, b0 % 8)
    else if b0 == 0xF4 then Lead(3, 0x80, 0x8F, b0 % 8)
    else Bad
  }

  predicate Trail(b: Byte) {
    0x80 <= b <= 0xBF
  }

  /** The six payload bits of a trail byte. */
  function Low6(b: Byte): (x: int)
    ensures Trail(b) ==> x == b - 0x80
  {
    b % 64
  }

  // ------------------------------------------------------------- the reference

  /** Some scalar's encoding starts with `p`. */
  ghost predicate Viable(p: seq<Byte>) {
    exists c :: Scalar(c) && p <= Encode(c)
  }

  /**
   What decoding at offset i must give. A whole encoding is read back as its scalar.
   Otherwise the answer is the replacement character and the step covers the longest
   stretch that could have begun an encoding, or one byte if there is none.
   */
  ghost predicate Exact(s: seq<Byte>, i: nat, r: Step)
    requires i < |s|
  {
    && 1 <= r.len <= |s| - i
    && (r.boundary <==> !Trail(s[i]))
    && (if Scalar(r.cp) && s[i..i + r.len] == Encode(r.cp) then true
        else
          && r.cp == REPLACEMENT
          && (forall c :: Scalar(c) ==> !(Encode(c) <= s[i..]))
          && (r.len > 1 ==> Viable(s[i..i + r.len]))
          && (i + r.len < |s| ==> !Viable(s[i..i + r.len + 1])))
  }

  // ------------------------------------------------- shape of encoded scalars

  /** The bytes of an encoded scalar obey the lead table. */
  lemma EncodeShape(c: int)
    requires Scalar(c)
    ensures Begins(Encode(c))
    ensures if c <= 0x7F then Encode(c) == [c] else Encode(c)[0] > 0xBF && LeadOf(Encode(c)[0]).need == |Encode(c)| - 1
    ensures c > 0x7F ==> Spelled(Encode(c)) == c
  {
    hide Encode, EncodeWord, Low6, Spelled;
    EncodeIsWord(c);
    Digits(c);
    if c <= 0x7F {
      Word1(c);
    } else if c <= 0x7FF {
      Word2(c, c / 64, c % 64);
      Spelled2(Encode(c));
    } else if c <= 0xFFFF {
      Word3(c, c / 4096, c / 64 % 64, c % 64);
      Spelled3(Encode(c));
    } else {
      Word4(c, c / 262144, c / 4096 % 64, c / 64 % 64, c % 64);
      Spelled4(Encode(c));
    }
  }

  lemma Word1(c: nat)
    requires c <= 0x7F
    ensures EncodeWord(c) == [c]
  {
  }

  lemma Word2(c: nat, d1: int, d0: int)
    requires 0x7F < c <= 0x7FF && 0 <= d0 < 64 && c == d1 * 64 + d0
    ensures EncodeWord(c) == [0xC0 + d1, 0x80 + d0]
  {
  }

  lemma Word3(c: nat, d2: int, d1: int, d0: int)
    requires 0x7FF < c <= 0xFFFF && 0 <= d1 < 64 && 0 <= d0 < 64 && c == d2 * 4096 + d1 * 64 + d0
    ensures EncodeWord(c) == [0xE0 + d2, 0x80 + d1, 0x80 + d0]
  {
    assert c / 64 == d2 * 64 + d1;
    assert c / 4096 == d2;
  }

  lemma Word4(c: nat, d3: int, d2: int, d1: int, d0: int)
    requires 0xFFFF < c <= 0x10FFFF && 0 <= d2 < 64 && 0 <= d1 < 64 && 0 <= d0 < 64
    requires c == d3 * 262144 + d2 * 4096 + d1 * 64 + d0
    ensures EncodeWord(c) == [0xF0 + d3, 0x80 + d2, 0x80 + d1, 0x80 + d0]
  {
    assert c / 64 == d3 * 4096 + d2 * 64 + d1;
    assert c / 4096 == d3 * 64 + d2;
    assert c / 262144 == d3;
  }

  /** The base-64 digits of a code point. */
  lemma Digits(c: int)
    requires 0 <= c <= 0x10FFFF
    ensures c == c / 64 * 64 + c % 64
    ensures c == c / 4096 * 4096 + c / 64 % 64 * 64 + c % 64
    ensures c == c / 262144 * 262144 + c / 4096 % 64 * 4096 + c / 64 % 64 * 64 + c % 64
  {
  }

  /** The code point spelled by a lead byte and the trail bytes after it. */
  function Spelled(p: seq<Byte>): int
    requires |p| >= 1 && p[0] > 0xBF && LeadOf(p[0]).Lead?
  {
    if |p| == 1 then LeadOf(p[0]).bits
    else Spelled(p[..|p| - 1]) * 64 + Low6(p[|p| - 1])
  }

  lemma Spelled2(p: seq<Byte>)
    requires |p| == 2 && p[0] > 0xBF && LeadOf(p[0]).Lead?
    ensures Spelled(p) == LeadOf(p[0]).bits * 64 + Low6(p[1])
  {
    hide LeadOf, Low6;
    assert Spelled(p[..1]) == LeadOf(p[0]).bits;
  }

  lemma Spelled3(p: seq<Byte>)
    requires |p| == 3 && p[0] > 0xBF && LeadOf(p[0]).Lead?
    ensures Spelled(p) == LeadOf(p[0]).bits * 4096 + Low6(p[1]) * 64 + Low6(p[2])
  {
    hide LeadOf, Low6;
    Spelled2(p[..2]);
  }

  lemma Spelled4(p: seq<Byte>)
    requires |p| == 4 && p[0] > 0xBF && LeadOf(p[0]).Lead?
    ensures Spelled(p) == LeadOf(p[0]).bits * 262144 + Low6(p[1]) * 4096 + Low6(p[2]) * 64 + Low6(p[3])
  {
    hide LeadOf, Low6;
    Spelled3(p[..3]);
  }

  /** The payload bits of a lead byte. */
  lemma LeadBits(b: Byte)
    requires b > 0xBF && LeadOf(b).Lead?
    ensures LeadOf(b).bits == b - (if LeadOf(b).need == 1 then 0xC0 else if LeadOf(b).need == 2 then 0xE0 else 0xF0)
  {
  }

  /** Well-formed bytes encode a scalar. */
  lemma SpelledEncodes(e: seq<Byte>)
    requires Begins(e) && e[0] > 0xBF && |e| == LeadOf(e[0]).need + 1
    ensures Scalar(Spelled(e)) && Encode(Spelled(e)) == e
  {
    assert Trail(e[1]);
    if |e| == 2 {
      Encodes2(e);
    } else if |e| == 3 {
      assert Trail(e[2]);
      Encodes3(e);
    } else {
      assert Trail(e[2]) && Trail(e[3]);
      Encodes4(e);
    }
  }

  lemma Encodes2(e: seq<Byte>)
    requires |e| == 2 && 0xC2 <= e[0] <= 0xDF && Trail(e[1])
    ensures Scalar(Spelled(e)) && Encode(Spelled(e)) == e
  {
    hide Spelled, Low6, Encode, EncodeWord;
    Spelled2(e);
    LeadBits(e[0]);
    hide LeadOf;
    Word2(Spelled(e), e[0] - 0xC0, e[1] - 0x80);
    EncodeIsWord(Spelled(e));
  }

  lemma Encodes3(e: seq<Byte>)
    requires |e| == 3 && 0xE0 <= e[0] <= 0xEF && Trail(e[1]) && Trail(e[2])
    requires (e[0] == 0xE0 ==> e[1] >= 0xA0) && (e[0] == 0xED ==> e[1] <= 0x9F)
    ensures Scalar(Spelled(e)) && Encode(Spelled(e)) == e
  {
    hide Spelled, Low6, Encode, EncodeWord;
    Spelled3(e);
    LeadBits(e[0]);
    hide LeadOf;
    Word3(Spelled(e), e[0] - 0xE0, e[1] - 0x80, e[2] - 0x80);
    EncodeIsWord(Spelled(e));
  }

  lemma Encodes4(e: seq<Byte>)
    requires |e| == 4 && 0xF0 <= e[0] <= 0xF4 && Trail(e[1]) && Trail(e[2]) && Trail(e[3])
    requires (e[0] == 0xF0 ==> e[1] >= 0x90) && (e[0] == 0xF4 ==> e[1] <= 0x8F)
    ensures Scalar(Spelled(e)) && Encode(Spelled(e)) == e
  {
    hide Spelled, Low6, Encode, EncodeWord;
    Spelled4(e);
    LeadBits(e[0]);
    hide LeadOf;
    Word4(Spelled(e), e[0] - 0xF0, e[1] - 0x80, e[2] - 0x80, e[3] - 0x80);
    EncodeIsWord(Spelled(e));
  }

  /** What a non-empty prefix of an encoding looks like. */
  predicate Begins(p: seq<Byte>) {
    && |p| >= 1
    && (if p[0] <= 0x7F then |p| == 1
        else
          && p[0] > 0xBF && LeadOf(p[0]).Lead? && |p| <= LeadOf(p[0]).need + 1
          && (|p| > 1 ==> LeadOf(p[0]).lo <= p[1] <= LeadOf(p[0]).hi)
          && (forall k :: 1 <= k < |p| ==> Trail(p[k])))
  }

  lemma ViableBegins(p: seq<Byte>)
    requires |p| >= 1 && Viable(p)
    ensures Begins(p)
  {
    var c :| Scalar(c) && p <= Encode(c);
    EncodeShape(c);
    hide Encode, LeadOf;
    forall k | 1 <= k < |p| ensures p[k] == Encode(c)[k] {}
  }

  lemma BeginsViable(p: seq<Byte>)
    requires Begins(p)
    ensures Viable(p)
  {
    if p[0] <= 0x7F {
      assert Encode(p[0]) == p;
    } else {
      var l := LeadOf(p[0]);
      var e := if |p| == l.need + 1 then p
               else if |p| == 1 then p + [l.lo] + seq(l.need - 1, _ => 0x80)
               else p + seq(l.need + 1 - |p|, _ => 0x80);
      SpelledEncodes(e);
      assert p <= Encode(Spelled(e));
    }
  }

  /** Encodings are prefix-free and decode to one scalar. */
  lemma PrefixFree(c: int, d: int)
    requires Scalar(c) && Scalar(d) && Encode(c) <= Encode(d)
    ensures c == d
  {
    EncodeShape(c);
    EncodeShape(d);
    hide Begins, LeadOf, Spelled, Encode;
    assert Encode(c)[0] == Encode(d)[0];
  }

  // ------------------------------------------------------------------ decoding

  lemma GoodExact(s: seq<Byte>, i: nat, len: nat)
    requires i < |s| && 1 <= len <= |s| - i && Begins(s[i..i + len])
    requires s[i] > 0xBF && len == LeadOf(s[i]).need + 1
    ensures Exact(s, i, Step(Spelled(s[i..i + len]), len, true))
  {
    SpelledEncodes(s[i..i + len]);
    hide Encode, LeadOf, Spelled, Begins;
  }

  /** An incomplete stretch that cannot be continued is ill-formed, and maximal. */
  lemma FailExact(s: seq<Byte>, i: nat, len: nat)
    requires i < |s| && 1 <= len <= |s| - i && s[i] > 0x7F
    requires len > 1 ==> Begins(s[i..i + len])
    requires Begins(s[i..i + len]) ==> len <= LeadOf(s[i]).need
    requires i + len < |s| ==> !Begins(s[i..i + len + 1])
    ensures Exact(s, i, Step(REPLACEMENT, len, !Trail(s[i])))
  {
    hide Encode, LeadOf;
    var p := s[i..i + len];
    if len > 1 { BeginsViable(p); }
    if i + len < |s| && Viable(s[i..i + len + 1]) { ViableBegins(s[i..i + len + 1]); }
    forall c | Scalar(c) ensures !(Encode(c) <= s[i..]) {
      NoEncoding(s, i, len, c);
    }
    assert forall c :: Scalar(c) ==> p != Encode(c);
  }

  lemma NoEncoding(s: seq<Byte>, i: nat, len: nat, c: int)
    requires i < |s| && 1 <= len <= |s| - i && s[i] > 0x7F && Scalar(c)
    requires len > 1 ==> Begins(s[i..i + len])
    requires Begins(s[i..i + len]) ==> len <= LeadOf(s[i]).need
    requires i + len < |s| ==> !Begins(s[i..i + len + 1])
    ensures !(Encode(c) <= s[i..])
    ensures s[i..i + len] != Encode(c)
  {
    EncodeShape(c);
    hide Encode, LeadOf;
    var e, p := Encode(c), s[i..i + len];
    assert |e| <= len && e <= s[i..] ==> e <= p;
    if |e| > len {
      BeginsPrefix(e, len + 1);
      Cut(s, i, e, len + 1);
    }
    assert e <= p ==> |e| == len || Begins(p);
  }

  lemma Cut(s: seq<Byte>, i: nat, e: seq<Byte>, n: nat)
    requires i < |s| && n <= |e|
    ensures e <= s[i..] ==> i + n <= |s| && e[..n] == s[i..i + n]
  {
  }

  lemma BeginsPrefix(e: seq<Byte>, n: nat)
    requires Begins(e) && 1 <= n <= |e|
    ensures Begins(e[..n])
  {
  }

  /** Reads one code point at offset i; never fails, never passes the end. */
  method DecodeAt(s: seq<Byte>, i: nat) returns (r: Step)
    ensures i >= |s| ==> r == Step(REPLACEMENT, 1, true)
    ensures i < |s| ==> Exact(s, i, r)
  {
    if i >= |s| { return Step(REPLACEMENT, 1, true); }
    hide Exact, Spelled;
    var b0 := s[i];
    if b0 <= 0x7F {
      AsciiExact(s, i);
      return Step(b0, 1, true);
    }
    if b0 <= 0xBF {
      FailExact(s, i, 1);
      return Step(REPLACEMENT, 1, false);
    }
    var l := LeadOf(b0);
    if l.Bad? {
      FailExact(s, i, 1);
      return Step(REPLACEMENT, 1, true);
    }
    hide LeadOf;
    if i + 1 >= |s| {
      FailExact(s, i, 1);
      return Step(REPLACEMENT, 1, true);
    }
    var b1 := s[i + 1];
    if b1 < l.lo || b1 > l.hi {
      FailExact(s, i, 1);
      return Step(REPLACEMENT, 1, true);
    }
    var cp := l.bits * 64 + Low6(b1);
    Spelled2(s[i..i + 2]);
    for k := 2 to l.need + 1
      invariant i + k <= |s| && Begins(s[i..i + k])
      invariant cp == Spelled(s[i..i + k])
    {
      if i + k >= |s| {
        FailExact(s, i, k);
        return Step(REPLACEMENT, k, true);
      }
      var bk := s[i + k];
      if bk < 0x80 || bk > 0xBF {
        assert s[i..i + k + 1][k] == bk;
        FailExact(s, i, k);
        return Step(REPLACEMENT, k, true);
      }
      SpelledStep(s, i, k);
      cp := cp * 64 + Low6(bk);
    }
    GoodExact(s, i, l.need + 1);
    return Step(cp, l.need + 1, true);
  }

  lemma SpelledStep(s: seq<Byte>, i: nat, k: nat)
    requires 1 <= k && i + k < |s| && Begins(s[i..i + k]) && s[i] > 0xBF && k <= LeadOf(s[i]).need && Trail(s[i + k])
    requires k > 1
    ensures Begins(s[i..i + k + 1]) && Spelled(s[i..i + k + 1]) == Spelled(s[i..i + k]) * 64 + Low6(s[i + k])
  {
    hide LeadOf;
    var p := s[i..i + k + 1];
    assert p[..k] == s[i..i + k];
    forall j | 1 <= j < |p| ensures Trail(p[j]) {
      if j < k { assert p[j] == s[i..i + k][j]; }
    }
    assert p[1] == s[i..i + k][1];
  }

  lemma AsciiExact(s: seq<Byte>, i: nat)
    requires i < |s| && s[i] <= 0x7F
    ensures Exact(s, i, Step(s[i], 1, true))
  {
    assert s[i..i + 1] == [s[i]] == Encode(s[i]);
  }

  /** Only one step is exact. */
  lemma ExactUnique(s: seq<Byte>, i: nat, r: Step, r': Step)
    requires i < |s| && Exact(s, i, r) && Exact(s, i, r')
    ensures r == r'
  {
    hide Encode, Viable;
    if Whole(s, i, r) {
      WholeWins(s, i, r, r');
    } else if Whole(s, i, r') {
      WholeWins(s, i, r', r);
    } else {
      LongestOnly(s, i, r, r');
      LongestOnly(s, i, r', r);
    }
  }

  ghost predicate Whole(s: seq<Byte>, i: nat, r: Step) {
    i + r.len <= |s| && Scalar(r.cp) && s[i..i + r.len] == Encode(r.cp)
  }

  lemma WholeWins(s: seq<Byte>, i: nat, r: Step, r': Step)
    requires i < |s| && Exact(s, i, r) && Exact(s, i, r') && Whole(s, i, r)
    ensures r == r'
  {
    hide Encode, Viable;
    assert Encode(r.cp) <= s[i..];
    assert Whole(s, i, r');
    if r.len <= r'.len {
      assert Encode(r.cp) <= Encode(r'.cp);
      PrefixFree(r.cp, r'.cp);
    } else {
      assert Encode(r'.cp) <= Encode(r.cp);
      PrefixFree(r'.cp, r.cp);
    }
  }

  lemma LongestOnly(s: seq<Byte>, i: nat, r: Step, r': Step)
    requires i < |s| && Exact(s, i, r) && Exact(s, i, r') && !Whole(s, i, r) && !Whole(s, i, r')
    ensures r'.len <= r.len && r.cp == r'.cp
  {
    hide Encode, Viable;
    if r.len + 1 <= r'.len { ViablePrefix(s, i, r'.len, r.len + 1); }
  }

  lemma ViablePrefix(s: seq<Byte>, i: nat, m: nat, n: nat)
    requires n <= m && i + m <= |s|
    ensures Viable(s[i..i + m]) ==> Viable(s[i..i + n])
  {
    hide Encode;
    if Viable(s[i..i + m]) {
      var c :| Scalar(c) && s[i..i + m] <= Encode(c);
      assert s[i..i + n] == s[i..i + m][..n];
    }
  }

  /** The steps `rs` read s from offset i exactly up to offset j. */
  ghost predicate Reads(s: seq<Byte>, i: nat, rs: seq<Step>, j: nat)
    decreases |rs|
  {
    if rs == [] then i == j
    else i < |s| && Exact(s, i, rs[0]) && Reads(s, i + rs[0].len, rs[1..], j)
  }

  function Points(rs: seq<Step>): (cs: seq<int>)
    ensures |cs| == |rs|
    ensures forall k :: 0 <= k < |rs| ==> cs[k] == rs[k].cp
  {
    seq(|rs|, k requires 0 <= k < |rs| => rs[k].cp)
  }

  lemma {:induction false} ReadsAppend(s: seq<Byte>, i: nat, rs: seq<Step>, j: nat, r: Step)
    requires Reads(s, i, rs, j) && j < |s| && Exact(s, j, r)
    ensures Reads(s, i, rs + [r], j + r.len)
    decreases |rs|
  {
    hide Exact;
    if rs == [] {
      assert Reads(s, j + r.len, [], j + r.len);
    } else {
      ReadsAppend(s, i + rs[0].len, rs[1..], j, r);
      assert (rs + [r])[1..] == rs[1..] + [r];
    }
  }

  /** Two readings from one offset agree as far as the shorter one goes. */
  lemma {:induction false} ReadsPrefix(s: seq<Byte>, i: nat, rs: seq<Step>, j: nat, all: seq<Step>)
    requires Reads(s, i, rs, j) && Reads(s, i, all, |s|) && j <= |s|
    ensures rs <= all && (j < |s| ==> |rs| < |all|) && (j == |s| ==> rs == all)
    decreases |rs|
  {
    hide Exact;
    if rs != [] {
      if all == [] { assert false; }
      ExactUnique(s, i, rs[0], all[0]);
      ExactFits(s, i, rs[0]);
      ReadsPrefix(s, i + rs[0].len, rs[1..], j, all[1..]);
    }
  }

  lemma ExactFits(s: seq<Byte>, i: nat, r: Step)
    requires i < |s| && Exact(s, i, r)
    ensures 1 <= r.len <= 4 && i + r.len <= |s| && Scalar(r.cp)
  {
    hide Encode;
    if !Whole(s, i, r) && r.len > 1 {
      var c :| Scalar(c) && s[i..i + r.len] <= Encode(c);
    }
  }

  /** All the scalars of s, counted in a first pass and stored in a second. */
  method Chars(s: seq<Byte>) returns (out: array<int>)
    ensures exists rs :: Reads(s, 0, rs, |s|) && out[..] == Points(rs)
  {
    hide Exact, Reads;
    ghost var all := [];
    var n, i := 0, 0;
    ReadsNone(s, 0);
    while i < |s|
      invariant i <= |s| && n == |all| && Reads(s, 0, all, i)
      decreases |s| - i
    {
      var r := DecodeAt(s, i);
      ReadsAppend(s, 0, all, i, r);
      ExactFits(s, i, r);
      all := all + [r];
      n, i := n + 1, i + r.len;
    }
    out := new int[n];
    ghost var rs := [];
    var idx := 0;
    i := 0;
    while i < |s|
      invariant i <= |s| && idx == |rs| && Reads(s, 0, rs, i) && Reads(s, 0, all, |s|)
      invariant idx <= n && n == |all| == out.Length && out[..idx] == Points(rs)
      decreases |s| - i
    {
      var r := DecodeAt(s, i);
      ReadsPrefix(s, 0, rs, i, all);
      ReadsAppend(s, 0, rs, i, r);
      ExactFits(s, i, r);
      out[idx] := r.cp;
      rs := rs + [r];
      idx, i := idx + 1, i + r.len;
      ReadsPrefix(s, 0, rs, i, all);
    }
    ReadsPrefix(s, 0, rs, i, all);
  }

  lemma ReadsNone(s: seq<Byte>, i: nat)
    ensures Reads(s, i, [], i)
  {
  }

  /** Reading any concatenation of encoded scalars gives back exactly those scalars. */
  lemma {:induction false} CharsRoundTrip(p: seq<Byte>, cs: seq<int>, rs: seq<Step>)
    requires Scalars(cs)
    requires Reads(p + EncodeAll(cs), |p|, rs, |p + EncodeAll(cs)|)
    ensures Points(rs) == cs
    decreases |cs|
  {
    hide Exact, Encode;
    var s := p + EncodeAll(cs);
    if cs == [] {
      assert rs == [];
    } else {
      var e := Encode(cs[0]);
      if rs == [] { assert false; }
      assert s == p + e + EncodeAll(cs[1..]);
      BoundaryReads(p, cs[0], EncodeAll(cs[1..]), rs[0]);
      CharsRoundTrip(p + e, cs[1..], rs[1..]);
      assert cs == [cs[0]] + cs[1..] && rs == [rs[0]] + rs[1..];
    }
  }

  /** At the first byte of an encoded scalar the step is that scalar, wherever it stands. */
  lemma BoundaryReads(p: seq<Byte>, c: int, q: seq<Byte>, r: Step)
    requires Scalar(c) && Exact(p + Encode(c) + q, |p|, r)
    ensures r == Step(c, |Encode(c)|, true)
  {
    EncodeShape(c);
    hide Encode, Viable, LeadOf, Spelled;
    var s := p + Encode(c) + q;
    assert s[|p|] == Encode(c)[0];
    assert s[|p|..] == Encode(c) + q;
    assert s[|p|..|p| + |Encode(c)|] == Encode(c);
    WholeWins(s, |p|, Step(c, |Encode(c)|, true), r);
  }

  /** Inside an encoded scalar no offset is a boundary. */
  lemma InsideNoBoundary(p: seq<Byte>, c: int, q: seq<Byte>, j: nat)
    requires Scalar(c) && 0 < j < |Encode(c)|
    ensures Trail((p + Encode(c) + q)[|p| + j])
  {
    EncodeShape(c);
    hide Encode;
    assert (p + Encode(c) + q)[|p| + j] == Encode(c)[j];
  }

  lemma {:induction false} ReadScalars(s: seq<Byte>, i: nat, rs: seq<Step>, j: nat)
    requires Reads(s, i, rs, j) && i <= |s|
    ensures Scalars(Points(rs)) && j <= |s|
    decreases |rs|
  {
    hide Exact;
    if rs != [] {
      ExactFits(s, i, rs[0]);
      ReadScalars(s, i + rs[0].len, rs[1..], j);
      forall k | 0 <= k < |rs| ensures Scalar(Points(rs)[k]) {
        if k > 0 { assert Points(rs[1..])[k - 1] == rs[k].cp; }
      }
    }
  }

  /** Decoding never yields a surrogate, and re-encoding gives the bytes back exactly when they were well-formed. */
  lemma ReencodeIff(s: seq<Byte>, rs: seq<Step>)
    requires Reads(s, 0, rs, |s|)
    ensures Scalars(Points(rs))
    ensures EncodeAll(Points(rs)) == s <==> exists cs :: Scalars(cs) && EncodeAll(cs) == s
  {
    hide Exact, Reads, Encode, EncodeAll;
    ReadScalars(s, 0, rs, |s|);
    forall cs | Scalars(cs) && EncodeAll(cs) == s ensures Points(rs) == cs {
      assert [] + EncodeAll(cs) == s;
      CharsRoundTrip([], cs, rs);
    }
  }

  datatype AtResult = Char(cp: int) | OutOfBounds | NotBoundary

  /** The scalar that starts at byte offset i. */
  method At(s: seq<Byte>, i: int) returns (r: AtResult)
    ensures r.OutOfBounds? <==> i < 0 || i >= |s|
    ensures r.NotBoundary? <==> 0 <= i < |s| && Trail(s[i])
    ensures r.Char? ==> exists len :: Exact(s, i, Step(r.cp, len, true))
  {
    if i < 0 || i >= |s| { return OutOfBounds; }
    var d := DecodeAt(s, i);
    if !d.boundary { return NotBoundary; }
    assert d == Step(d.cp, d.len, true);
    r := Char(d.cp);
  }
}
