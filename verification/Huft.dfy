/** huft_build (zBoot/inflate.c:97-309): decoding tables from a list of code lengths. */
module Huft {
  import opened BitStrings
  import opened Huffman
  import opened Canonical
  import opened HuftTables
  import opened HuftAdvance
  import opened HuftPlace

  const N_MAX := 288

  /** What the table says about a symbol: literals, end of block, or a base and its extra bits. */
  function PayloadOf(s: nat, d: seq<nat>, e: seq<nat>, sym: nat): Payload {
    if sym < s then Value(if sym < 256 then 16 else 15, sym)
    else if sym - s < |d| && sym - s < |e| then Value(e[sym - s], d[sym - s])
    else Invalid
  }

  /** What the p-th codeword stands for, in order of length: a symbol, or nothing when the symbols
      have run out. */
  function Slotted(v: seq<nat>, n: nat, s: nat, d: seq<nat>, e: seq<nat>, p: nat): Payload
    requires n <= |v|
  {
    if p >= n then Invalid else PayloadOf(s, d, e, v[p])
  }

  lemma LongestUsed<P>(c: Code<P>)
    requires c.Full()
    ensures c.cnt[c.g] > 0
  {
    if c.g > 1 { assert c.RoomAfter(c.g - 1); }
  }

  lemma StartReady(c: Code<Payload>, k: nat)
    requires c.Full() && 1 <= k <= c.g && forall j :: 1 <= j < k ==> c.cnt[j] == 0
    ensures Ready(c, [], [], [], [], Zeros(k), 0, 0 - c.l, 0)
    ensures BE(Zeros(k)) == 0 == LE(Zeros(k)) == c.First(k) && c.Offset(k) == 0
    ensures !Oversized(c, []) && !WideBefore(c, k, 0)
  {
    PositionAllFalse(Zeros(k), c.g);
    PositionAllFalse(Zeros(k), k);
    LEAllFalse(Zeros(k));
    WideBeforeStart(c, k);
  }

  lemma LongerReady(c: Code<Payload>, tabs: Tables, info: seq<Node>, u: seq<nat>, x: seq<nat>, bits: Bits, pos: nat,
          w: int, z: nat)
    requires Ready(c, tabs, info, u, x, bits, pos, w, z) && 1 <= |bits| < c.g && BE(bits) == c.End(|bits|)
    ensures Ready(c, tabs, info, u, x, bits + [false], pos, w, z)
    ensures BE(bits + [false]) == c.First(|bits| + 1) && LE(bits + [false]) == LE(bits)
    ensures c.Offset(|bits| + 1) == c.Offset(|bits|) + c.cnt[|bits|]
  {
    Lengthen(c, tabs, info, u, bits, pos);
    BEAppend(bits, false);
    LEPadded(bits, [false]);
  }

  /** The loops at zBoot/inflate.c:204-303 over the code lengths and the codewords of each. */
  method BuildTables(cnt: seq<nat>, v: seq<nat>, n: nat, s: nat, d: seq<nat>, e: seq<nat>, kMin: nat, g: nat, l: nat,
                     ghost c: Code<Payload>)
      returns (tabs: Tables, ghost info: seq<Node>)
    requires c.Full() && c.cnt == cnt && c.g == g && c.l == l && n <= |v|
    requires 1 <= kMin <= g && forall j :: 1 <= j < kMin ==> cnt[j] == 0
    requires forall p :: 0 <= p < |c.pay| ==> c.pay[p] == Slotted(v, n, s, d, e, p)
    ensures Finished(c, tabs, info)
    ensures Oversized(c, info) <==> WideBefore(c, g, c.End(g))
  {
    hide Ready, Finished, TooWide, WideBefore, Oversized;
    tabs, info := [], [];
    var u: seq<nat>, x: seq<nat> := [], [];
    var i: nat, p: nat, z: nat, k: nat := 0, 0, 0, kMin;
    var w: int := 0 - l;
    ghost var bits, pos := Zeros(k), 0;
    StartReady(c, k);
    while k < g
      invariant kMin <= k <= g
      invariant Ready(c, tabs, info, u, x, bits, pos, w, z) && |bits| == k && BE(bits) == c.First(k) && i == LE(bits)
      invariant p == c.Offset(k)
      invariant Oversized(c, info) <==> WideBefore(c, k, c.First(k))
    {
      tabs, u, x, w, z, i, p, info, bits, pos :=
        PlaceLength(cnt, v, n, s, d, e, k, g, l, tabs, u, x, w, z, i, p, c, info, bits, pos);
      LongerReady(c, tabs, info, u, x, bits, pos, w, z);
      WideBeforeLength(c, k);
      WideBeforeNext(c, k);
      bits := bits + [false];
      k := k + 1;
    }
    LongestUsed(c);
    WideBeforeLength(c, k);
    tabs, u, x, w, z, i, p, info, bits, pos :=
      PlaceLength(cnt, v, n, s, d, e, k, g, l, tabs, u, x, w, z, i, p, c, info, bits, pos);
  }

  /** All codewords of one length. */
  method PlaceLength(cnt: seq<nat>, v: seq<nat>, n: nat, s: nat, d: seq<nat>, e: seq<nat>, k: nat, g: nat, l: nat,
                     tabs0: Tables, u0: seq<nat>, x0: seq<nat>, w0: int, z0: nat, i0: nat, p0: nat,
                     ghost c: Code<Payload>, ghost info0: seq<Node>, ghost bits0: Bits, ghost pos0: nat)
      returns (tabs: Tables, u: seq<nat>, x: seq<nat>, w: int, z: nat, i: nat, p: nat,
               ghost info: seq<Node>, ghost bits: Bits, ghost pos: nat)
    requires c.Full() && c.cnt == cnt && c.g == g && c.l == l && n <= |v| && 1 <= k <= g
    requires forall p :: 0 <= p < |c.pay| ==> c.pay[p] == Slotted(v, n, s, d, e, p)
    requires Ready(c, tabs0, info0, u0, x0, bits0, pos0, w0, z0) && |bits0| == k && BE(bits0) == c.First(k)
      && i0 == LE(bits0)
    requires p0 == c.Offset(k)
    ensures k < g ==>
      Ready(c, tabs, info, u, x, bits, pos, w, z) && |bits| == k && BE(bits) == c.End(k)
      && i == LE(bits)
    ensures k == g && cnt[g] > 0 ==> Finished(c, tabs, info)
    ensures p == c.Offset(k) + cnt[k]
    ensures Oversized(c, info)
      <==> Oversized(c, info0) || exists val: nat :: c.First(k) <= val < c.End(k) && TooWide(c, k, val)
  {
    hide Ready, Finished, TooWide, Oversized;
    tabs, u, x, w, z, i, p, info, bits, pos := tabs0, u0, x0, w0, z0, i0, p0, info0, bits0, pos0;
    var a := cnt[k];
    while a > 0
      invariant a <= cnt[k]
      invariant a > 0 || k < g || cnt[g] == 0 ==>
        Ready(c, tabs, info, u, x, bits, pos, w, z) && |bits| == k && i == LE(bits)
          && BE(bits) == c.First(k) + (cnt[k] - a)
      invariant a == 0 && k == g && cnt[g] > 0 ==> Finished(c, tabs, info)
      invariant p == c.Offset(k) + (cnt[k] - a)
      invariant Oversized(c, info) <==>
        Oversized(c, info0) || exists val: nat :: c.First(k) <= val < c.First(k) + (cnt[k] - a) && TooWide(c, k, val)
    {
      c.WordHasPayload(bits, p);
      NotLast(c, k, a);
      var r := Slotted(v, n, s, d, e, p);
      tabs, u, x, w, z, i, info := PlaceWord(cnt, k, g, l, a - 1, i, r, tabs, u, x, w, z, c, info, bits, pos, p);
      SuccessorBE(bits);
      pos := pos + Pow2(g - k);
      bits := Successor(bits);
      p := p + 1;
      a := a - 1;
    }
  }

  /** Only the very last codeword is all ones. */
  lemma NotLast(c: Code<Payload>, k: nat, a: nat)
    requires c.Full() && 1 <= k <= c.g && 0 < a <= c.cnt[k]
    ensures c.End(k) - a + 1 <= Pow2(k)
    ensures c.End(k) - a + 1 == Pow2(k) <==> k == c.g && a == 1
  {
    if k < c.g { assert c.RoomAfter(k); }
  }

  // ---- from code lengths to counts and sorted symbols ----

  method CountLengths(b: seq<nat>) returns (c: array<nat>)
    requires forall i :: 0 <= i < |b| ==> b[i] <= BMAX
    ensures fresh(c) && c.Length == BMAX + 1
    ensures forall k :: 0 <= k <= BMAX ==> c[k] == Count(b, k)
  {
    c := new nat[BMAX + 1](_ => 0);
    var i := 0;
    while i < |b|
      invariant i <= |b|
      invariant forall k :: 0 <= k <= BMAX ==> c[k] == Count(b[..i], k)
    {
      assert b[..i + 1][..i] == b[..i];
      c[b[i]] := c[b[i]] + 1;
      i := i + 1;
    }
    assert b[..i] == b;
  }

  /** The number of symbols with a shorter nonzero length than k. */
  function OffsetOf(b: seq<nat>, k: nat): nat {
    if k <= 1 then 0 else OffsetOf(b, k - 1) + Count(b, k - 1)
  }

  lemma {:induction false} OffsetNext(b: seq<nat>, k: nat)
    requires k >= 1
    ensures OffsetOf(b, 1) == 0 && OffsetOf(b, k + 1) == OffsetOf(b, k) + Count(b, k)
  {
  }

  lemma {:induction false} OffsetsApart(b: seq<nat>, j: nat, k: nat)
    requires 1 <= j < k
    ensures OffsetOf(b, j) + Count(b, j) <= OffsetOf(b, k)
  {
    if j < k - 1 { OffsetsApart(b, j, k - 1); }
  }

  /** Counting a list by lengths counts each element at most once. */
  lemma {:induction false} OffsetBound(b: seq<nat>, k: nat)
    requires k >= 1
    ensures OffsetOf(b, k) <= |b|
    ensures (forall i :: 0 <= i < |b| ==> 1 <= b[i] < k) ==> OffsetOf(b, k) == |b|
    decreases |b|
  {
    if b == [] {
      OffsetEmpty(k);
    } else {
      OffsetBound(b[..|b| - 1], k);
      OffsetGrows(b, k);
    }
  }

  lemma {:induction false} OffsetEmpty(k: nat)
    ensures OffsetOf([], k) == 0
  {
    if k > 1 { OffsetEmpty(k - 1); }
  }

  lemma {:induction false} OffsetGrows(b: seq<nat>, k: nat)
    requires b != []
    ensures OffsetOf(b, k) == OffsetOf(b[..|b| - 1], k) + (if 1 <= b[|b| - 1] < k then 1 else 0)
  {
    if k > 1 { OffsetGrows(b, k - 1); }
  }

  /** v lists the symbols of nonzero length in order of length, then symbol. */
  ghost predicate Sorted(b: seq<nat>, v: seq<nat>, n: nat)
    requires n <= |b|
  {
    forall i :: 0 <= i < n && b[i] > 0 ==>
      OffsetOf(b, b[i]) + Rank(b, i) < |v| && v[OffsetOf(b, b[i]) + Rank(b, i)] == i
  }

  lemma PlaceOfSymbol(b: seq<nat>, i: nat)
    requires i < |b| && b[i] > 0
    ensures OffsetOf(b, b[i]) + Rank(b, i) < |b|
  {
    CountPrefix(b, i, b[i]);
    OffsetBound(b, b[i] + 1);
  }

  lemma PlacesDiffer(b: seq<nat>, i: nat, j: nat)
    requires i < j < |b| && b[i] > 0 && b[j] > 0
    ensures OffsetOf(b, b[i]) + Rank(b, i) != OffsetOf(b, b[j]) + Rank(b, j)
  {
    CountPrefix(b, i, b[i]);
    CountPrefix(b, j, b[j]);
    if b[i] == b[j] {
      assert b[..j][..i] == b[..i];
      CountPrefix(b[..j], i, b[i]);
    } else if b[i] < b[j] {
      OffsetsApart(b, b[i], b[j]);
    } else {
      OffsetsApart(b, b[j], b[i]);
    }
  }

  lemma CountNext(b: seq<nat>, i: nat)
    requires i < |b|
    ensures forall t :: Count(b[..i + 1], t) == Count(b[..i], t) + if b[i] == t then 1 else 0
  {
    assert b[..i + 1][..i] == b[..i];
  }

  /** Where each length starts in the sorted list (zBoot/inflate.c:176-181). */
  method Offsets(b: seq<nat>, c: array<nat>, g: nat) returns (x: array<nat>)
    requires c.Length == BMAX + 1 && 1 <= g <= BMAX
    requires forall k :: 1 <= k < g ==> c[k] == Count(b, k)
    ensures fresh(x) && x.Length == BMAX + 1 && forall t :: 1 <= t <= g ==> x[t] == OffsetOf(b, t)
  {
    hide Count, OffsetOf;
    x := new nat[BMAX + 1](_ => 0);
    var j, k := 0, 1;
    OffsetNext(b, 1);
    while k < g
      invariant 1 <= k <= g && j == OffsetOf(b, k)
      invariant forall t :: 1 <= t <= k ==> x[t] == OffsetOf(b, t)
    {
      OffsetNext(b, k);
      j := j + c[k];
      k := k + 1;
      x[k] := j;
    }
  }

  ghost function PlaceOf(b: seq<nat>, i: nat): nat
    requires i < |b|
  {
    OffsetOf(b, b[i]) + Rank(b, i)
  }

  lemma SortedStep(b: seq<nat>, v: seq<nat>, i: nat, v': seq<nat>)
    requires i < |b| && Sorted(b, v, i)
    requires b[i] != 0 ==> PlaceOf(b, i) < |v| && v' == v[PlaceOf(b, i) := i]
    requires b[i] == 0 ==> v' == v
    ensures Sorted(b, v', i + 1)
  {
    hide Count, OffsetOf, Rank;
    forall t | 0 <= t < i + 1 && b[t] > 0
      ensures PlaceOf(b, t) < |v'| && v'[PlaceOf(b, t)] == t
    {
      if t < i && b[i] != 0 { PlacesDiffer(b, t, i); }
    }
  }

  lemma PlaceIs(b: seq<nat>, i: nat)
    requires i < |b|
    ensures PlaceOf(b, i) == OffsetOf(b, b[i]) + Count(b[..i], b[i])
  {
  }

  lemma NothingSorted(b: seq<nat>, v: seq<nat>)
    ensures Sorted(b, v, 0) && b[..0] == [] && forall t :: Count(b[..0], t) == 0
  {
  }

  /** The counting sort at zBoot/inflate.c:176-190. */
  method SortSymbols(b: seq<nat>, c: array<nat>, g: nat) returns (v: array<nat>)
    requires 0 < |b| <= N_MAX && c.Length == BMAX + 1 && 1 <= g <= BMAX
    requires forall i :: 0 <= i < |b| ==> b[i] <= g
    requires forall k :: 1 <= k < g ==> c[k] == Count(b, k)
    ensures fresh(v) && v.Length == N_MAX && Sorted(b, v[..], |b|)
  {
    hide Count, OffsetOf, Sorted, Rank;
    v := new nat[N_MAX];
    var x := Offsets(b, c, g);
    var i: nat := 0;
    NothingSorted(b, v[..]);
    while i < |b|
      invariant i <= |b|
      invariant forall t :: 1 <= t <= g ==> x[t] == OffsetOf(b, t) + Count(b[..i], t)
      invariant Sorted(b, v[..], i)
    {
      CountNext(b, i);
      ghost var v0 := v[..];
      if b[i] != 0 {
        PlaceOfSymbol(b, i);
        assert x[b[i]] == PlaceOf(b, i) by { PlaceIs(b, i); }
        v[x[b[i]]] := i;
        x[b[i]] := x[b[i]] + 1;
        assert v[..] == v0[PlaceOf(b, i) := i];
      }
      SortedStep(b, v0, i, v[..]);
      i := i + 1;
    }
    assert i == |b|;
  }
}
