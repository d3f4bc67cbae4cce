/** What a deflated stream means (sections 3.2.3 to 3.2.7 of RFC 1951), bit by bit and with codes found by
    their definition, as far as the inflater promises it.  The history is what has been inflated so far,
    behind 32K of earlier data that the window held at the start. */
module Deflate {
  import opened BitStrings
  import opened Canonical
  import opened Bytes
  import opened HuftResult
  import opened Reader
  import opened Window

  /** Bases and extra bits of lengths (symbols 257 to 287, of which the last two are not valid) and of
      distances (zBoot/inflate.c:49-63). */
  const CPLENS: seq<nat> := [3, 4, 5, 6, 7, 8, 9, 10, 11, 13, 15, 17, 19, 23, 27, 31,
                             35, 43, 51, 59, 67, 83, 99, 115, 131, 163, 195, 227, 258, 0, 0]
  const CPLEXT: seq<nat> := [0, 0, 0, 0, 0, 0, 0, 0, 1, 1, 1, 1, 2, 2, 2, 2,
                             3, 3, 3, 3, 4, 4, 4, 4, 5, 5, 5, 5, 0, 99, 99]
  const CPDIST: seq<nat> := [1, 2, 3, 4, 5, 7, 9, 13, 17, 25, 33, 49, 65, 97, 129, 193,
                             257, 385, 513, 769, 1025, 1537, 2049, 3073, 4097, 6145,
                             8193, 12289, 16385, 24577]
  const CPDEXT: seq<nat> := [0, 0, 0, 0, 1, 1, 2, 2, 3, 3, 4, 4, 5, 5, 6, 6,
                             7, 7, 8, 8, 9, 9, 10, 10, 11, 11, 12, 12, 13, 13]

  const END := 256
  const LENGTHS := 257

  /** The order in which the lengths of the code length code are sent (zBoot/inflate.c:47-48). */
  const BORDER: seq<nat> := [16, 17, 18, 0, 8, 7, 9, 6, 10, 5, 11, 4, 12, 3, 13, 2, 14, 1, 15]

  datatype Found = None | Some(sym: nat)

  /** The symbol whose code stands at a position. */
  ghost function SymbolAt(b: seq<nat>, s: Bits, pos: nat): (r: Found)
    requires pos <= |s|
    ensures r.Some? ==> Matches(b, r.sym, s[pos..])
    ensures r.None? ==> forall i: nat :: !Matches(b, i, s[pos..])
  {
    if exists i: nat :: Matches(b, i, s[pos..]) then
      var i: nat :| Matches(b, i, s[pos..]);
      Some(i)
    else None
  }

  /** The outcome of a part of the stream: inflated up to a position; not a deflated stream; or bits that are no
      symbol's code, where the tree leaves codes over and symbols out, so that its tables hold what was never
      written. */
  datatype Result = Done(pos: nat, h: seq<Byte>) | Fail | Odd

  datatype Pair = Pair(length: nat, dist: nat, pos: nat) | NoPair | OddPair

  lemma Sizes()
    ensures |CPLENS| == |CPLEXT| == 31 && |CPDIST| == |CPDEXT| == 30 && |BORDER| == 19
    ensures forall i :: 0 <= i < 29 ==> CPLEXT[i] <= 5 && 3 <= CPLENS[i] <= 258
    ensures forall i :: 29 <= i < 31 ==> CPLEXT[i] == 99
    ensures forall j :: 0 <= j < 30 ==> CPDEXT[j] <= 13 && 1 <= CPDIST[j] && CPDIST[j] + Pow2(CPDEXT[j]) <= WSIZE + 1
    ensures forall i :: 0 <= i < 19 ==> BORDER[i] < 19
  {
    hide Pow2;
    forall j | 0 <= j < 30
      ensures CPDEXT[j] <= 13 && 1 <= CPDIST[j] && CPDIST[j] + Pow2(CPDEXT[j]) <= WSIZE + 1
    {
      DistSize(j);
    }
  }

  /** The longest distance of each symbol fits the window. */
  lemma DistSize(j: nat)
    requires j < 30
    ensures |CPDIST| == |CPDEXT| == 30 && CPDEXT[j] <= 13 && 1 <= CPDIST[j] && CPDIST[j] + Pow2(CPDEXT[j]) <= WSIZE + 1
  {
    Powers();
    hide Pow2;
  }

  lemma Powers()
    ensures Pow2(0) == 1 && Pow2(1) == 2 && Pow2(2) == 4 && Pow2(3) == 8 && Pow2(4) == 16 && Pow2(5) == 32
      && Pow2(6) == 64
    ensures Pow2(7) == 128 && Pow2(8) == 256 && Pow2(9) == 512 && Pow2(10) == 1024 && Pow2(11) == 2048
      && Pow2(12) == 4096
    ensures Pow2(13) == 8192 && Pow2(14) == 16384 && Pow2(15) == 32768 && Pow2(16) == 65536
  {
  }

  /** The length and distance of a match whose length symbol, number i of the lengths, ends at pos. */
  ghost function MatchAt(dist: seq<nat>, s: Bits, pos: nat, i: nat): (r: Pair)
    requires pos <= |s|
    ensures r.Pair? ==> pos <= r.pos <= |s| && 3 <= r.length && 1 <= r.dist <= WSIZE
  {
    Sizes();
    if i >= 29 || pos + CPLEXT[i] > |s| then NoPair
    else
      var q := pos + CPLEXT[i];
      var length := CPLENS[i] + Num(s, pos, CPLEXT[i]);
      match SymbolAt(dist, s, q)
      case None => if Readable(dist) then NoPair else OddPair
      case Some(j) =>
        var q' := q + dist[j];
        if j >= 30 || q' + CPDEXT[j] > |s| then NoPair
        else Pair(length, CPDIST[j] + Num(s, q', CPDEXT[j]), q' + CPDEXT[j])
  }

  /** Compressed data up to its end-of-block code (section 3.2.3). */
  ghost function Codes(lit: seq<nat>, dist: seq<nat>, s: Bits, pos: nat, h: seq<Byte>): (r: Result)
    requires pos <= |s| && |h| >= WSIZE
    ensures r.Done? ==> pos <= r.pos <= |s| && |r.h| >= WSIZE
    decreases |s| - pos
  {
    match SymbolAt(lit, s, pos)
    case None => if Readable(lit) then Fail else Odd
    case Some(i) =>
      var q := pos + lit[i];
      if i < END then Codes(lit, dist, s, q, h + [i])
      else if i == END then Done(q, h)
      else
        match MatchAt(dist, s, q, i - LENGTHS)
        case NoPair => Fail
        case OddPair => Odd
        case Pair(n, d, p) => Codes(lit, dist, s, p, CopyBytes(h, d, n))
  }

  /** n whole bytes of the stream. */
  function BytesAt(s: Bits, pos: nat, n: nat): (r: seq<Byte>)
    requires pos + 8 * n <= |s|
    ensures |r| == n
    decreases n
  {
    if n == 0 then [] else
    BytePow();
    BytesAt(s, pos, n - 1) + [Num(s, pos + 8 * (n - 1), 8)]
  }

  /** The next byte boundary. */
  function Align(pos: nat): nat {
    (pos + 7) / 8 * 8
  }

  /** A stored block (section 3.2.4): its length, the complement of that, and the bytes. */
  ghost function Stored(s: Bits, pos: nat, h: seq<Byte>): (r: Result)
    requires pos <= |s| && |h| >= WSIZE
    ensures r.Done? ==> pos <= r.pos <= |s| && |r.h| >= WSIZE
  {
    var q := Align(pos);
    if q + 32 > |s| then Fail
    else
      var n := Num(s, q, 16);
      if n + Num(s, q + 16, 16) != 0xffff || q + 32 + 8 * n > |s| then Fail
      else Done(q + 32 + 8 * n, h + BytesAt(s, q + 32, n))
  }

  /** The fixed trees (section 3.2.6). */
  function FixedLit(): (r: seq<nat>)
    ensures |r| == 288
  {
    seq(144, _ => 8) + seq(112, _ => 9) + seq(24, _ => 7) + seq(8, _ => 8)
  }

  function FixedDist(): (r: seq<nat>)
    ensures |r| == 30
  {
    seq(30, _ => 5)
  }

  datatype Lengths = Lens(pos: nat, l: seq<nat>) | BadLens | OddLens

  function Repeat(x: nat, n: nat): (r: seq<nat>)
    ensures |r| == n && forall i :: 0 <= i < n ==> r[i] == x
  {
    seq(n, _ => x)
  }

  /** Code lengths of a dynamic block (section 3.2.7), n in all, after those read already.  A repeat code
      at the start repeats zero. */
  ghost function LengthsAt(cl: seq<nat>, s: Bits, pos: nat, n: nat, l: seq<nat>): (r: Lengths)
    requires pos <= |s|
    ensures r.Lens? ==> pos <= r.pos <= |s| && |r.l| == n
    decreases |s| - pos
  {
    if |l| == n then Lens(pos, l)
    else if |l| > n then BadLens
    else
      match SymbolAt(cl, s, pos)
      case None => if Readable(cl) then BadLens else OddLens
      case Some(j) =>
        var q := pos + cl[j];
        if j < 16 then LengthsAt(cl, s, q, n, l + [j])
        else
          var x := if j == 16 then 2 else if j == 17 then 3 else 7;
          if q + x > |s| then BadLens
          else
            var count := Num(s, q, x) + (if j == 18 then 11 else 3);
            if |l| + count > n then BadLens
            else LengthsAt(cl, s, q + x, n, l + Repeat(if j == 16 && l != [] then l[|l| - 1] else 0, count))
  }

  /** The lengths of the code length code: n of them are sent, in the order of BORDER. */
  function CodeLengths(s: Bits, pos: nat, n: nat): (r: seq<nat>)
    requires n <= 19 && pos + 3 * n <= |s|
    ensures |r| == 19
    decreases n
  {
    if n == 0 then Repeat(0, 19)
    else Sizes(); CodeLengths(s, pos, n - 1)[BORDER[n - 1] := Num(s, pos + 3 * (n - 1), 3)]
  }

  /** huft_build refuses a tree with more codes than there are, and one with fewer unless its only length
      is 1. */
  ghost predicate Accepted(b: seq<nat>) {
    !Oversubscribed(b) && (Complete(b) || MaxLength(b) <= 1)
  }

  /** A block with dynamic trees (section 3.2.7): the sizes of the trees, the lengths of the code length
      code, and the rest. */
  ghost function Dynamic(s: Bits, pos: nat, h: seq<Byte>): (r: Result)
    requires pos <= |s| && |h| >= WSIZE
    ensures r.Done? ==> pos <= r.pos <= |s| && |r.h| >= WSIZE
  {
    if pos + 14 > |s| then Fail
    else
      var nl, nd, nb := 257 + Num(s, pos, 5), 1 + Num(s, pos + 5, 5), 4 + Num(s, pos + 10, 4);
      Powers();
      if nl > 286 || nd > 30 then Fail else DynamicData(s, pos + 14, nl, nd, nb, h)
  }

  /** The same after the sizes. */
  ghost function DynamicData(s: Bits, pos: nat, nl: nat, nd: nat, nb: nat, h: seq<Byte>): (r: Result)
    requires pos <= |s| && |h| >= WSIZE && nb <= 19
    ensures r.Done? ==> pos <= r.pos <= |s| && |r.h| >= WSIZE
  {
    if pos + 3 * nb > |s| then Fail
    else
      var cl := CodeLengths(s, pos, nb);
      if !Accepted(cl) then Fail
      else TwoTrees(LengthsAt(cl, s, pos + 3 * nb, nl + nd, []), nl, s, h)
  }

  /** The data of a dynamic block, by the lengths of its two trees. */
  ghost function TwoTrees(l: Lengths, nl: nat, s: Bits, h: seq<Byte>): (r: Result)
    requires |h| >= WSIZE && (l.Lens? ==> l.pos <= |s| && nl <= |l.l|)
    ensures r.Done? ==> l.Lens? && l.pos <= r.pos <= |s| && |r.h| >= WSIZE
  {
    if l.OddLens? then Odd
    else if l.BadLens? || !Accepted(l.l[..nl]) || !Accepted(l.l[nl..]) then Fail
    else Codes(l.l[..nl], l.l[nl..], s, l.pos, h)
  }

  datatype Block = Block(last: bool, r: Result)

  /** One block: whether it is the last one, and what it does. */
  ghost function BlockAt(s: Bits, pos: nat, h: seq<Byte>): (b: Block)
    requires pos <= |s| && |h| >= WSIZE
    ensures b.r.Done? ==> pos < b.r.pos <= |s| && |b.r.h| >= WSIZE
  {
    if pos + 3 > |s| then Block(false, Fail)
    else
      var last, kind := Num(s, pos, 1) == 1, Num(s, pos + 1, 2);
      Block(last,
            if kind == 0 then Stored(s, pos + 3, h)
            else if kind == 1 then Codes(FixedLit(), FixedDist(), s, pos + 3, h)
            else if kind == 2 then Dynamic(s, pos + 3, h)
            else Fail)
  }

  /** A whole stream (section 3.2.3). */
  ghost function Inflated(s: Bits, pos: nat, h: seq<Byte>): (r: Result)
    requires pos <= |s| && |h| >= WSIZE
    ensures r.Done? ==> pos <= r.pos <= |s| && |r.h| >= WSIZE
    decreases |s| - pos
  {
    var b := BlockAt(s, pos, h);
    if b.r.Done? && !b.last then Inflated(s, b.r.pos, b.r.h) else b.r
  }
}
