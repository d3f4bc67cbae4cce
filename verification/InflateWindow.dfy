/** Matches that reach back before the start of the output.  The code does not check for them (zBoot/inflate.c:400-424):
    they copy what the window held before.  So the output depends on the window exactly when there is such a match. */
module InflateWindow {
  import opened BitStrings
  import opened Canonical
  import opened Bytes
  import opened HuftResult
  import opened Reader
  import opened Window
  import opened Deflate
  import opened InflateCodes
  import opened InflateDynamic

  function Output(h: seq<Byte>): seq<Byte>
    requires |h| >= WSIZE
  {
    h[WSIZE..]
  }

  // ---- streams whose matches stay within the output ----

  /** Every match of the data refers to bytes produced before it, or by itself; n were produced so far. */
  ghost predicate LocalCodes(lit: seq<nat>, dist: seq<nat>, s: Bits, pos: nat, n: nat)
    requires pos <= |s|
    decreases |s| - pos
  {
    match SymbolAt(lit, s, pos)
    case None => true
    case Some(i) =>
      var q := pos + lit[i];
      if i < END then LocalCodes(lit, dist, s, q, n + 1)
      else if i == END then true
      else
        match MatchAt(dist, s, q, i - LENGTHS)
        case NoPair => true
        case OddPair => true
        case Pair(length, d, p) => d <= n && LocalCodes(lit, dist, s, p, n + length)
  }

  ghost predicate LocalTrees(l: Lengths, nl: nat, s: Bits, n: nat)
    requires l.Lens? ==> l.pos <= |s| && nl <= |l.l|
  {
    l.Lens? && Accepted(l.l[..nl]) && Accepted(l.l[nl..]) ==> LocalCodes(l.l[..nl], l.l[nl..], s, l.pos, n)
  }

  ghost predicate LocalData(s: Bits, pos: nat, nl: nat, nd: nat, nb: nat, n: nat)
    requires pos <= |s| && nb <= 19
  {
    pos + 3 * nb <= |s| && Accepted(CodeLengths(s, pos, nb)) ==>
      LocalTrees(LengthsAt(CodeLengths(s, pos, nb), s, pos + 3 * nb, nl + nd, []), nl, s, n)
  }

  ghost predicate LocalDynamic(s: Bits, pos: nat, n: nat)
    requires pos <= |s|
  {
    if pos + 14 > |s| then true
    else
      var nl, nd, nb := 257 + Num(s, pos, 5), 1 + Num(s, pos + 5, 5), 4 + Num(s, pos + 10, 4);
      Powers();
      nl > 286 || nd > 30 || LocalData(s, pos + 14, nl, nd, nb, n)
  }

  ghost predicate LocalBlock(s: Bits, pos: nat, n: nat)
    requires pos <= |s|
  {
    if pos + 3 > |s| then true
    else
      var kind := Num(s, pos + 1, 2);
      if kind == 1 then LocalCodes(FixedLit(), FixedDist(), s, pos + 3, n)
      else if kind == 2 then LocalDynamic(s, pos + 3, n)
      else true
  }

  /** The same of a whole stream.  What a block does to positions and sizes does not depend on the history. */
  ghost predicate LocalStream(s: Bits, pos: nat, n: nat)
    requires pos <= |s|
    decreases |s| - pos
  {
    var b := BlockAt(s, pos, seq(WSIZE + n, _ => 0));
    LocalBlock(s, pos, n) && (b.r.Done? && !b.last ==> LocalStream(s, b.r.pos, |b.r.h| - WSIZE))
  }

  // ---- two histories side by side ----

  /** Two histories of the same size with the same output. */
  ghost predicate Alike(h: seq<Byte>, g: seq<Byte>) {
    |h| == |g| >= WSIZE && Output(h) == Output(g)
  }

  /** And no cell of the window the same. */
  ghost predicate Opposed(h: seq<Byte>, g: seq<Byte>)
    requires |h| == |g| >= WSIZE
  {
    forall i :: 0 <= i < WSIZE ==> h[i] != g[i]
  }

  /** The histories h' and g' come from h and g, and have the same output or not. */
  ghost predicate Onwards(h: seq<Byte>, g: seq<Byte>, h': seq<Byte>, g': seq<Byte>, same: bool) {
    && |h'| == |g'| >= |h| == |g| >= WSIZE && h <= h' && g <= g'
    && (Alike(h, g) && same ==> Alike(h', g'))
    && (Alike(h, g) && Opposed(h, g) && !same ==> !Alike(h', g'))
    && (!Alike(h, g) ==> !Alike(h', g'))
  }

  /** Two results of the same shape. */
  ghost predicate Matched(r: Result, q: Result, h: seq<Byte>, g: seq<Byte>, same: bool) {
    match r
    case Fail => q == Fail
    case Odd => q == Odd
    case Done(p, h') => q.Done? && q.pos == p && Onwards(h, g, h', q.h, same)
  }

  lemma Stay(h: seq<Byte>, g: seq<Byte>)
    requires |h| == |g| >= WSIZE
    ensures Onwards(h, g, h, g, true)
  {
  }

  lemma Then(h: seq<Byte>, g: seq<Byte>, h1: seq<Byte>, g1: seq<Byte>, a: bool, r: Result, q: Result, b: bool)
    requires Onwards(h, g, h1, g1, a) && Matched(r, q, h1, g1, b)
    ensures Matched(r, q, h, g, a && b)
  {
    if r.Done? {
      Chain(h, g, h1, g1, a, r.h, q.h, b);
    }
  }

  lemma Chain(h: seq<Byte>, g: seq<Byte>, h1: seq<Byte>, g1: seq<Byte>, a: bool, h2: seq<Byte>, g2: seq<Byte>, b: bool)
    requires Onwards(h, g, h1, g1, a) && Onwards(h1, g1, h2, g2, b)
    ensures Onwards(h, g, h2, g2, a && b)
  {
    assert h <= h2 && g <= g2;
    if Opposed(h, g) {
      forall i | 0 <= i < WSIZE
        ensures h1[i] != g1[i]
      {
        assert h1[i] == h[i] && g1[i] == g[i];
      }
    }
  }

  lemma AppendBoth(h: seq<Byte>, g: seq<Byte>, t: seq<Byte>)
    requires |h| == |g| >= WSIZE
    ensures Onwards(h, g, h + t, g + t, true)
  {
    assert Output(h + t) == Output(h) + t && Output(g + t) == Output(g) + t;
    if !Alike(h, g) {
      var i :| 0 <= i < |Output(h)| && Output(h)[i] != Output(g)[i];
      assert Output(h + t)[i] != Output(g + t)[i];
    }
  }

  lemma {:induction false} CopyBoth(h: seq<Byte>, g: seq<Byte>, d: nat, n: nat)
    requires |h| == |g| >= WSIZE && 1 <= d <= WSIZE
    ensures n > 0 ==> Onwards(h, g, CopyBytes(h, d, n), CopyBytes(g, d, n), d <= |h| - WSIZE)
    ensures n == 0 ==> CopyBytes(h, d, n) == h && CopyBytes(g, d, n) == g
    decreases n
  {
    if n > 0 {
      var x, y := h[|h| - d], g[|g| - d];
      var h1, g1 := h + [x], g + [y];
      OneBoth(h, g, d);
      CopyBoth(h1, g1, d, n - 1);
      if n > 1 {
        Chain(h, g, h1, g1, d <= |h| - WSIZE, CopyBytes(h1, d, n - 1), CopyBytes(g1, d, n - 1), d <= |h1| - WSIZE);
      }
    }
  }

  lemma OneBoth(h: seq<Byte>, g: seq<Byte>, d: nat)
    requires |h| == |g| >= WSIZE && 1 <= d <= WSIZE
    ensures Onwards(h, g, h + [h[|h| - d]], g + [g[|g| - d]], d <= |h| - WSIZE)
  {
    var h1, g1 := h + [h[|h| - d]], g + [g[|g| - d]];
    assert Output(h1) == Output(h) + [h[|h| - d]] && Output(g1) == Output(g) + [g[|g| - d]];
    var m := |h| - WSIZE;
    assert |Output(h)| == m;
    if d <= m {
      assert h[|h| - d] == Output(h)[m - d] && g[|g| - d] == Output(g)[m - d];
    } else {
      assert Output(h1)[m] == h[|h| - d] && Output(g1)[m] == g[|g| - d];
    }
    if !Alike(h, g) {
      var i :| 0 <= i < m && Output(h)[i] != Output(g)[i];
      assert Output(h1)[i] != Output(g1)[i];
    }
  }

  // ---- what the stream does to both ----

  lemma {:induction false} CodesBoth(lit: seq<nat>, dist: seq<nat>, s: Bits, pos: nat, h: seq<Byte>, g: seq<Byte>)
    requires pos <= |s| && |h| == |g| >= WSIZE
    ensures Matched(Codes(lit, dist, s, pos, h), Codes(lit, dist, s, pos, g), h, g,
      LocalCodes(lit, dist, s, pos, |h| - WSIZE))
    decreases |s| - pos, 0
  {
    hide Matches, Readable, Matched, Onwards, CopyBytes, MatchAt, SymbolAt;
    match SymbolAt(lit, s, pos)
    case None =>
      CodesNone(lit, dist, s, pos, h, g);
    case Some(i) =>
      CodesSome(lit, dist, s, pos, h, i);
      CodesSome(lit, dist, s, pos, g, i);
      var q := pos + lit[i];
      if i < END {
        AppendBoth(h, g, [i]);
        CodesBoth(lit, dist, s, q, h + [i], g + [i]);
        Then(h, g, h + [i], g + [i], true, Codes(lit, dist, s, q, h + [i]), Codes(lit, dist, s, q, g + [i]),
             LocalCodes(lit, dist, s, q, |h| + 1 - WSIZE));
      } else if i == END {
        DoneBoth(q, h, g);
      } else {
        PairBoth(lit, dist, s, q, h, g, i - LENGTHS);
      }
  }

  lemma CodesNone(lit: seq<nat>, dist: seq<nat>, s: Bits, pos: nat, h: seq<Byte>, g: seq<Byte>)
    requires pos <= |s| && |h| == |g| >= WSIZE && SymbolAt(lit, s, pos).None?
    ensures Matched(Codes(lit, dist, s, pos, h), Codes(lit, dist, s, pos, g), h, g,
      LocalCodes(lit, dist, s, pos, |h| - WSIZE))
  {
    hide SymbolAt, Readable;
  }

  lemma DoneBoth(q: nat, h: seq<Byte>, g: seq<Byte>)
    requires |h| == |g| >= WSIZE
    ensures Matched(Done(q, h), Done(q, g), h, g, true)
  {
  }

  lemma CodesSome(lit: seq<nat>, dist: seq<nat>, s: Bits, pos: nat, h: seq<Byte>, i: nat)
    requires pos <= |s| && |h| >= WSIZE && SymbolAt(lit, s, pos) == Some(i)
    ensures i < |lit| && pos + lit[i] <= |s| && lit[i] > 0
    ensures i < END ==>
      && Codes(lit, dist, s, pos, h) == Codes(lit, dist, s, pos + lit[i], h + [i])
      && LocalCodes(lit, dist, s, pos, |h| - WSIZE) == LocalCodes(lit, dist, s, pos + lit[i], |h| - WSIZE + 1)
    ensures i == END ==>
      Codes(lit, dist, s, pos, h) == Done(pos + lit[i], h)
      && LocalCodes(lit, dist, s, pos, |h| - WSIZE)
    ensures i > END ==>
      && Codes(lit, dist, s, pos, h) == AfterPair(lit, dist, s, pos + lit[i], h, i - LENGTHS)
      && LocalCodes(lit, dist, s, pos, |h| - WSIZE) == LocalPair(lit, dist, s, pos + lit[i], |h| - WSIZE, i - LENGTHS)
  {
    hide MatchAt, BE, FirstCode, Rank, CopyBytes, Readable;
  }

  /** A match and what follows it. */
  ghost function AfterPair(lit: seq<nat>, dist: seq<nat>, s: Bits, q: nat, h: seq<Byte>, i: nat): Result
    requires q <= |s| && |h| >= WSIZE
  {
    match MatchAt(dist, s, q, i)
    case NoPair => Fail
    case OddPair => Odd
    case Pair(n, d, p) => Codes(lit, dist, s, p, CopyBytes(h, d, n))
  }

  ghost predicate LocalPair(lit: seq<nat>, dist: seq<nat>, s: Bits, q: nat, n: nat, i: nat)
    requires q <= |s|
  {
    match MatchAt(dist, s, q, i)
    case NoPair => true
    case OddPair => true
    case Pair(length, d, p) => d <= n && LocalCodes(lit, dist, s, p, n + length)
  }

  lemma {:induction false} PairBoth(lit: seq<nat>, dist: seq<nat>, s: Bits, q: nat, h: seq<Byte>, g: seq<Byte>, i: nat)
    requires q <= |s| && |h| == |g| >= WSIZE
    ensures Matched(AfterPair(lit, dist, s, q, h, i), AfterPair(lit, dist, s, q, g, i), h, g,
                    LocalPair(lit, dist, s, q, |h| - WSIZE, i))
    decreases |s| - q, 1
  {
    hide CopyBytes, Codes, LocalCodes, Onwards, MatchAt;
    match MatchAt(dist, s, q, i)
    case NoPair =>
    case OddPair =>
    case Pair(n, d, p) =>
      var h1, g1 := CopyBytes(h, d, n), CopyBytes(g, d, n);
      CopyBoth(h, g, d, n);
      CodesBoth(lit, dist, s, p, h1, g1);
      Then(h, g, h1, g1, d <= |h| - WSIZE, Codes(lit, dist, s, p, h1), Codes(lit, dist, s, p, g1),
           LocalCodes(lit, dist, s, p, |h1| - WSIZE));
  }

  lemma {:induction false} BlockBoth(s: Bits, pos: nat, h: seq<Byte>, g: seq<Byte>)
    requires pos <= |s| && |h| == |g| >= WSIZE
    ensures BlockAt(s, pos, h).last == BlockAt(s, pos, g).last
    ensures Matched(BlockAt(s, pos, h).r, BlockAt(s, pos, g).r, h, g, LocalBlock(s, pos, |h| - WSIZE))
  {
    hide Codes, LocalCodes, Onwards, Stored, Dynamic, LocalDynamic, Matched, FixedLit, FixedDist, Num;
    if pos + 3 <= |s| {
      StoredBoth(s, pos + 3, h, g);
      CodesBoth(FixedLit(), FixedDist(), s, pos + 3, h, g);
      DynamicBoth(s, pos + 3, h, g);
    }
    FailBoth(h, g);
  }

  lemma FailBoth(h: seq<Byte>, g: seq<Byte>)
    ensures Matched(Fail, Fail, h, g, true) && Matched(Odd, Odd, h, g, true)
  {
  }

  lemma StoredBoth(s: Bits, pos: nat, h: seq<Byte>, g: seq<Byte>)
    requires pos <= |s| && |h| == |g| >= WSIZE
    ensures Matched(Stored(s, pos, h), Stored(s, pos, g), h, g, true)
  {
    hide Onwards, Num, BytesAt, Align;
    var r := Stored(s, pos, h);
    if r.Done? {
      var q := Align(pos);
      AppendBoth(h, g, BytesAt(s, q + 32, Num(s, q, 16)));
    }
  }

  lemma {:induction false} DynamicBoth(s: Bits, pos: nat, h: seq<Byte>, g: seq<Byte>)
    requires pos <= |s| && |h| == |g| >= WSIZE
    ensures Matched(Dynamic(s, pos, h), Dynamic(s, pos, g), h, g, LocalDynamic(s, pos, |h| - WSIZE))
  {
    hide Matched, DynamicData, LocalData, Num;
    FailBoth(h, g);
    if pos + 14 <= |s| {
      Powers();
      hide Pow2;
      var nl, nd, nb := 257 + Num(s, pos, 5), 1 + Num(s, pos + 5, 5), 4 + Num(s, pos + 10, 4);
      if nl <= 286 && nd <= 30 {
        DataBoth(s, pos + 14, nl, nd, nb, h, g);
      }
    }
  }

  lemma {:induction false} DataBoth(s: Bits, pos: nat, nl: nat, nd: nat, nb: nat, h: seq<Byte>, g: seq<Byte>)
    requires pos <= |s| && |h| == |g| >= WSIZE && nb <= 19
    ensures Matched(DynamicData(s, pos, nl, nd, nb, h), DynamicData(s, pos, nl, nd, nb, g), h, g,
                    LocalData(s, pos, nl, nd, nb, |h| - WSIZE))
  {
    hide Matched, Codes, LocalCodes, LengthsAt, CodeLengths, Accepted;
    FailBoth(h, g);
    if pos + 3 * nb <= |s| && Accepted(CodeLengths(s, pos, nb)) {
      var l := LengthsAt(CodeLengths(s, pos, nb), s, pos + 3 * nb, nl + nd, []);
      if l.Lens? {
        CodesBoth(l.l[..nl], l.l[nl..], s, l.pos, h, g);
      }
    }
  }

  lemma {:induction false} StreamBoth(s: Bits, pos: nat, h: seq<Byte>, g: seq<Byte>)
    requires pos <= |s| && |h| == |g| >= WSIZE
    ensures Matched(Inflated(s, pos, h), Inflated(s, pos, g), h, g, LocalStream(s, pos, |h| - WSIZE))
    decreases |s| - pos
  {
    hide BlockAt, LocalBlock, Onwards;
    BlockBoth(s, pos, h, g);
    var b, c := BlockAt(s, pos, h), BlockAt(s, pos, g);
    var z := seq(|h|, _ => 0);
    BlockBoth(s, pos, h, z);
    assert seq(WSIZE + (|h| - WSIZE), _ => 0) == z;
    if b.r.Done? && !b.last {
      Sizes2(h, g, b.r.h, c.r.h, LocalBlock(s, pos, |h| - WSIZE));
      Sizes2(h, z, b.r.h, BlockAt(s, pos, z).r.h, LocalBlock(s, pos, |h| - WSIZE));
      StreamBoth(s, b.r.pos, b.r.h, c.r.h);
      Then(h, g, b.r.h, c.r.h, LocalBlock(s, pos, |h| - WSIZE), Inflated(s, b.r.pos, b.r.h),
        Inflated(s, b.r.pos, c.r.h),
           LocalStream(s, b.r.pos, |b.r.h| - WSIZE));
    }
  }

  lemma Sizes2(h: seq<Byte>, g: seq<Byte>, h': seq<Byte>, g': seq<Byte>, same: bool)
    requires Onwards(h, g, h', g', same)
    ensures |h'| == |g'| >= WSIZE
  {
  }

  // ---- the condition ----

  function Another(b: Byte): (r: Byte)
    ensures r != b
  {
    if b == 0 then 1 else 0
  }

  /** Of a stream that inflates: the output is the same whatever the window held, exactly if no match refers to a byte
      that the stream has not produced. */
  lemma WindowIrrelevant(s: Bits, w: seq<Byte>)
    requires |w| == WSIZE && Inflated(s, 0, w).Done?
    ensures (forall g: seq<Byte> :: |g| == WSIZE ==> SameOutput(s, w, g)) <==> LocalStream(s, 0, 0)
  {
    hide Inflated, LocalStream;
    forall g: seq<Byte> | |g| == WSIZE && LocalStream(s, 0, 0)
      ensures SameOutput(s, w, g)
    {
      StreamBoth(s, 0, w, g);
      assert Output(w) == [] == Output(g);
    }
    if !LocalStream(s, 0, 0) {
      var g := seq(WSIZE, i requires 0 <= i < WSIZE => Another(w[i]));
      StreamBoth(s, 0, w, g);
      assert Output(w) == [] == Output(g);
      assert Opposed(w, g);
      assert !SameOutput(s, w, g);
    }
  }

  ghost predicate SameOutput(s: Bits, w: seq<Byte>, g: seq<Byte>)
    requires |w| == WSIZE && |g| == WSIZE
  {
    var r, q := Inflated(s, 0, w), Inflated(s, 0, g);
    r.Done? && q.Done? && q.pos == r.pos && Output(q.h) == Output(r.h)
  }

  // ---- a stream that reaches back ----

  lemma {:induction false} CountRepeat(a: seq<nat>, x: nat, n: nat, k: nat)
    ensures Count(a + Repeat(x, n), k) == Count(a, k) + if x == k then n else 0
    decreases n
  {
    if n == 0 {
      assert a + Repeat(x, 0) == a;
    } else {
      CountRepeat(a, x, n - 1, k);
      assert (a + Repeat(x, n))[..|a| + n - 1] == a + Repeat(x, n - 1);
    }
  }

  /** The codes of the symbols 256 to 279 of the fixed tree have seven bits and start at zero (section 3.2.6). */
  lemma FixedLitCode(r: nat)
    requires r < 24
    ensures |FixedLit()| == 288 && FixedLit()[256 + r] == 7 && Rank(FixedLit(), 256 + r) == r
      && FirstCode(FixedLit(), 7) == 0
  {
    var b := FixedLit();
    var a := Repeat(8, 144) + Repeat(9, 112);
    assert b[..256 + r] == a + Repeat(7, r);
    assert [] + Repeat(8, 144) == Repeat(8, 144);
    CountRepeat([], 8, 144, 7);
    CountRepeat(Repeat(8, 144), 9, 112, 7);
    CountRepeat(a, 7, r, 7);
    FirstZero(b, 7);
  }

  lemma {:induction false} FirstZero(b: seq<nat>, k: nat)
    requires forall i :: 0 <= i < |b| ==> b[i] >= k
    ensures FirstCode(b, k) == 0
  {
    if k > 1 {
      FirstZero(b, k - 1);
      CountPositive(b, k - 1);
    }
  }

  /** Seven bits that are the code of one of those. */
  lemma FixedLitAt(s: Bits, pos: nat, r: nat)
    requires pos + 7 <= |s| && r < 24 && BE(s[pos..pos + 7]) == r
    ensures SymbolAt(FixedLit(), s, pos) == Some(256 + r) && FixedLit()[256 + r] == 7
  {
    FixedLitCode(r);
    FixedComplete();
    hide FixedLit, BE, Rank, FirstCode, KraftSum;
    assert s[pos..][..7] == s[pos..pos + 7];
    FoundIs(FixedLit(), s, pos, 256 + r);
  }

  /** Five zeros are the code of distance symbol 0. */
  lemma FixedDistAt(s: Bits, pos: nat)
    requires pos + 5 <= |s| && BE(s[pos..pos + 5]) == 0
    ensures SymbolAt(FixedDist(), s, pos) == Some(0) && FixedDist()[0] == 5
  {
    FixedDistCode();
    FixedDistOK();
    hide FixedDist, BE, Rank, FirstCode, KraftSum;
    assert s[pos..][..5] == s[pos..pos + 5];
    FoundIs(FixedDist(), s, pos, 0);
  }

  lemma FixedDistCode()
    ensures |FixedDist()| == 30 && FixedDist()[0] == 5 && FirstCode(FixedDist(), 5) == 0 && Rank(FixedDist(), 0) == 0
  {
    var b := FixedDist();
    assert b[0] == 5 && b[..0] == [];
    FirstZero(b, 5);
  }

  /** One fixed block: a match of length 3 at distance 1, and the end.  As bytes, 3, 2 and 0. */
  const REACHES: Bits := [true, true, false] + [false, false, false, false, false, false, true]
                         + [false, false, false, false, false] + [false, false, false, false, false, false, false]
                         + [false, false]

  lemma ReachesBits()
    ensures |REACHES| == 24 && REACHES[0] && REACHES[1] && !REACHES[2]
      && REACHES[3..10] == [false, false, false, false, false, false, true]
    ensures REACHES[10..15] == [false, false, false, false, false]
      && REACHES[15..22] == [false, false, false, false, false, false, false]
  {
  }

  lemma ReachesBytes()
    ensures BitsOf([3, 2, 0]) == REACHES
  {
    ThreeBytes(3, 2, 0);
    ZeroByte(8);
    ZeroByte(6);
    assert ToBits(1, 7) == [true] + ToBits(0, 6);
    assert ToBits(3, 8) == [true] + ToBits(1, 7);
    assert ToBits(2, 8) == [false] + ToBits(1, 7);
    hide ToBits, BitsOf;
    assert ToBits(3, 8) == [true, true, false, false, false, false, false, false];
    assert ToBits(2, 8) == [false, true, false, false, false, false, false, false];
    assert ToBits(0, 8) == [false, false, false, false, false, false, false, false];
  }

  lemma {:induction false} ZeroByte(n: nat)
    ensures ToBits(0, n) == Zeros(n)
  {
    if n > 0 {
      ZeroByte(n - 1);
    }
  }

  lemma ThreeBytes(x: Byte, y: Byte, z: Byte)
    ensures BitsOf([x, y, z]) == ToBits(x, 8) + ToBits(y, 8) + ToBits(z, 8)
  {
    hide ToBits;
    var one, two, three := [x], [x, y], [x, y, z];
    assert one[..0] == [] && two[..1] == one && three[..2] == two;
    assert BitsOf(one) == [] + ToBits(x, 8);
    assert BitsOf(two) == BitsOf(one) + ToBits(y, 8);
    assert BitsOf(three) == BitsOf(two) + ToBits(z, 8);
  }

  lemma {:induction false} BEZeros(n: nat)
    ensures BE(Zeros(n)) == 0 && forall i :: 0 <= i < n ==> !Zeros(n)[i]
  {
    if n > 0 {
      BEZeros(n - 1);
      assert Zeros(n) == Zeros(n - 1) + [false];
      BEAppend(Zeros(n - 1), false);
    }
  }

  lemma ZeroBits()
    ensures BE([false, false, false, false, false, false, true]) == 1
    ensures BE([false, false, false, false, false, false, false]) == 0 && BE([false, false, false, false, false]) == 0
  {
    BEZeros(5);
    BEZeros(6);
    BEZeros(7);
    assert Zeros(5) == [false, false, false, false, false];
    assert Zeros(7) == [false, false, false, false, false, false, false];
    assert Zeros(6) + [true] == [false, false, false, false, false, false, true];
    BEAppend(Zeros(6), true);
  }

  lemma OneBit(s: Bits, pos: nat)
    requires pos + 2 <= |s|
    ensures Num(s, pos, 1) == if s[pos] then 1 else 0
    ensures Num(s, pos, 2) == (if s[pos] then 1 else 0) + (if s[pos + 1] then 2 else 0)
    ensures Num(s, pos, 0) == 0
  {
    assert s[pos..pos + 1] == [s[pos]] && s[pos..pos + 2] == [s[pos], s[pos + 1]] && s[pos..pos] == [];
    var p, q := [s[pos], s[pos + 1]], [s[pos + 1]];
    assert p[1..] == q && q[1..] == [] && [s[pos]][1..] == [];
    assert LE(q) == (if s[pos + 1] then 1 else 0) + 2 * LE([]);
    assert LE(p) == (if s[pos] then 1 else 0) + 2 * LE(q);
  }

  lemma ReachesSymbols()
    ensures |REACHES| == 24 && Num(REACHES, 0, 1) == 1 && Num(REACHES, 1, 2) == 1
    ensures |FixedLit()| == 288 && FixedLit()[256] == FixedLit()[257] == 7
    ensures SymbolAt(FixedLit(), REACHES, 3) == Some(257) && SymbolAt(FixedLit(), REACHES, 15) == Some(256)
    ensures MatchAt(FixedDist(), REACHES, 10, 0) == Pair(3, 1, 15)
  {
    var s := REACHES;
    ReachesBits();
    ZeroBits();
    OneBit(s, 0);
    OneBit(s, 1);
    OneBit(s, 10);
    OneBit(s, 15);
    hide REACHES, FixedLit, FixedDist, SymbolAt, MatchAt, Num, BE;
    FixedLitAt(s, 3, 1);
    FixedLitAt(s, 15, 0);
    FixedDistAt(s, 10);
    ReachesPair(s);
  }

  lemma ReachesCodes(w: seq<Byte>)
    requires |w| == WSIZE
    ensures |REACHES| == 24 && Codes(FixedLit(), FixedDist(), REACHES, 3, w) == Done(22, CopyBytes(w, 1, 3))
    ensures !LocalCodes(FixedLit(), FixedDist(), REACHES, 3, 0)
  {
    ReachesSymbols();
    hide REACHES, FixedLit, FixedDist, SymbolAt, MatchAt, CopyBytes, Codes, LocalCodes;
    CodesSome(FixedLit(), FixedDist(), REACHES, 3, w, 257);
    CodesSome(FixedLit(), FixedDist(), REACHES, 15, CopyBytes(w, 1, 3), 256);
  }

  /** It inflates to three times the window's last byte. */
  lemma ReachesBack(w: seq<Byte>)
    requires |w| == WSIZE
    ensures Inflated(REACHES, 0, w) == Done(22, CopyBytes(w, 1, 3)) && !LocalStream(REACHES, 0, 0)
    ensures CopyBytes(w, 1, 3) == w + [w[WSIZE - 1], w[WSIZE - 1], w[WSIZE - 1]]
  {
    ReachesSymbols();
    ReachesCodes(w);
    CopyThree(w);
    hide REACHES, FixedLit, FixedDist, SymbolAt, MatchAt, CopyBytes, Codes, LocalCodes, Num, Stored, Dynamic,
      LocalDynamic;
    assert BlockAt(REACHES, 0, w) == Block(true, Done(22, CopyBytes(w, 1, 3)));
    assert !LocalBlock(REACHES, 0, 0);
  }

  lemma ReachesPair(s: Bits)
    requires |s| == 24 && SymbolAt(FixedDist(), s, 10) == Some(0) && FixedDist()[0] == 5 && Num(s, 10, 0) == 0
      && Num(s, 15, 0) == 0
    ensures MatchAt(FixedDist(), s, 10, 0) == Pair(3, 1, 15)
  {
    hide FixedDist, SymbolAt, Num;
  }

  lemma CopyThree(w: seq<Byte>)
    requires |w| == WSIZE
    ensures CopyBytes(w, 1, 3) == w + [w[WSIZE - 1], w[WSIZE - 1], w[WSIZE - 1]]
  {
    var x := w[WSIZE - 1];
    var a := w + [x];
    var b := a + [x];
    assert CopyBytes(b, 1, 1) == b + [x] + [];
  }
}
