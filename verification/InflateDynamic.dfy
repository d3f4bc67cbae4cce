/** Blocks with fixed and with dynamic trees (zBoot/inflate.c:496-724). */
module InflateDynamic {
  import opened BitStrings
  import opened Canonical
  import opened Bytes
  import opened HuftTables
  import opened HuftWalk
  import opened Huft
  import opened HuftResult
  import opened HuftSafe
  import opened Reader
  import opened Window
  import opened Deflate
  import opened InflateCodes
  import opened InflateBlock

  /** huft_build for one of the inflater's trees: it accepts what the format allows, and then its tables
      stand for the tree. */
  method MakeTree(b: seq<nat>, s: nat, d: seq<nat>, e: seq<nat>, m: nat) returns (status: nat, tabs: Tables, bits: nat)
    requires 0 < |b| <= N_MAX && (forall i :: 0 <= i < |b| ==> b[i] <= BMAX) && m >= 1
    requires MaxLength(b) <= 2 * m || |b| < Pow2(m)
    ensures status == 0 <==> Accepted(b)
    ensures status == 2 <==> Oversubscribed(b)
    ensures status != 2 && (MaxLength(b) <= 2 * m || Complete(b)) ==> Tree(b, s, d, e, tabs, bits)
    ensures status == 0 ==> Tree(b, s, d, e, tabs, bits)
    ensures status <= 2 && (status != 2 && MaxLength(b) <= m ==> |tabs| <= 1)
  {
    hide KraftSum, DecodesAs, Lookup, Misfit, Readable, Sound, Pow2;
    status, tabs, bits := HuftBuild(b, s, d, e, m);
    if MaxLength(b) > 0 && status != 2 && (MaxLength(b) <= 2 * m || Complete(b)) {
      NoMisfit(b, bits, m);
    }
  }

  // ---- fixed trees ----

  lemma {:induction false} KraftRepeat(a: seq<nat>, x: nat, n: nat)
    requires 1 <= x <= BMAX
    ensures KraftSum(a + Repeat(x, n)) == KraftSum(a) + Mul(n, Pow2(BMAX - x))
    decreases n
  {
    if n == 0 {
      assert a + Repeat(x, 0) == a;
    } else {
      KraftRepeat(a, x, n - 1);
      assert (a + Repeat(x, n))[..|a| + n - 1] == a + Repeat(x, n - 1);
    }
  }

  lemma FixedComplete()
    ensures Complete(FixedLit()) && (forall i :: 0 <= i < 288 ==> 7 <= FixedLit()[i] <= 9) && MaxLength(FixedLit()) <= 9
  {
    FixedSum();
    hide KraftSum, Pow2;
  }

  lemma FixedSum()
    ensures Complete(FixedLit())
  {
    var a := Repeat(8, 144);
    var b := a + Repeat(9, 112);
    var c := b + Repeat(7, 24);
    assert [] + a == a;
    assert FixedLit() == c + Repeat(8, 8);
    hide KraftSum, Repeat, FixedLit, Mul;
    KraftRepeat([], 8, 144);
    KraftRepeat(a, 9, 112);
    KraftRepeat(b, 7, 24);
    KraftRepeat(c, 8, 8);
    KraftNone();
    Powers();
    hide Pow2;
    MulIs(144, 256);
    MulIs(112, 128);
    MulIs(24, 512);
    MulIs(8, 256);
  }

  lemma KraftNone()
    ensures KraftSum([]) == 0
  {
  }

  lemma FixedDistOK()
    ensures !Oversubscribed(FixedDist()) && Readable(FixedDist()) && MaxLength(FixedDist()) == 5
  {
    assert [] + Repeat(5, 30) == FixedDist();
    assert FixedDist()[0] == 5;
    hide KraftSum;
    KraftRepeat([], 5, 30);
    KraftNone();
    Powers();
    MulIs(30, 2048);
  }

  /** Some entries of an array are set (zBoot/inflate.c:511-518, 525-526). */
  method SetRange(l: array<nat>, from: nat, to: nat, v: nat)
    requires from <= to <= l.Length
    modifies l
    ensures forall k :: 0 <= k < l.Length ==> l[k] == if from <= k < to then v else old(l[k])
  {
    var i := from;
    while i < to
      invariant from <= i <= to
      invariant forall k :: 0 <= k < l.Length ==> l[k] == if from <= k < i then v else old(l[k])
    {
      l[i] := v;
      i := i + 1;
    }
  }

  method SetLit(l: array<nat>)
    requires l.Length == 288
    modifies l
    ensures l[..] == FixedLit()
  {
    SetRange(l, 0, 144, 8);
    SetRange(l, 144, 256, 9);
    SetRange(l, 256, 280, 7);
    SetRange(l, 280, 288, 8);
  }

  method SetDist(l: array<nat>)
    requires l.Length == 288
    modifies l
    ensures l[..30] == FixedDist()
  {
    SetRange(l, 0, 30, 5);
  }

  /** inflate_fixed (zBoot/inflate.c:496-546). */
  method FixedBlock(rd: Reader, win: Window) returns (st: Status)
    requires rd.Valid() && win.Valid()
    modifies rd, win`w, win`out, win.sum`crc, win.slide
    ensures rd.Valid() && win.Valid() && win.init == old(win.init) && rd.Pos() >= old(rd.Pos())
    ensures Agrees(Codes(FixedLit(), FixedDist(), rd.Stream(), old(rd.Pos()), old(win.History())), st, rd.Stream(),
      rd.Pos(), win.History())
  {
    hide KraftSum, Codes, Tree, Agrees, FixedLit, FixedDist, BitsOf, Behind, MaxLength, Readable;
    FixedComplete();
    FixedDistOK();
    var l := new nat[288];
    SetLit(l);
    var lit := l[..];
    LongestAtMost(lit, 9);
    var status, tl, bl := MakeTree(lit, LENGTHS, CPLENS, CPLEXT, 7);
    if status != 0 {
      return Error(status);
    }
    SetDist(l);
    var dist := l[..30];
    LongestAtMost(dist, 5);
    var td, bd;
    status, td, bd := MakeTree(dist, 0, CPDIST, CPDEXT, 5);
    if status > 1 {
      return Error(status);
    }
    st := Compressed(rd, win, tl, td, bl, bd, lit, dist);
  }

  lemma LongestAtMost(b: seq<nat>, m: nat)
    requires MaxLength(b) <= m
    ensures forall i :: 0 <= i < |b| ==> b[i] <= m
  {
  }

  // ---- a tree with one code ----

  lemma {:induction false} OneCount(b: seq<nat>, j: nat)
    requires j < |b| && b[j] == 1 && (forall i :: 0 <= i < |b| && i != j ==> b[i] == 0)
    ensures KraftSum(b) == Pow2(BMAX - 1) && MaxLength(b) == 1
  {
    var n := |b| - 1;
    if j < n {
      OneCount(b[..n], j);
    } else {
      NoneUsed(b[..n]);
    }
  }

  lemma {:induction false} NoneUsed(b: seq<nat>)
    requires forall i :: 0 <= i < |b| ==> b[i] == 0
    ensures KraftSum(b) == 0 && MaxLength(b) == 0
    ensures Count(b, 1) == 0
  {
    if b != [] {
      NoneUsed(b[..|b| - 1]);
    }
  }

  /** Section 3.2.7 allows a distance tree with a single code of one bit.  The inflater accepts it, and where that bit
      is a zero its symbol is found, though the tree leaves a code over and symbols out. */
  lemma OneCode(b: seq<nat>, j: nat, s: Bits, pos: nat)
    requires j < |b| && b[j] == 1 && (forall i :: 0 <= i < |b| && i != j ==> b[i] == 0) && pos <= |s|
    ensures Accepted(b) && (|b| > 1 ==> !Readable(b))
    ensures SymbolAt(b, s, pos) == if pos < |s| && !s[pos] then Some(j) else None
  {
    OneCount(b, j);
    NoneUsed(b[..j]);
    Powers();
    if |b| > 1 {
      assert b[if j == 0 then 1 else 0] == 0;
    }
    if pos < |s| {
      assert s[pos..][..1] == [s[pos]];
      OneBitCode(s[pos]);
    }
    hide KraftSum, BE;
    if pos < |s| && !s[pos] {
      assert Matches(b, j, s[pos..]);
      FoundIs(b, s, pos, j);
    }
  }

  lemma OneBitCode(x: bool)
    ensures BE([x]) == if x then 1 else 0
  {
    assert [] + [x] == [x];
    BEAppend([], x);
  }

  // ---- the code lengths of a dynamic block ----

  /** A repeat code in the list of lengths. */
  ghost predicate LengthsSame(r: Lengths, cl: seq<nat>, s: Bits, pos: nat, n: nat, l: seq<nat>) {
    r == OddLens || (pos <= |s| && r == LengthsAt(cl, s, pos, n, l))
  }

  /** Code lengths have four bits. */
  predicate Small(l: seq<nat>) {
    forall i :: 0 <= i < |l| ==> l[i] <= 15
  }

  function Last(l: seq<nat>): nat {
    if l == [] then 0 else l[|l| - 1]
  }

  /** The bits that follow a repeat code, and the least number of repeats. */
  function RepeatBits(j: nat): nat { if j == 16 then 2 else if j == 17 then 3 else 7 }
  function RepeatBase(j: nat): nat { if j == 18 then 11 else 3 }

  /** A symbol of the code length code has been decoded. */
  lemma {:induction false} LengthSymbolIs(cl: seq<nat>, tabs: Tables, bits: nat, s: Bits, pos: nat, pos': nat, v: nat,
          e: nat)
    requires Tree(cl, 19, [], [], tabs, bits) && |cl| == 19 && pos <= pos' <= |s|
    requires tabs != [] && Lookup(tabs, 0, bits, Ahead(s, pos), 0) == Decoded(Value(e, v), pos' - pos)
    ensures SymbolAt(cl, s, pos).Some? || Readable(cl) ==>
      v < 19 && SymbolAt(cl, s, pos) == Some(v) && pos' == pos + cl[v]
  {
    hide Lookup, Tree, KraftSum, Readable, Ahead, SymbolAt;
    GotSymbol(cl, 19, [], [], tabs, bits, s, pos, Value(e, v), pos' - pos);
  }

  lemma {:induction false} LengthsStep(cl: seq<nat>, s: Bits, pos: nat, n: nat, l: seq<nat>, v: nat)
    requires pos <= |s| && SymbolAt(cl, s, pos) == Some(v) && |l| < n && v < 19
    ensures v < |cl| && pos + cl[v] <= |s|
    ensures var q := pos + cl[v];
            var r := LengthsAt(cl, s, pos, n, l);
            && (v < 16 ==> r == LengthsAt(cl, s, q, n, l + [v]))
            && (v >= 16 && q + RepeatBits(v) <= |s| ==>
                  var count := Num(s, q, RepeatBits(v)) + RepeatBase(v);
                  r == if |l| + count > n then BadLens
                       else LengthsAt(cl, s, q + RepeatBits(v), n, l + Repeat(if v == 16 then Last(l) else 0, count)))
            && (v >= 16 && q + RepeatBits(v) > |s| ==> r == BadLens)
  {
    hide BE, FirstCode, Rank, Num, Repeat;
  }

  /** Where a symbol stands, the decoder finds no invalid entry and no unwritten one; and a code length code with
      all symbols in use, or no codes left over, has a symbol everywhere, if the stream goes on. */
  lemma {:induction false} NeverBad(cl: seq<nat>, tabs: Tables, bits: nat, s: Bits, pos: nat)
    requires Tree(cl, 19, [], [], tabs, bits) && |cl| == 19 && pos <= |s|
    requires SymbolAt(cl, s, pos).Some? || (Readable(cl) && Complete(cl))
    ensures tabs != [] && !FoundBad(tabs, bits, s, pos) && Lookup(tabs, 0, bits, Ahead(s, pos), 0) != Stuck
  {
    hide Lookup, KraftSum, Readable, Sound, BE, FirstCode, Rank, Ahead;
    var a := Ahead(s, pos);
    AheadLong(s, pos);
    NoGarbage(cl, 19, [], [], tabs, bits, s, pos);
    assert DecodesAs(cl, 19, [], [], a, Lookup(tabs, 0, bits, a, 0));
    var i: nat := if SymbolAt(cl, s, pos).Some? then SymbolAt(cl, s, pos).sym else 0;
    if SymbolAt(cl, s, pos).Some? {
      MatchesAhead(cl, i, s, pos);
    } else {
      i := EveryStringMatches(cl, a);
    }
  }

  /** The code lengths of the two trees (zBoot/inflate.c:622-666); n of them go to ll. */
  method ReadLengths(rd: Reader, tl: Tables, bl: nat, ll: array<nat>, n: nat, ghost cl: seq<nat>) returns (st: Status)
    requires rd.Valid() && Tree(cl, 19, [], [], tl, bl) && |cl| == 19 && Accepted(cl) && n <= ll.Length
    modifies rd, ll
    ensures rd.Valid() && rd.Pos() >= old(rd.Pos())
    ensures st == Ok ==> Small(ll[..n])
    ensures LengthsDone(LengthsAt(cl, rd.Stream(), old(rd.Pos()), n, []), st, rd.Stream(), rd.Pos(), ll[..n])
  {
    hide BitsOf, LE, Tree, LengthsAt, Accepted, LengthsDone, LengthsSame;
    ghost var r := LengthsAt(cl, rd.Stream(), rd.Pos(), n, []);
    var i, l := 0, 0;
    assert ll[..0] == [];
    LengthsStart(cl, rd.Stream(), rd.Pos(), n);
    while i < n
      invariant i <= n && rd.Valid() && rd.Pos() >= old(rd.Pos()) && l == Last(ll[..i]) && Small(ll[..i])
      invariant LengthsSame(r, cl, rd.Stream(), rd.Pos(), n, ll[..i])
      decreases n - i
    {
      st, i, l := NextLengths(rd, tl, bl, ll, i, n, l, cl, r);
      if st != Ok {
        return;
      }
    }
    LengthsEnd(r, cl, rd.Stream(), rd.Pos(), n, ll[..n]);
    return Ok;
  }

  /** One code of the list: a length, or a repeat. */
  method NextLengths(rd: Reader, tl: Tables, bl: nat, ll: array<nat>, i0: nat, n: nat, l0: nat,
                     ghost cl: seq<nat>, ghost r: Lengths) returns (st: Status, i: nat, l: nat)
    requires rd.Valid() && Tree(cl, 19, [], [], tl, bl) && |cl| == 19 && i0 < n <= ll.Length && l0 == Last(ll[..i0])
      && Small(ll[..i0])
    requires Accepted(cl) && LengthsSame(r, cl, rd.Stream(), rd.Pos(), n, ll[..i0])
    modifies rd, ll
    ensures rd.Valid() && rd.Pos() >= old(rd.Pos())
    ensures st == Ok ==>
      i0 < i <= n && l == Last(ll[..i]) && Small(ll[..i])
      && LengthsSame(r, cl, rd.Stream(), rd.Pos(), n, ll[..i])
    ensures st != Ok ==> LengthsDone(r, st, rd.Stream(), rd.Pos(), ll[..n])
  {
    hide BitsOf, LE, Tree, LengthsAt, Accepted, LengthsDone, LengthsSame, FoundBad, Lookup, Ahead, Sound, SymbolAt,
      Last;
    ghost var pos := rd.Pos();
    TreeSound(cl, 19, [], [], tl, bl);
    i, l := i0, l0;
    var sym := Decode(rd, tl, bl);
    if sym == Halt {
      LengthsShort(r, cl, rd.Stream(), pos, n, ll[..i], rd.Pos(), ll[..n]);
      return Halted, i, l;
    }
    if r != OddLens {
      LengthsThere(r, cl, rd.Stream(), pos, n, ll[..i]);
      NeverBad(cl, tl, bl, rd.Stream(), pos);
      if sym.Got? {
        LengthSymbolIs(cl, tl, bl, rd.Stream(), pos, rd.Pos(), sym.v, sym.e);
      }
    }
    if !sym.Got? || sym.v >= 19 {
      LengthsOdd(r, Crash, rd.Stream(), rd.Pos(), ll[..n]);
      return Crash, i, l;
    }
    ghost var before := ll[..i];
    if sym.v < 16 {
      ll[i] := sym.v;
      i, l := i + 1, sym.v;
      assert ll[..i] == before + [sym.v];
      LastOne(before, sym.v);
      PlainLength(r, cl, rd.Stream(), pos, rd.Pos(), n, before, sym.v);
      return Ok, i, l;
    }
    st, i, l := Repeats(rd, ll, i, n, l, sym.v, pos, cl, r);
  }

  /** A repeat code (zBoot/inflate.c:634-665). */
  method Repeats(rd: Reader, ll: array<nat>, i0: nat, n: nat, l0: nat, v: nat, ghost pos: nat,
                 ghost cl: seq<nat>, ghost r: Lengths) returns (st: Status, i: nat, l: nat)
    requires rd.Valid() && i0 < n <= ll.Length && l0 == Last(ll[..i0]) && Small(ll[..i0]) && 16 <= v < 19
      && pos <= rd.Pos() <= pos + BMAX
    requires r != OddLens ==> v < |cl| && SymbolAt(cl, rd.Stream(), pos) == Some(v) && rd.Pos() == pos + cl[v]
    requires LengthsSame(r, cl, rd.Stream(), pos, n, ll[..i0])
    modifies rd, ll
    ensures rd.Valid() && rd.Pos() >= old(rd.Pos())
    ensures st == Ok ==>
      i0 < i <= n && l == Last(ll[..i]) && Small(ll[..i])
      && LengthsSame(r, cl, rd.Stream(), rd.Pos(), n, ll[..i])
    ensures st != Ok ==> LengthsDone(r, st, rd.Stream(), rd.Pos(), ll[..n])
  {
    hide BitsOf, LE, LengthsAt, LengthsDone, LengthsSame, SymbolAt, Num, Last, Repeat;
    i, l := i0, l0;
    ghost var before := ll[..i];
    var ok, x := rd.Take(RepeatBits(v));
    if !ok {
      LengthsShort(r, cl, rd.Stream(), pos, n, before, rd.Pos(), ll[..n]);
      return Halted, i, l;
    }
    var count := x + RepeatBase(v);
    RepeatedLength(r, cl, rd.Stream(), pos, rd.Pos(), n, before, v, count);
    if i + count > n {
      LengthsRefused(r, cl, rd.Stream(), pos, n, before, rd.Pos(), ll[..n]);
      return Error(1), i, l;
    }
    if v != 16 {
      l := 0;
    }
    Fill(ll, i, count, l);
    i := i + count;
    LastRepeat(before, l, count);
    return Ok, i, l;
  }

  lemma LastOne(l: seq<nat>, x: nat)
    ensures Last(l + [x]) == x
  {
  }

  method Fill(ll: array<nat>, i: nat, count: nat, x: nat)
    requires i + count <= ll.Length
    modifies ll
    ensures ll[..i] == old(ll[..i]) && ll[..i + count] == ll[..i] + Repeat(x, count)
  {
    var k := 0;
    while k < count
      invariant k <= count && ll[..i] == old(ll[..i]) && forall t :: i <= t < i + k ==> ll[t] == x
    {
      ll[i + k] := x;
      k := k + 1;
    }
    assert ll[..i + count] == ll[..i] + ll[i..i + count];
    assert ll[i..i + count] == Repeat(x, count);
  }

  ghost predicate LengthsDone(r: Lengths, st: Status, s: Bits, pos: nat, l: seq<nat>) {
    match r
    case OddLens => true
    case BadLens => st.Error? || st == Halted
    case Lens(p, l') => (st == Ok && p == pos && l' == l) || (st == Halted && |s| < p + 32)
  }

  lemma TreeSound(b: seq<nat>, s: nat, d: seq<nat>, e: seq<nat>, tabs: Tables, bits: nat)
    requires Tree(b, s, d, e, tabs, bits)
    ensures tabs == [] || Sound(tabs, 0, 0, bits)
  {
  }

  lemma LengthsStart(cl: seq<nat>, s: Bits, pos: nat, n: nat)
    requires pos <= |s|
    ensures LengthsSame(LengthsAt(cl, s, pos, n, []), cl, s, pos, n, [])
  {
  }

  lemma LengthsShort(r: Lengths, cl: seq<nat>, s: Bits, pos: nat, n: nat, l: seq<nat>, pos': nat, l': seq<nat>)
    requires LengthsSame(r, cl, s, pos, n, l)
    requires |s| < pos + 32
    ensures LengthsDone(r, Halted, s, pos', l')
  {
  }

  lemma LengthsRefused(r: Lengths, cl: seq<nat>, s: Bits, pos: nat, n: nat, l: seq<nat>, pos': nat, l': seq<nat>)
    requires r == BadLens || r == OddLens
    ensures LengthsDone(r, Error(1), s, pos', l')
  {
  }

  lemma LengthsOdd(r: Lengths, st: Status, s: Bits, pos: nat, l: seq<nat>)
    requires r == OddLens
    ensures LengthsDone(r, st, s, pos, l)
  {
  }

  /** A list of lengths that means something has a symbol here, or a code length code with a symbol everywhere. */
  lemma LengthsThere(r: Lengths, cl: seq<nat>, s: Bits, pos: nat, n: nat, l: seq<nat>)
    requires r != OddLens && LengthsSame(r, cl, s, pos, n, l) && |l| < n && Accepted(cl) && |cl| == 19
    ensures pos <= |s| && (SymbolAt(cl, s, pos).Some? || (Readable(cl) && Complete(cl)))
  {
    hide SymbolAt, Complete, Readable;
    if Readable(cl) {
      ReadableComplete(cl);
    }
  }

  /** Nineteen codes of at most one bit would be too many. */
  lemma ReadableComplete(cl: seq<nat>)
    requires Accepted(cl) && |cl| == 19 && Readable(cl)
    ensures Complete(cl)
  {
    AllOnes(cl);
    LongestAtMost(cl, MaxLength(cl));
    hide KraftSum, MaxLength;
  }

  lemma AllOnes(cl: seq<nat>)
    requires |cl| == 19
    ensures (forall i :: 0 <= i < |cl| ==> cl[i] == 1) ==> Oversubscribed(cl)
  {
    NineteenOnes();
    hide Oversubscribed;
    if forall i :: 0 <= i < |cl| ==> cl[i] == 1 { assert cl == Repeat(1, 19); }
  }

  lemma NineteenOnes()
    ensures Oversubscribed(Repeat(1, 19))
  {
    assert [] + Repeat(1, 19) == Repeat(1, 19);
    hide KraftSum;
    KraftRepeat([], 1, 19);
    KraftNone();
    Powers();
    MulIs(19, 32768);
  }

  lemma PlainLength(r: Lengths, cl: seq<nat>, s: Bits, pos: nat, pos': nat, n: nat, l: seq<nat>, v: nat)
    requires LengthsSame(r, cl, s, pos, n, l) && |l| < n && v < 16
    requires r != OddLens ==> SymbolAt(cl, s, pos) == Some(v) && v < |cl| && pos' == pos + cl[v]
    ensures LengthsSame(r, cl, s, pos', n, l + [v])
  {
    hide SymbolAt, LengthsAt;
    if r != OddLens {
      LengthsStep(cl, s, pos, n, l, v);
    }
  }

  lemma RepeatedLength(r: Lengths, cl: seq<nat>, s: Bits, pos: nat, pos': nat, n: nat, l: seq<nat>, v: nat, count: nat)
    requires LengthsSame(r, cl, s, pos, n, l) && |l| < n && 16 <= v < 19
    requires r != OddLens ==> SymbolAt(cl, s, pos) == Some(v) && v < |cl| && pos' == pos + cl[v] + RepeatBits(v) <= |s|
    requires r != OddLens ==> count == Num(s, pos + cl[v], RepeatBits(v)) + RepeatBase(v)
    ensures |l| + count > n ==> r == BadLens || r == OddLens
    ensures |l| + count <= n ==> LengthsSame(r, cl, s, pos', n, l + Repeat(if v == 16 then Last(l) else 0, count))
  {
    hide SymbolAt, LengthsAt, Num, Repeat;
    if r != OddLens {
      LengthsStep(cl, s, pos, n, l, v);
    }
  }

  lemma LastRepeat(l: seq<nat>, x: nat, count: nat)
    requires count > 0 && Small(l) && (x == Last(l) || x == 0)
    ensures Last(l + Repeat(x, count)) == x && Small(l + Repeat(x, count))
  {
  }

  lemma LengthsEnd(r: Lengths, cl: seq<nat>, s: Bits, pos: nat, n: nat, l: seq<nat>)
    requires LengthsSame(r, cl, s, pos, n, l) && |l| == n
    ensures LengthsDone(r, Ok, s, pos, l)
  {
  }
}
