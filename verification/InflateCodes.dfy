/** Decoding one symbol through the tables (zBoot/inflate.c:359-368, 391-399): the same as finding the code
    that stands at the position. */
module InflateCodes {
  import opened BitStrings
  import opened Canonical
  import opened Bytes
  import opened HuftTables
  import opened HuftWalk
  import opened Huft
  import opened HuftResult
  import opened HuftSafe
  import opened Reader
  import opened Window
  import opened Deflate

  /** The tables stand for the tree given by the code lengths b; there are none if it has no codes. */
  ghost predicate Tree(b: seq<nat>, s: nat, d: seq<nat>, e: seq<nat>, tabs: Tables, bits: nat) {
    && b != [] && MaxLength(b) <= BMAX && !Oversubscribed(b)
    && (tabs == [] <==> MaxLength(b) == 0)
    && (tabs != [] ==> Sound(tabs, 0, 0, bits) && Decodes(b, s, d, e, tabs, bits))
  }

  ghost predicate Decodes(b: seq<nat>, s: nat, d: seq<nat>, e: seq<nat>, tabs: Tables, bits: nat)
    requires tabs != []
  {
    forall str: Bits {:trigger Lookup(tabs, 0, bits, str, 0)} ::
      |str| >= MaxLength(b) ==> DecodesAs(b, s, d, e, str, Lookup(tabs, 0, bits, str, 0))
  }

  /** What comes of decoding: a table entry, the invalid mark, a cell that was never written or a table that
      is not there, or no more input. */
  datatype Sym = Got(e: nat, v: nat) | Wrong | Garbage | Halt

  const BAD := 99

  /** The rest of the stream, with enough bits behind it. */
  ghost function Ahead(s: Bits, pos: nat): Bits
    requires pos <= |s|
  {
    s[pos..] + Zeros(BMAX)
  }

  predicate IsBad(p: Payload) {
    p.Invalid? || p.e == BAD
  }

  lemma AheadAt(s: Bits, pos: nat, off: nat, width: nat)
    requires pos + off + width <= |s|
    ensures off + width <= |Ahead(s, pos)| && Ahead(s, pos)[off..off + width] == s[pos + off..pos + off + width]
  {
    var a := Ahead(s, pos);
    assert a[..|s| - pos] == s[pos..];
    assert a[off..off + width] == s[pos..][off..off + width];
  }

  /** One table cell: what the look-up does there. */
  lemma Cell(tabs: Tables, t: nat, off: nat, width: nat, s: Bits, pos: nat, index: nat)
    requires Sound(tabs, t, off, width) && pos + off + width <= |s| && index == Num(s, pos + off, width)
    ensures var e := if index < |tabs[t]| then tabs[t][index] else Unset;
            && SoundEntry(tabs, t, off, width, e)
            && (e.Unset? ==> Lookup(tabs, t, width, Ahead(s, pos), off) == Stuck)
            && (e.Leaf? ==> Lookup(tabs, t, width, Ahead(s, pos), off) == Decoded(e.p, off + e.b))
            && (e.Link? ==>
                Lookup(tabs, t, width, Ahead(s, pos), off)
                == Lookup(tabs, e.t, e.e, Ahead(s, pos), off + e.b))
  {
    hide Lookup, LE, Ahead;
    AheadAt(s, pos, off, width);
    var p := s[pos + off..pos + off + width];
    LookupStep(tabs, t, width, Ahead(s, pos), off, p);
    assert SoundEntry(tabs, t, off, width, At(tabs, t, p));
  }

  ghost predicate FoundBad(tabs: Tables, bits: nat, s: Bits, pos: nat)
    requires tabs != [] && pos <= |s|
  {
    exists p, u :: IsBad(p) && pos + u <= |s| && Lookup(tabs, 0, bits, Ahead(s, pos), 0) == Decoded(p, u)
  }

  lemma BadHere(tabs: Tables, bits: nat, s: Bits, pos: nat, p: Payload, u: nat)
    requires tabs != [] && IsBad(p) && pos + u <= |s| && Lookup(tabs, 0, bits, Ahead(s, pos), 0) == Decoded(p, u)
    ensures FoundBad(tabs, bits, s, pos)
  {
  }

  method Decode(rd: Reader, tabs: Tables, bits: nat) returns (r: Sym)
    requires rd.Valid() && (tabs == [] || Sound(tabs, 0, 0, bits))
    modifies rd
    ensures rd.Valid() && old(rd.Pos()) <= rd.Pos() <= old(rd.Pos()) + BMAX
    ensures r == Halt ==> |rd.Stream()| < old(rd.Pos()) + BMAX
    ensures r.Got? ==> r.e != BAD && tabs != [] && rd.Pos() > old(rd.Pos())
    ensures r.Got? ==>
      Lookup(tabs, 0, bits, Ahead(rd.Stream(), old(rd.Pos())), 0) == Decoded(Value(r.e, r.v), rd.Pos() - old(rd.Pos()))
    ensures r == Wrong ==> tabs != [] && FoundBad(tabs, bits, rd.Stream(), old(rd.Pos()))
    ensures r == Garbage ==> tabs == [] || Lookup(tabs, 0, bits, Ahead(rd.Stream(), old(rd.Pos())), 0) == Stuck
  {
    hide Lookup, Ahead, Sound, FoundBad, BitsOf, LE, Low, Num;
    if tabs == [] {
      return Garbage;
    }
    ghost var pos, s := rd.Pos(), rd.Stream();
    var t, width := 0, bits;
    while true
      invariant rd.Valid() && pos <= rd.Pos() && t < |tabs| && Sound(tabs, t, rd.Pos() - pos, width)
      invariant Lookup(tabs, 0, bits, Ahead(s, pos), 0) == Lookup(tabs, t, width, Ahead(s, pos), rd.Pos() - pos)
      decreases |tabs| - t
    {
      SoundBounds(tabs, t, rd.Pos() - pos, width);
      var ok := rd.Need(width);
      if !ok {
        return Halt;
      }
      rd.PeekIs(width);
      var index := rd.Peek(width);
      Cell(tabs, t, rd.Pos() - pos, width, s, pos, index);
      var e := if index < |tabs[t]| then tabs[t][index] else Unset;
      if e.Unset? {
        return Garbage;
      } else if e.Leaf? {
        if IsBad(e.p) {
          BadHere(tabs, bits, s, pos, e.p, rd.Pos() - pos + e.b);
          return Wrong;
        }
        rd.Dump(e.b);
        return Got(e.p.e, e.p.n);
      } else {
        rd.Dump(e.b);
        t, width := e.t, e.e;
      }
    }
  }

  lemma SoundBounds(tabs: Tables, t: nat, off: nat, width: nat)
    requires Sound(tabs, t, off, width)
    ensures off + width <= BMAX
  {
  }

  // ---- what it means ----

  /** A code that ends inside the stream does not care what follows. */
  lemma MatchesAhead(b: seq<nat>, i: nat, s: Bits, pos: nat)
    requires pos <= |s| && MaxLength(b) <= BMAX
    ensures Matches(b, i, s[pos..]) ==> Matches(b, i, Ahead(s, pos))
    ensures Matches(b, i, Ahead(s, pos)) && pos + b[i] <= |s| ==> Matches(b, i, s[pos..])
  {
    hide BE, FirstCode, Rank;
    if i < |b| && pos + b[i] <= |s| {
      assert Ahead(s, pos)[..b[i]] == s[pos..][..b[i]];
    }
  }

  lemma FoundIs(b: seq<nat>, s: Bits, pos: nat, i: nat)
    requires pos <= |s| && MaxLength(b) <= BMAX && !Oversubscribed(b) && Matches(b, i, s[pos..])
    ensures SymbolAt(b, s, pos) == Some(i)
  {
    hide Matches, KraftSum;
    var r := SymbolAt(b, s, pos);
    assert r.Some?;
    PrefixFree(b, r.sym, i, s[pos..]);
  }

  /** A decoded entry is that of the symbol at the position, and no symbol's where there is none. */
  lemma {:induction false} GotSymbol(b: seq<nat>, s: nat, d: seq<nat>, e: seq<nat>, tabs: Tables, bits: nat, str: Bits,
                                     pos: nat, p: Payload, u: nat)
    requires Tree(b, s, d, e, tabs, bits) && tabs != [] && pos + u <= |str|
    requires Lookup(tabs, 0, bits, Ahead(str, pos), 0) == Decoded(p, u)
    ensures match SymbolAt(b, str, pos)
            case None => Readable(b) ==> p == Invalid
            case Some(i) => i < |b| && p == PayloadOf(s, d, e, i) && u == b[i]
  {
    hide Lookup, BE, FirstCode, Rank, KraftSum, Readable, Sound, PayloadOf;
    var a := Ahead(str, pos);
    assert DecodesAs(b, s, d, e, a, Lookup(tabs, 0, bits, a, 0)) by {
      AheadLong(str, pos);
    }
    forall i: nat
      ensures Matches(b, i, str[pos..]) ==> Matches(b, i, a)
    {
      MatchesAhead(b, i, str, pos);
    }
    if i: nat :| Matches(b, i, a) {
      MatchesAhead(b, i, str, pos);
      FoundIs(b, str, pos, i);
    }
  }

  lemma AheadLong(str: Bits, pos: nat)
    requires pos <= |str|
    ensures |Ahead(str, pos)| >= BMAX
  {
  }

  /** No table cell in the way was left unset; and only a tree without codes has no tables. */
  lemma NoGarbage(b: seq<nat>, s: nat, d: seq<nat>, e: seq<nat>, tabs: Tables, bits: nat, str: Bits, pos: nat)
    requires Tree(b, s, d, e, tabs, bits) && pos <= |str|
    ensures tabs != [] ==> Lookup(tabs, 0, bits, Ahead(str, pos), 0) != Stuck
    ensures tabs == [] ==> SymbolAt(b, str, pos).None? && !Readable(b)
  {
    hide Lookup, Matches, KraftSum, Sound;
    var a := Ahead(str, pos);
    AheadLong(str, pos);
    if tabs != [] {
      assert DecodesAs(b, s, d, e, a, Lookup(tabs, 0, bits, a, 0));
    } else {
      NoCodes(b, str, pos);
    }
  }

  lemma NoCodes(b: seq<nat>, str: Bits, pos: nat)
    requires b != [] && MaxLength(b) == 0 && pos <= |str|
    ensures SymbolAt(b, str, pos).None? && !Readable(b)
  {
    LongestIs(b);
    NoKraft(b);
  }

  lemma {:induction false} NoKraft(b: seq<nat>)
    requires MaxLength(b) == 0
    ensures KraftSum(b) == 0
  {
    if b != [] {
      NoKraft(b[..|b| - 1]);
    }
  }

  // ---- a compressed block ----

  /** How the inflater ends: well, with an error return, stuck without input, or on tables that mean
      nothing. */
  datatype Status = Ok | Error(code: nat) | Halted | Crash

  /** A run from position pos with history h to position pos' with history h' did what the stream says. */
  ghost predicate Agrees(r: Result, st: Status, s: Bits, pos': nat, h': seq<Byte>) {
    match r
    case Odd => true
    case Fail => st.Error? || st == Halted
    case Done(p, h) => (st == Ok && p == pos' && h == h') || (st == Halted && |s| < p + 64)
  }

  /** The invariant of the loop: the rest of the block means what the whole block meant. */
  ghost predicate Same(r: Result, lit: seq<nat>, dist: seq<nat>, s: Bits, pos: nat, h: seq<Byte>) {
    r == Odd || (pos <= |s| && |h| >= WSIZE && r == Codes(lit, dist, s, pos, h))
  }

  /** The literal and distance trees with their tables. */
  ghost predicate Trees(lit: seq<nat>, dist: seq<nat>, tl: Tables, td: Tables, bl: nat, bd: nat) {
    && Tree(lit, LENGTHS, CPLENS, CPLEXT, tl, bl) && |lit| <= 288
    && Tree(dist, 0, CPDIST, CPDEXT, td, bd) && |dist| <= 30
  }

  /** A symbol of the literal tree has been decoded. */
  lemma {:induction false} LitSymbol(lit: seq<nat>, dist: seq<nat>, tl: Tables, td: Tables, bl: nat, bd: nat, s: Bits,
          pos: nat, pos': nat, h: seq<Byte>, r: Result, e: nat, v: nat)
    requires Trees(lit, dist, tl, td, bl, bd) && Same(r, lit, dist, s, pos, h) && r != Odd && pos <= pos' <= |s|
      && e != BAD
    requires tl != [] && Lookup(tl, 0, bl, Ahead(s, pos), 0) == Decoded(Value(e, v), pos' - pos)
    ensures e == 16 ==> v < 256 && Same(r, lit, dist, s, pos', h + [v])
    ensures e == 15 ==> r == Done(pos', h)
    ensures e != 15 && e != 16 ==> exists i :: LengthSymbol(r, lit, dist, s, pos', h, i, e, v)
  {
    hide Lookup, Tree, KraftSum, Readable, Ahead, MatchAt, LengthSymbol, Codes, PayloadOf, SymbolAt;
    GotSymbol(lit, LENGTHS, CPLENS, CPLEXT, tl, bl, s, pos, Value(e, v), pos' - pos);
    SymbolThere(lit, dist, s, pos, h);
    var i := SymbolAt(lit, s, pos).sym;
    LitPayload(i);
    CodesStep(lit, dist, s, pos, h, i, e, v);
  }

  /** Where there is no symbol, the outcome depends on whether the tree's symbol list was written. */
  lemma SymbolThere(lit: seq<nat>, dist: seq<nat>, s: Bits, pos: nat, h: seq<Byte>)
    requires pos <= |s| && |h| >= WSIZE
    ensures SymbolAt(lit, s, pos).None? ==> Codes(lit, dist, s, pos, h) == if Readable(lit) then Fail else Odd
  {
    hide Readable, MaxLength, Matches;
  }

  lemma LitPayload(i: nat)
    requires i < 288
    ensures var p := PayloadOf(LENGTHS, CPLENS, CPLEXT, i);
            && (i < END ==> p == Value(16, i)) && (i == END ==> p == Value(15, i))
            && (LENGTHS <= i < LENGTHS + 29 ==>
            |CPLENS| == |CPLEXT| == 31 && p == Value(CPLEXT[i - LENGTHS], CPLENS[i - LENGTHS]) && p.e <= 5)
            && (i >= LENGTHS + 29 ==> IsBad(p))
  {
    Sizes();
  }

  lemma {:induction false} CodesStep(lit: seq<nat>, dist: seq<nat>, s: Bits, pos: nat, h: seq<Byte>, i: nat, e: nat,
          v: nat)
    requires pos <= |s| && |h| >= WSIZE && SymbolAt(lit, s, pos) == Some(i)
    ensures i < |lit| && pos + lit[i] <= |s|
    ensures var r := Codes(lit, dist, s, pos, h);
            && (i < END ==> r == Codes(lit, dist, s, pos + lit[i], h + [i]))
            && (i == END ==> r == Done(pos + lit[i], h))
            && (&& LENGTHS <= i < LENGTHS + 29 && |CPLENS| == |CPLEXT| == 31
                && e == CPLEXT[i - LENGTHS] && v == CPLENS[i - LENGTHS] && e <= 5 ==>
                  LengthSymbol(r, lit, dist, s, pos + lit[i], h, i - LENGTHS, e, v))
  {
    hide Readable, MaxLength, MatchAt, BE, FirstCode, Rank;
  }

  /** Length symbol number i ends at pos, and r is what its match and the rest of the block mean. */
  ghost predicate LengthSymbol(r: Result, lit: seq<nat>, dist: seq<nat>, s: Bits, pos: nat, h: seq<Byte>, i: nat,
          e: nat, v: nat)
  {
    && i < 29 && pos <= |s| && |h| >= WSIZE
    && |CPLEXT| == |CPLENS| == 31 && e == CPLEXT[i] && v == CPLENS[i] && e <= 5
    && match MatchAt(dist, s, pos, i)
       case NoPair => r == Fail
       case OddPair => r == Odd
       case Pair(n, d, p) => r == Codes(lit, dist, s, p, CopyBytes(h, d, n))
  }

  lemma {:induction false} LitWrong(lit: seq<nat>, dist: seq<nat>, tl: Tables, td: Tables, bl: nat, bd: nat, s: Bits,
          pos: nat, h: seq<Byte>, r: Result)
    requires Trees(lit, dist, tl, td, bl, bd) && Same(r, lit, dist, s, pos, h) && r != Odd && pos <= |s|
    requires tl != [] && FoundBad(tl, bl, s, pos)
    ensures r == Fail
  {
    hide Lookup, Tree, KraftSum, Readable, Ahead;
    var p, u :| IsBad(p) && pos + u <= |s| && Lookup(tl, 0, bl, Ahead(s, pos), 0) == Decoded(p, u);
    GotSymbol(lit, LENGTHS, CPLENS, CPLEXT, tl, bl, s, pos, p, u);
    SymbolThere(lit, dist, s, pos, h);
    Sizes();
  }
}
