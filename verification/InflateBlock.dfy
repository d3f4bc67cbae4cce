/** Inflating the data of a compressed block (zBoot/inflate.c:334-436) and of a stored one (440-492). */
module InflateBlock {
  import opened BitStrings
  import opened Canonical
  import opened Bytes
  import opened Crc
  import opened HuftTables
  import opened Huft
  import opened HuftResult
  import opened Reader
  import opened Window
  import opened Deflate
  import opened InflateCodes

  /** A length has been decoded, unless the block is beyond promises: which symbol it was. */
  ghost predicate AtLength(r: Result, lit: seq<nat>, dist: seq<nat>, s: Bits, pos: nat, h: seq<Byte>, e: nat, v: nat) {
    r == Odd || exists i :: LengthSymbol(r, lit, dist, s, pos, h, i, e, v)
  }

  lemma DistPayload(j: nat)
    requires j < 30
    ensures |CPDIST| == |CPDEXT| == 30 && PayloadOf(0, CPDIST, CPDEXT, j) == Value(CPDEXT[j], CPDIST[j])
      && CPDEXT[j] <= 13
  {
    Sizes();
  }

  /** The distance symbol of a match has been decoded. */
  ghost predicate AtDistance(r: Result, lit: seq<nat>, dist: seq<nat>, s: Bits, pos: nat, h: seq<Byte>, n: nat, e: nat,
          v: nat)
  {
    && pos <= |s| && |h| >= WSIZE && e <= 13 && 3 <= n
    && if pos + e > |s| then r == Fail
       else 1 <= v + Num(s, pos, e) <= WSIZE && r == Codes(lit, dist, s, pos + e, CopyBytes(h, v + Num(s, pos, e), n))
  }

  lemma {:induction false} DistSymbol(lit: seq<nat>, dist: seq<nat>, tl: Tables, td: Tables, bl: nat, bd: nat, s: Bits,
          pos: nat, h: seq<Byte>, r: Result,
                   i: nat, e: nat, v: nat, pos': nat, e': nat, v': nat)
    requires Trees(lit, dist, tl, td, bl, bd) && LengthSymbol(r, lit, dist, s, pos, h, i, e, v) && r != Odd
      && pos + e <= pos' <= |s|
    requires td != [] && Lookup(td, 0, bd, Ahead(s, pos + e), 0) == Decoded(Value(e', v'), pos' - pos - e)
    ensures AtDistance(r, lit, dist, s, pos', h, v + Num(s, pos, e), e', v')
  {
    hide Lookup, Tree, KraftSum, Readable, Ahead, Codes, PayloadOf, SymbolAt, CopyBytes, Num, Pow2, MatchAt, AtDistance;
    GotSymbol(dist, 0, CPDIST, CPDEXT, td, bd, s, pos + e, Value(e', v'), pos' - pos - e);
    PairThere(dist, s, pos, i);
    var j := SymbolAt(dist, s, pos + e).sym;
    DistPayload(j);
    DistanceAt(lit, dist, s, pos, h, r, i, e, v, j);
  }

  lemma {:induction false} DistanceAt(lit: seq<nat>, dist: seq<nat>, s: Bits, pos: nat, h: seq<Byte>, r: Result, i: nat,
          e: nat, v: nat, j: nat)
    requires LengthSymbol(r, lit, dist, s, pos, h, i, e, v) && pos + e <= |s| && |dist| <= 30
    requires SymbolAt(dist, s, pos + e) == Some(j) && j < |dist| && |CPDIST| == |CPDEXT| == 30 && CPDEXT[j] <= 13
    ensures AtDistance(r, lit, dist, s, pos + e + dist[j], h, v + Num(s, pos, e), CPDEXT[j], CPDIST[j])
  {
    hide Codes, SymbolAt, CopyBytes, Num, MatchAt;
    PairIs(dist, s, pos, i, j);
    assert v >= 3 by { Sizes(); }
    InStream(dist, s, pos + e, j);
  }

  lemma InStream(b: seq<nat>, s: Bits, pos: nat, j: nat)
    requires pos <= |s| && SymbolAt(b, s, pos) == Some(j)
    ensures j < |b| && pos + b[j] <= |s|
  {
    hide BE, FirstCode, Rank;
  }

  lemma PairThere(dist: seq<nat>, s: Bits, pos: nat, i: nat)
    requires pos <= |s| && i < 29 && |CPLEXT| == 31 && pos + CPLEXT[i] <= |s|
    ensures SymbolAt(dist, s, pos + CPLEXT[i]).None? ==>
      MatchAt(dist, s, pos, i) == if Readable(dist) then NoPair else OddPair
  {
    hide Readable, SymbolAt;
  }

  lemma PairIs(dist: seq<nat>, s: Bits, pos: nat, i: nat, j: nat)
    requires pos <= |s| && i < 29 && |CPLEXT| == |CPLENS| == 31 && pos + CPLEXT[i] <= |s| && |dist| <= 30
    requires SymbolAt(dist, s, pos + CPLEXT[i]) == Some(j)
    ensures j < |dist| && |CPDIST| == |CPDEXT| == 30
    ensures var q := pos + CPLEXT[i] + dist[j];
            MatchAt(dist, s, pos, i) == if q + CPDEXT[j] > |s| then NoPair
                                        else Pair(CPLENS[i] + Num(s, pos, CPLEXT[i]), CPDIST[j] + Num(s, q, CPDEXT[j]),
                                        q + CPDEXT[j])
  {
    hide Readable, BE, FirstCode, Rank, Num;
    Sizes();
  }

  lemma {:induction false} DistWrong(lit: seq<nat>, dist: seq<nat>, tl: Tables, td: Tables, bl: nat, bd: nat, s: Bits,
          pos: nat, h: seq<Byte>, r: Result,
                  i: nat, e: nat, v: nat)
    requires Trees(lit, dist, tl, td, bl, bd) && LengthSymbol(r, lit, dist, s, pos, h, i, e, v) && r != Odd
      && pos + e <= |s|
    requires td != [] && FoundBad(td, bd, s, pos + e)
    ensures r == Fail
  {
    hide Lookup, Tree, KraftSum, Readable, Ahead, Codes, PayloadOf, SymbolAt, CopyBytes, Num, Pow2;
    PairThere(dist, s, pos, i);
    var p, u :| IsBad(p) && pos + e + u <= |s| && Lookup(td, 0, bd, Ahead(s, pos + e), 0) == Decoded(p, u);
    GotSymbol(dist, 0, CPDIST, CPDEXT, td, bd, s, pos + e, p, u);
    if SymbolAt(dist, s, pos + e).Some? {
      DistPayload(SymbolAt(dist, s, pos + e).sym);
    }
  }

  /** A match (zBoot/inflate.c:384-424), after its length symbol. */
  method Match(rd: Reader, win: Window, td: Tables, bd: nat, e: nat, v: nat,
               ghost r: Result, ghost lit: seq<nat>, ghost dist: seq<nat>, ghost tl: Tables,
               ghost bl: nat) returns (st: Status)
    requires rd.Valid() && win.Valid() && Trees(lit, dist, tl, td, bl, bd)
    requires AtLength(r, lit, dist, rd.Stream(), rd.Pos(), win.History(), e, v)
    modifies rd, win`w, win`out, win.sum`crc, win.slide
    ensures rd.Valid() && win.Valid() && win.init == old(win.init) && rd.Pos() >= old(rd.Pos())
    ensures st == Ok ==> Same(r, lit, dist, rd.Stream(), rd.Pos(), win.History())
    ensures st.Error? ==> r == Odd || r == Fail
    ensures st == Crash ==> r == Odd
    ensures st == Halted ==> |rd.Stream()| < old(rd.Pos()) + 45
  {
    hide Trees, LengthSymbol, AtDistance, Codes, CopyBytes, Num, Same, BitsOf, LE, Behind, TableOK, Register;
    ghost var pos, h := rd.Pos(), win.History();
    ghost var i: nat := 0;
    if r != Odd {
      i :| LengthSymbol(r, lit, dist, rd.Stream(), pos, h, i, e, v);
      LengthFacts(r, lit, dist, rd.Stream(), pos, h, i, e, v);
    }
    if e > 16 {
      return Crash;
    }
    var ok, x := rd.Take(e);
    if !ok {
      return Halted;
    }
    var sym;
    sym, st := Distance(rd, td, bd, e, v, x, pos, h, i, r, lit, dist, tl, bl);
    if st == Ok {
      st := CopyMatch(rd, win, v + x, sym.e, sym.v, r, lit, dist);
    }
  }

  /** The distance symbol of a match (zBoot/inflate.c:389-399); its length symbol ended at pos. */
  method Distance(rd: Reader, td: Tables, bd: nat, e: nat, v: nat, x: nat, ghost pos: nat, ghost h: seq<Byte>,
          ghost i: nat,
                  ghost r: Result, ghost lit: seq<nat>, ghost dist: seq<nat>, ghost tl: Tables,
                  ghost bl: nat) returns (sym: Sym, st: Status)
    requires rd.Valid() && Trees(lit, dist, tl, td, bl, bd) && rd.Pos() == pos + e && x == Num(rd.Stream(), pos, e)
    requires r == Odd || LengthSymbol(r, lit, dist, rd.Stream(), pos, h, i, e, v)
    modifies rd
    ensures rd.Valid() && old(rd.Pos()) <= rd.Pos() <= old(rd.Pos()) + BMAX
    ensures st == Ok ==>
      sym.Got?
      && (r == Odd || AtDistance(r, lit, dist, rd.Stream(), rd.Pos(), h, v + x, sym.e, sym.v))
    ensures st.Error? ==> r == Odd || r == Fail
    ensures st == Crash ==> r == Odd
    ensures st == Halted ==> |rd.Stream()| < old(rd.Pos()) + BMAX
  {
    hide Trees, LengthSymbol, AtDistance, Num, FoundBad, Lookup, Ahead, BitsOf, LE, HuftWalk.Sound;
    TreesSound(lit, dist, tl, td, bl, bd);
    sym := Decode(rd, td, bd);
    if sym == Halt {
      st := Halted;
    } else if sym == Wrong {
      if r != Odd { DistWrong(lit, dist, tl, td, bl, bd, rd.Stream(), pos, h, r, i, e, v); }
      st := Error(1);
    } else if sym == Garbage {
      if r != Odd { DistGarbage(lit, dist, tl, td, bl, bd, rd.Stream(), pos, h, r, i, e, v); }
      st := Crash;
    } else {
      if r != Odd { DistSymbol(lit, dist, tl, td, bl, bd, rd.Stream(), pos, h, r, i, e, v, rd.Pos(), sym.e, sym.v); }
      st := Ok;
    }
  }

  /** The rest of a match (zBoot/inflate.c:400-424), after its distance symbol. */
  method CopyMatch(rd: Reader, win: Window, n: nat, e: nat, v: nat, ghost r: Result, ghost lit: seq<nat>,
          ghost dist: seq<nat>)
    returns (st: Status)
    requires rd.Valid() && win.Valid()
    requires r == Odd || AtDistance(r, lit, dist, rd.Stream(), rd.Pos(), win.History(), n, e, v)
    modifies rd, win`w, win`out, win.sum`crc, win.slide
    ensures rd.Valid() && win.Valid() && win.init == old(win.init) && rd.Pos() >= old(rd.Pos())
    ensures st == Ok ==> Same(r, lit, dist, rd.Stream(), rd.Pos(), win.History())
    ensures st == Ok || st == Crash || st == Halted
    ensures st == Crash ==> r == Odd
    ensures st == Halted ==> |rd.Stream()| < old(rd.Pos()) + 13
  {
    hide AtDistance, Codes, CopyBytes, Num, Same, BitsOf, LE, Behind, TableOK, Register;
    ghost var s, pos, h := rd.Stream(), rd.Pos(), win.History();
    if r != Odd { DistanceFacts(r, lit, dist, s, pos, h, n, e, v); }
    if e > 13 {
      return Crash;
    }
    var ok, y := rd.Take(e);
    if !ok {
      return Halted;
    }
    var d := v + y;
    if n == 0 || d == 0 || d > WSIZE {
      return Crash;
    }
    win.Copy(n, d);
    Copied(r, lit, dist, s, pos, h, n, e, v, win.History());
    return Ok;
  }

  lemma TreesSound(lit: seq<nat>, dist: seq<nat>, tl: Tables, td: Tables, bl: nat, bd: nat)
    requires Trees(lit, dist, tl, td, bl, bd)
    ensures (tl == [] || HuftWalk.Sound(tl, 0, 0, bl)) && (td == [] || HuftWalk.Sound(td, 0, 0, bd))
  {
  }

  lemma LengthFacts(r: Result, lit: seq<nat>, dist: seq<nat>, s: Bits, pos: nat, h: seq<Byte>, i: nat, e: nat, v: nat)
    requires LengthSymbol(r, lit, dist, s, pos, h, i, e, v)
    ensures e <= 5 && i < 29 && |CPLEXT| == |CPLENS| == 31 && e == CPLEXT[i] && v == CPLENS[i] && v >= 3
  {
    hide MatchAt, Codes;
    Sizes();
  }

  lemma DistanceFacts(r: Result, lit: seq<nat>, dist: seq<nat>, s: Bits, pos: nat, h: seq<Byte>, n: nat, e: nat, v: nat)
    requires AtDistance(r, lit, dist, s, pos, h, n, e, v)
    ensures e <= 13 && n >= 3 && (pos + e <= |s| ==> 1 <= v + Num(s, pos, e) <= WSIZE)
  {
  }

  lemma DistGarbage(lit: seq<nat>, dist: seq<nat>, tl: Tables, td: Tables, bl: nat, bd: nat, s: Bits, pos: nat,
          h: seq<Byte>, r: Result,
                    i: nat, e: nat, v: nat)
    requires Trees(lit, dist, tl, td, bl, bd) && LengthSymbol(r, lit, dist, s, pos, h, i, e, v) && r != Odd
      && pos + e <= |s|
    ensures td != [] && Lookup(td, 0, bd, Ahead(s, pos + e), 0) != HuftTables.Stuck
  {
    hide Lookup, Tree, Ahead, Codes, CopyBytes, Readable, SymbolAt, MatchAt;
    PairThere(dist, s, pos, i);
    NoGarbage(dist, 0, CPDIST, CPDEXT, td, bd, s, pos + e);
  }

  lemma Copied(r: Result, lit: seq<nat>, dist: seq<nat>, s: Bits, pos: nat, h: seq<Byte>, n: nat, e: nat, v: nat,
          h': seq<Byte>)
    requires r == Odd || AtDistance(r, lit, dist, s, pos, h, n, e, v)
    requires pos + e <= |s| && |h| >= WSIZE && 1 <= v + Num(s, pos, e) <= WSIZE
      && h' == CopyBytes(h, v + Num(s, pos, e), n)
    ensures Same(r, lit, dist, s, pos + e, h')
  {
    hide Codes;
  }

  /** inflate_codes (zBoot/inflate.c:334-436). */
  method Compressed(rd: Reader, win: Window, tl: Tables, td: Tables, bl: nat, bd: nat, ghost lit: seq<nat>,
          ghost dist: seq<nat>)
    returns (st: Status)
    requires rd.Valid() && win.Valid() && Trees(lit, dist, tl, td, bl, bd)
    modifies rd, win`w, win`out, win.sum`crc, win.slide
    ensures rd.Valid() && win.Valid() && win.init == old(win.init) && rd.Pos() >= old(rd.Pos())
    ensures Agrees(Codes(lit, dist, rd.Stream(), old(rd.Pos()), old(win.History())), st, rd.Stream(), rd.Pos(),
      win.History())
  {
    hide Trees, Same, Codes, FoundBad, Lookup, Ahead, Agrees, AtLength, BitsOf, LE, Behind, TableOK, Register;
    ghost var s := rd.Stream();
    ghost var r := Codes(lit, dist, s, rd.Pos(), win.History());
    SameStart(lit, dist, s, rd.Pos(), win.History());
    TreesSound(lit, dist, tl, td, bl, bd);
    while true
      invariant rd.Valid() && win.Valid() && win.init == old(win.init) && rd.Pos() >= old(rd.Pos())
      invariant Same(r, lit, dist, s, rd.Pos(), win.History())
      decreases |s| - rd.Pos()
    {
      ghost var pos, h := rd.Pos(), win.History();
      var sym := Decode(rd, tl, bl);
      if sym == Halt {
        NearEnd(r, lit, dist, s, pos, h, rd.Pos(), win.History());
        return Halted;
      } else if sym == Wrong {
        if r != Odd { LitWrong(lit, dist, tl, td, bl, bd, s, pos, h, r); }
        Refused(r, Error(1), s, rd.Pos(), win.History());
        return Error(1);
      } else if sym == Garbage {
        if r != Odd { LitGarbage(lit, dist, tl, td, bl, bd, s, pos, h, r); }
        Refused(r, Crash, s, rd.Pos(), win.History());
        return Crash;
      }
      if r != Odd { LitSymbol(lit, dist, tl, td, bl, bd, s, pos, rd.Pos(), h, r, sym.e, sym.v); }
      if sym.e == 16 {
        if sym.v >= 256 {
          Refused(r, Crash, s, rd.Pos(), win.History());
          return Crash;
        }
        win.Put(sym.v);
        StillOdd(r, lit, dist, s, rd.Pos(), win.History());
      } else if sym.e == 15 {
        Ended(r, s, rd.Pos(), win.History());
        return Ok;
      } else {
        AtLengthNow(r, lit, dist, s, rd.Pos(), win.History(), sym.e, sym.v);
        st := Match(rd, win, td, bd, sym.e, sym.v, r, lit, dist, tl, bl);
        if st != Ok {
          if st == Halted { NearEnd(r, lit, dist, s, pos, h, rd.Pos(), win.History()); }
          else { Refused(r, st, s, rd.Pos(), win.History()); }
          return;
        }
      }
    }
  }

  lemma SameStart(lit: seq<nat>, dist: seq<nat>, s: Bits, pos: nat, h: seq<Byte>)
    requires pos <= |s| && |h| >= WSIZE
    ensures Same(Codes(lit, dist, s, pos, h), lit, dist, s, pos, h)
  {
  }

  lemma StillOdd(r: Result, lit: seq<nat>, dist: seq<nat>, s: Bits, pos: nat, h: seq<Byte>)
    ensures r == Odd ==> Same(r, lit, dist, s, pos, h)
  {
  }

  /** What a block means lies at or after where it is read. */
  lemma NearEnd(r: Result, lit: seq<nat>, dist: seq<nat>, s: Bits, pos: nat, h: seq<Byte>, pos': nat, h': seq<Byte>)
    requires Same(r, lit, dist, s, pos, h) && |s| < pos + 64
    ensures Agrees(r, Halted, s, pos', h')
  {
  }

  lemma Refused(r: Result, st: Status, s: Bits, pos': nat, h': seq<Byte>)
    requires r == Odd || (r == Fail && (st.Error? || st == Halted))
    ensures Agrees(r, st, s, pos', h')
  {
  }

  lemma Ended(r: Result, s: Bits, pos': nat, h': seq<Byte>)
    requires r == Odd || r == Done(pos', h')
    ensures Agrees(r, Ok, s, pos', h')
  {
  }

  lemma AtLengthNow(r: Result, lit: seq<nat>, dist: seq<nat>, s: Bits, pos: nat, h: seq<Byte>, e: nat, v: nat)
    requires r == Odd || exists i :: LengthSymbol(r, lit, dist, s, pos, h, i, e, v)
    ensures AtLength(r, lit, dist, s, pos, h, e, v)
  {
  }

  lemma LitGarbage(lit: seq<nat>, dist: seq<nat>, tl: Tables, td: Tables, bl: nat, bd: nat, s: Bits, pos: nat,
          h: seq<Byte>, r: Result)
    requires Trees(lit, dist, tl, td, bl, bd) && Same(r, lit, dist, s, pos, h) && r != Odd && pos <= |s|
    ensures tl != [] && Lookup(tl, 0, bl, Ahead(s, pos), 0) != HuftTables.Stuck
  {
    hide Lookup, Tree, Ahead, Readable, Codes, SymbolAt;
    SymbolThere(lit, dist, s, pos, h);
    NoGarbage(lit, LENGTHS, CPLENS, CPLEXT, tl, bl, s, pos);
  }

  // ---- stored blocks ----

  lemma AlignIs(inptr: nat, bk: nat)
    requires bk <= 8 * inptr
    ensures 8 * inptr - bk + bk % 8 == Align(8 * inptr - bk)
  {
  }

  lemma OneByte(s: Bits, pos: nat, i: nat)
    requires pos + 8 * (i + 1) <= |s|
    ensures Num(s, pos + 8 * i, 8) < 256 && BytesAt(s, pos, i + 1) == BytesAt(s, pos, i) + [Num(s, pos + 8 * i, 8)]
  {
    BytePow();
  }

  /** Drop the bits up to the next byte boundary (zBoot/inflate.c:456-458). */
  method ToBoundary(rd: Reader)
    requires rd.Valid()
    modifies rd
    ensures rd.Valid() && rd.Pos() == Align(old(rd.Pos())) && rd.Pos() >= old(rd.Pos())
  {
    hide BitsOf, LE, Align;
    AlignIs(rd.inptr, rd.bk);
    var pad := rd.bk % 8;
    rd.Dump(pad);
  }

  /** inflate_stored (zBoot/inflate.c:440-492). */
  method StoredBlock(rd: Reader, win: Window) returns (st: Status)
    requires rd.Valid() && win.Valid()
    modifies rd, win`w, win`out, win.sum`crc, win.slide
    ensures rd.Valid() && win.Valid() && win.init == old(win.init) && rd.Pos() >= old(rd.Pos())
    ensures Agrees(Stored(rd.Stream(), old(rd.Pos()), old(win.History())), st, rd.Stream(), rd.Pos(), win.History())
  {
    hide BitsOf, LE, Behind, BytesAt, Num, Stored, Agrees, Align, TableOK, Register;
    ghost var s, h, pos := rd.Stream(), win.History(), rd.Pos();
    ToBoundary(rd);
    StoredIs(s, pos, h);
    var ok, n := rd.Take(16);
    if !ok {
      Refused(Fail, Halted, s, rd.Pos(), h);
      return Halted;
    }
    var m;
    ok, m := rd.Take(16);
    if !ok {
      Refused(Fail, Halted, s, rd.Pos(), h);
      return Halted;
    }
    if n + m != 0xffff {
      Refused(Fail, Error(1), s, rd.Pos(), h);
      return Error(1);
    }
    st := StoredBytes(rd, win, n);
    if st == Ok {
      Ended(Stored(s, pos, h), s, rd.Pos(), win.History());
    } else {
      Refused(Fail, Halted, s, rd.Pos(), win.History());
    }
  }

  lemma StoredIs(s: Bits, pos: nat, h: seq<Byte>)
    requires pos <= |s| && |h| >= WSIZE
    ensures var q := Align(pos);
            Stored(s, pos, h) == if q + 32 > |s| || Num(s, q, 16) + Num(s, q + 16, 16) != 0xffff
            || q + 32 + 8 * Num(s, q, 16) > |s| then Fail
                                 else Done(q + 32 + 8 * Num(s, q, 16), h + BytesAt(s, q + 32, Num(s, q, 16)))
  {
    hide Num, BytesAt;
  }

  /** The bytes of a stored block (zBoot/inflate.c:471-482). */
  method StoredBytes(rd: Reader, win: Window, n: nat) returns (st: Status)
    requires rd.Valid() && win.Valid()
    modifies rd, win`w, win`out, win.sum`crc, win.slide
    ensures rd.Valid() && win.Valid() && win.init == old(win.init) && rd.Pos() >= old(rd.Pos())
    ensures st == if old(rd.Pos()) + 8 * n <= |rd.Stream()| then Ok else Halted
    ensures st == Ok ==>
      rd.Pos() == old(rd.Pos()) + 8 * n
      && win.History() == old(win.History()) + BytesAt(rd.Stream(), old(rd.Pos()), n)
  {
    hide BitsOf, LE, Behind, BytesAt, Num, TableOK, Register;
    ghost var s, h, q := rd.Stream(), win.History(), rd.Pos();
    var i := 0;
    NoBytes(s, q);
    assert h + [] == h;
    while i < n
      invariant rd.Valid() && win.Valid() && win.init == old(win.init) && i <= n
      invariant q + 8 * i == rd.Pos() <= |s| && win.History() == h + BytesAt(s, q, i)
    {
      var ok, b := rd.Take(8);
      if !ok {
        return Halted;
      }
      OneByte(s, q, i);
      win.Put(b);
      assert h + BytesAt(s, q, i) + [b] == h + BytesAt(s, q, i + 1);
      i := i + 1;
    }
    return Ok;
  }

  lemma NoBytes(s: Bits, pos: nat)
    requires pos <= |s|
    ensures BytesAt(s, pos, 0) == []
  {
  }
}
