/** The inflater (zBoot/inflate.c:550-816): for every input it gives what the stream means, or refuses it. */
module Inflate {
  import opened BitStrings
  import opened Canonical
  import opened Bytes
  import opened Crc
  import opened Reader
  import opened Window
  import opened Deflate
  import opened InflateCodes
  import opened InflateBlock
  import opened InflateDynamic

  // ---- the code length code ----

  /** Where each symbol stands in the order of BORDER. */
  const PLACE: seq<nat> := [3, 17, 15, 13, 11, 9, 7, 5, 4, 6, 8, 10, 12, 14, 16, 18, 0, 1, 2]

  lemma PlaceIn(x: nat)
    requires x < 19
    ensures |BORDER| == |PLACE| == 19 && PLACE[x] < 19 && BORDER[PLACE[x]] == x
  {
  }

  lemma PlaceOf(t: nat)
    requires t < 19
    ensures |BORDER| == |PLACE| == 19 && BORDER[t] < 19 && PLACE[BORDER[t]] == t
  {
  }

  lemma PlacesApart(t: nat, u: nat)
    requires t < 19 && u < 19
    ensures |BORDER| == 19 && BORDER[t] < 19 && BORDER[u] < 19 && (BORDER[t] == BORDER[u] <==> t == u)
  {
    PlaceOf(t);
    PlaceOf(u);
  }

  lemma {:induction false} CodeLengthAt(s: Bits, pos: nat, n: nat, t: nat)
    requires n <= 19 && pos + 3 * n <= |s| && t < 19
    ensures |BORDER| == 19 && BORDER[t] < 19
    ensures CodeLengths(s, pos, n)[BORDER[t]] == if t < n then Num(s, pos + 3 * t, 3) else 0
    decreases n
  {
    PlaceOf(t);
    hide Num, BORDER;
    if n > 0 {
      PlacesApart(t, n - 1);
      CodeLengthAt(s, pos, n - 1, t);
    }
  }

  lemma OtherPlaces(j: nat)
    requires j < 19
    ensures |BORDER| == 19 && BORDER[j] < 19 && forall t {:trigger BORDER[t]} :: 0 <= t < 19 && t != j ==>
      BORDER[t] != BORDER[j]
  {
    forall t | 0 <= t < 19 && t != j ensures BORDER[t] != BORDER[j] { PlaceOf(t); PlaceOf(j); }
  }

  lemma InOrder(s: Bits, pos: nat, nb: nat, l: seq<nat>)
    requires nb <= 19 && pos + 3 * nb <= |s| && |l| == 19 && |BORDER| == 19
    requires forall t {:trigger BORDER[t]} :: 0 <= t < 19 ==> BORDER[t] < 19
    requires forall t {:trigger BORDER[t]} :: 0 <= t < nb ==> l[BORDER[t]] == Num(s, pos + 3 * t, 3)
    requires forall t {:trigger BORDER[t]} :: nb <= t < 19 ==> l[BORDER[t]] == 0
    ensures l == CodeLengths(s, pos, nb)
  {
    hide CodeLengths, Num;
    forall x | 0 <= x < 19
      ensures l[x] == CodeLengths(s, pos, nb)[x]
    {
      PlaceIn(x);
      CodeLengthAt(s, pos, nb, PLACE[x]);
    }
  }

  /** The lengths of the code length code (zBoot/inflate.c:599-607). */
  method ReadCodeLengths(rd: Reader, ll: array<nat>, nb: nat) returns (ok: bool)
    requires rd.Valid() && nb <= 19 <= ll.Length
    modifies rd, ll
    ensures rd.Valid() && rd.Pos() >= old(rd.Pos()) && (ok <==> old(rd.Pos()) + 3 * nb <= |rd.Stream()|)
    ensures ok ==> rd.Pos() == old(rd.Pos()) + 3 * nb && ll[..19] == CodeLengths(rd.Stream(), old(rd.Pos()), nb)
  {
    hide BitsOf, LE, CodeLengths, Num;
    ghost var s, pos := rd.Stream(), rd.Pos();
    Sizes();
    var j := 0;
    while j < nb
      invariant j <= nb && rd.Valid() && rd.Pos() == pos + 3 * j
      invariant forall t {:trigger BORDER[t]} :: 0 <= t < j ==> ll[BORDER[t]] == Num(s, pos + 3 * t, 3)
    {
      var v;
      ok, v := rd.Take(3);
      if !ok {
        return;
      }
      OtherPlaces(j);
      ll[BORDER[j]] := v;
      j := j + 1;
    }
    while j < 19
      invariant nb <= j <= 19 && rd.Valid() && rd.Pos() == pos + 3 * nb
      invariant forall t {:trigger BORDER[t]} :: 0 <= t < nb ==> ll[BORDER[t]] == Num(s, pos + 3 * t, 3)
      invariant forall t {:trigger BORDER[t]} :: nb <= t < j ==> ll[BORDER[t]] == 0
    {
      OtherPlaces(j);
      ll[BORDER[j]] := 0;
      j := j + 1;
    }
    InOrder(s, pos, nb, ll[..19]);
    return true;
  }

  lemma {:induction false} CodeLengthsSmall(s: Bits, pos: nat, n: nat)
    requires n <= 19 && pos + 3 * n <= |s|
    ensures forall i :: 0 <= i < 19 ==> CodeLengths(s, pos, n)[i] <= 7
    decreases n
  {
    Powers();
    Sizes();
    hide Pow2;
    if n > 0 { CodeLengthsSmall(s, pos, n - 1); }
  }

  lemma LongestIn(b: seq<nat>, m: nat)
    requires forall i :: 0 <= i < |b| ==> b[i] <= m
    ensures MaxLength(b) <= m
  {
  }

  // ---- a dynamic block ----

  /** The data of a dynamic block (zBoot/inflate.c:681-714), whose code lengths are in ll. */
  method TwoTreesBlock(rd: Reader, win: Window, l: seq<nat>, nl: nat, nd: nat) returns (st: Status)
    requires rd.Valid() && win.Valid() && |l| == nl + nd && 1 <= nl <= 286 && 1 <= nd <= 30 && Small(l)
    modifies rd, win`w, win`out, win.sum`crc, win.slide
    ensures rd.Valid() && win.Valid() && win.init == old(win.init) && rd.Pos() >= old(rd.Pos())
    ensures Agrees(TwoTrees(Lens(old(rd.Pos()), l), nl, rd.Stream(), old(win.History())), st, rd.Stream(), rd.Pos(),
      win.History())
  {
    hide Codes, Tree, Agrees, BitsOf, Behind, MaxLength, Accepted, Pow2;
    var lit, dist := l[..nl], l[nl..];
    LongestIn(lit, 15);
    Powers();
    var status, tl, bl := MakeTree(lit, LENGTHS, CPLENS, CPLEXT, 9);
    if status != 0 {
      Refused(Fail, Error(status), rd.Stream(), rd.Pos(), win.History());
      return Error(status);
    }
    var td, bd;
    status, td, bd := MakeTree(dist, 0, CPDIST, CPDEXT, 6);
    if status != 0 {
      Refused(Fail, Error(status), rd.Stream(), rd.Pos(), win.History());
      return Error(status);
    }
    st := Compressed(rd, win, tl, td, bl, bd, lit, dist);
  }

  /** inflate_dynamic (zBoot/inflate.c:550-724). */
  method DynamicBlock(rd: Reader, win: Window) returns (st: Status)
    requires rd.Valid() && win.Valid()
    modifies rd, win`w, win`out, win.sum`crc, win.slide
    ensures rd.Valid() && win.Valid() && win.init == old(win.init) && rd.Pos() >= old(rd.Pos())
    ensures Agrees(Dynamic(rd.Stream(), old(rd.Pos()), old(win.History())), st, rd.Stream(), rd.Pos(), win.History())
  {
    hide DynamicData, BitsOf, LE, Behind, Num, Agrees;
    ghost var h := win.History();
    var nl, nd, nb;
    st, nl, nd, nb := Header(rd);
    if st != Ok {
      Refused(Fail, st, rd.Stream(), rd.Pos(), h);
      return;
    }
    st := DynamicRest(rd, win, nl, nd, nb);
  }

  method DynamicRest(rd: Reader, win: Window, nl: nat, nd: nat, nb: nat) returns (st: Status)
    requires rd.Valid() && win.Valid() && nb <= 19 && 1 <= nl <= 286 && 1 <= nd <= 30
    modifies rd, win`w, win`out, win.sum`crc, win.slide
    ensures rd.Valid() && win.Valid() && win.init == old(win.init) && rd.Pos() >= old(rd.Pos())
    ensures Agrees(DynamicData(rd.Stream(), old(rd.Pos()), nl, nd, nb, old(win.History())), st, rd.Stream(), rd.Pos(),
      win.History())
  {
    hide TwoTrees, Tree, BitsOf, LE, Behind, Accepted, LengthsAt, CodeLengths, Agrees, LengthsDone, KraftSum, Pow2,
      MaxLength,
         DynamicData, TableOK, Register;
    ghost var s, pos, h := rd.Stream(), rd.Pos(), win.History();
    DataIs(s, pos, nl, nd, nb, h);
    var ll := new nat[286 + 30];
    var ok := ReadCodeLengths(rd, ll, nb);
    if !ok {
      Refused(Fail, Halted, s, rd.Pos(), h);
      return Halted;
    }
    var cl := ll[..19];
    CodeLengthsSmall(s, pos, nb);
    LongestIn(cl, 7);
    var status, tl, bl := MakeTree(cl, 19, [], [], 7);
    if status != 0 {
      Refused(Fail, Error(status), s, rd.Pos(), h);
      return Error(status);
    }
    ghost var r := LengthsAt(cl, s, rd.Pos(), nl + nd, []);
    st := ReadLengths(rd, tl, bl, ll, nl + nd, cl);
    if st != Ok {
      LengthsStop(r, st, nl, s, rd.Pos(), ll[..nl + nd], h);
      return;
    }
    LengthsGiven(r, s, rd.Pos(), ll[..nl + nd]);
    st := TwoTreesBlock(rd, win, ll[..nl + nd], nl, nd);
    if r == OddLens {
      TwoTreesOdd(nl, s, h);
      Refused(Odd, st, s, rd.Pos(), win.History());
    }
  }

  lemma LengthsStop(r: Lengths, st: Status, nl: nat, s: Bits, pos: nat, l: seq<nat>, h: seq<Byte>)
    requires |h| >= WSIZE && (r.Lens? ==> r.pos <= |s| && nl <= |r.l|) && LengthsDone(r, st, s, pos, l) && st != Ok
    ensures Agrees(TwoTrees(r, nl, s, h), st, s, pos, h)
  {
    hide Codes, Accepted;
  }

  lemma TwoTreesOdd(nl: nat, s: Bits, h: seq<Byte>)
    requires |h| >= WSIZE
    ensures TwoTrees(OddLens, nl, s, h) == Odd
  {
  }

  /** What is left of a dynamic block once the code length code has been read. */
  lemma DataIs(s: Bits, pos: nat, nl: nat, nd: nat, nb: nat, h: seq<Byte>)
    requires pos <= |s| && |h| >= WSIZE && nb <= 19
    ensures pos + 3 * nb > |s| ==> DynamicData(s, pos, nl, nd, nb, h) == Fail
    ensures pos + 3 * nb <= |s| ==> var cl := CodeLengths(s, pos, nb);
      DynamicData(s, pos, nl, nd, nb, h) ==
        if !Accepted(cl) then Fail else TwoTrees(LengthsAt(cl, s, pos + 3 * nb, nl + nd, []), nl, s, h)
  {
    hide CodeLengths, TwoTrees, LengthsAt, Accepted;
  }

  lemma LengthsGiven(r: Lengths, s: Bits, pos: nat, l: seq<nat>)
    requires LengthsDone(r, Ok, s, pos, l)
    ensures r == Lens(pos, l) || r == OddLens
  {
  }

  /** The sizes of the trees (zBoot/inflate.c:580-595). */
  method Header(rd: Reader) returns (st: Status, nl: nat, nd: nat, nb: nat)
    requires rd.Valid()
    modifies rd
    ensures rd.Valid() && rd.Pos() >= old(rd.Pos())
    ensures st == Halted ==> old(rd.Pos()) + 14 > |rd.Stream()|
    ensures st != Halted ==> old(rd.Pos()) + 14 <= |rd.Stream()| && rd.Pos() == old(rd.Pos()) + 14 &&
                             nl == 257 + Num(rd.Stream(), old(rd.Pos()), 5)
                             && nd == 1 + Num(rd.Stream(), old(rd.Pos()) + 5, 5) &&
                             nb == 4 + Num(rd.Stream(), old(rd.Pos()) + 10, 4) && nb <= 19
    ensures st == Halted || st == (if nl > 286 || nd > 30 then Error(1) else Ok)
  {
    hide BitsOf, LE;
    nl, nd, nb := 0, 0, 0;
    Powers();
    hide Pow2;
    var ok;
    ok, nl := rd.Take(5);
    if !ok {
      return Halted, 0, 0, 0;
    }
    ok, nd := rd.Take(5);
    if !ok {
      return Halted, 0, 0, 0;
    }
    ok, nb := rd.Take(4);
    if !ok {
      return Halted, 0, 0, 0;
    }
    nl, nd, nb := 257 + nl, 1 + nd, 4 + nb;
    st := if nl > 286 || nd > 30 then Error(1) else Ok;
  }

  // ---- blocks and streams ----

  /** inflate_block (zBoot/inflate.c:728-771). */
  method InflateOne(rd: Reader, win: Window) returns (st: Status, last: bool)
    requires rd.Valid() && win.Valid()
    modifies rd, win`w, win`out, win.sum`crc, win.slide
    ensures rd.Valid() && win.Valid() && win.init == old(win.init) && (st == Ok ==> rd.Pos() > old(rd.Pos()))
    ensures Agrees(BlockAt(rd.Stream(), old(rd.Pos()), old(win.History())).r, st, rd.Stream(), rd.Pos(), win.History())
    ensures st == Ok ==> last == BlockAt(rd.Stream(), old(rd.Pos()), old(win.History())).last
  {
    hide BitsOf, LE, Behind, TableOK, Register, Num, Agrees, Codes, Stored, Dynamic, FixedLit, FixedDist;
    ghost var s, h := rd.Stream(), win.History();
    last := false;
    var ok, e := rd.Take(1);
    if !ok {
      Refused(Fail, Halted, s, rd.Pos(), h);
      return Halted, false;
    }
    last := e == 1;
    var t;
    ok, t := rd.Take(2);
    if !ok {
      Refused(Fail, Halted, s, rd.Pos(), h);
      return Halted, false;
    }
    if t == 2 {
      st := DynamicBlock(rd, win);
    } else if t == 0 {
      st := StoredBlock(rd, win);
    } else if t == 1 {
      st := FixedBlock(rd, win);
    } else {
      Refused(Fail, Error(2), s, rd.Pos(), h);
      st := Error(2);
    }
  }

  /** The rest of the stream means what the whole stream meant. */
  ghost predicate Onward(r: Result, s: Bits, pos: nat, h: seq<Byte>) {
    r == Odd || (pos <= |s| && |h| >= WSIZE && r == Inflated(s, pos, h))
  }

  lemma AfterBlock(r: Result, s: Bits, pos: nat, h: seq<Byte>, st: Status, last: bool, pos': nat, h': seq<Byte>)
    requires pos <= |s| && |h| >= WSIZE && Onward(r, s, pos, h) && Agrees(BlockAt(s, pos, h).r, st, s, pos', h')
    requires st == Ok ==> last == BlockAt(s, pos, h).last
    ensures st == Ok && !last ==> Onward(r, s, pos', h') || BlockAt(s, pos, h).r == Odd
    ensures BlockAt(s, pos, h).r == Odd ==> r == Odd
    ensures st == Ok && last ==> r == Odd || r == Done(pos', h')
    ensures st != Ok ==> Agrees(r, st, s, pos', h')
  {
    hide BlockAt;
  }

  /** What inflate makes of a whole input. */
  ghost predicate Right(r: Result, st: Status, s: Bits, used: nat, out: seq<Byte>, crc: Word) {
    match r
    case Odd => true
    case Fail => st.Error? || st == Halted
    case Done(p, h) =>
      || (st == Ok && used == (p + 7) / 8 && |h| >= WSIZE && out == h[WSIZE..] && crc == Crc32(out))
      || (st == Halted && |s| < p + 64)
  }

  /** inflate (zBoot/inflate.c:775-816) of `data`, and the byte behind it that fill_inbuf also hands out, through a
      window that holds anything: if the bytes are a deflated stream the output is what it stands for, with its CRC,
      and the input pointer is left at the first byte after it; if they are not, the inflater returns an error or
      runs out of input.  With the eight bytes of a trailer behind the stream it never runs out. */
  method Inflate(data: seq<Byte>, extra: Byte, buffer: array<Byte>)
    returns (st: Status, out: seq<Byte>, crc: Word, used: nat)
    requires buffer.Length == WSIZE
    modifies buffer
    ensures Right(Inflated(BitsOf(data + [extra]), 0, old(buffer[..])), st, BitsOf(data + [extra]), used, out, crc)
  {
    hide BitsOf, LE, Behind, TableOK, Register, Agrees, Inflated, Onward, BlockAt;
    ghost var s, r := BitsOf(data + [extra]), Inflated(BitsOf(data + [extra]), 0, buffer[..]);
    var rd := new Reader(data, extra);
    var win := new Window(buffer);
    out, crc, used := [], Zeros(WIDTH), 0;
    assert win.History() == old(buffer[..]);
    StreamStart(s, win.History());
    var last := false;
    while !last
      invariant rd.Valid() && win.Valid() && rd.input == data + [extra] && win.init == old(buffer[..])
      invariant win.slide == buffer && fresh(win) && fresh(win.sum) && fresh(rd)
      invariant !last ==> Onward(r, s, rd.Pos(), win.History())
      invariant last ==> r == Odd || r == Done(rd.Pos(), win.History())
      decreases !last, |s| - rd.Pos()
    {
      ghost var pos, h := rd.Pos(), win.History();
      st, last := InflateOne(rd, win);
      AfterBlock(r, s, pos, h, st, last, rd.Pos(), win.History());
      if r == Odd { OddStays(r, s, rd.Pos(), win.History()); }
      if st != Ok {
        NotRight(r, st, s, rd.Pos(), win.History(), used, out, crc);
        return;
      }
    }
    ghost var p, h := rd.Pos(), win.History();
    used := rd.GiveBack();
    win.Flush();
    out := win.out;
    crc := Xor(win.sum.crc, Ones());
    assert h == win.init + win.out;
    assert h[WSIZE..] == win.out;
    return Ok, out, crc, used;
  }

  lemma StreamStart(s: Bits, h: seq<Byte>)
    requires |h| >= WSIZE
    ensures Onward(Inflated(s, 0, h), s, 0, h)
  {
  }

  lemma OddStays(r: Result, s: Bits, pos: nat, h: seq<Byte>)
    requires r == Odd
    ensures Onward(r, s, pos, h)
  {
  }

  lemma NotRight(r: Result, st: Status, s: Bits, pos: nat, h: seq<Byte>, used: nat, out: seq<Byte>, crc: Word)
    requires Agrees(r, st, s, pos, h) && st != Ok
    ensures Right(r, st, s, used, out, crc)
  {
  }
}
