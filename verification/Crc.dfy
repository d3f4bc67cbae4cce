/** The CRC-32 of the inflated data (zBoot/misc.c:151-169, 232-263): a table of 256 words and one
    look-up for each byte, against the shift register of section 8 of RFC 1952 that takes in one bit
    at a time.  Words are written lowest bit first. */
module Crc {
  import opened BitStrings
  import opened Bytes

  const WIDTH := 32

  type Word = x: Bits | |x| == WIDTH witness Zeros(WIDTH)

  /** Terms of the polynomial, except x^32. */
  const POWERS := [0, 1, 2, 4, 5, 7, 8, 10, 11, 12, 16, 22, 23, 26]

  /** The polynomial: the coefficient of x^p is bit 31 - p. */
  function Poly(): Word {
    seq(WIDTH, i requires 0 <= i < WIDTH => 31 - i in POWERS)
  }

  /** The polynomial as the customary number, a byte at a time, and the register's first value. */
  lemma PolyIs()
    ensures LE(Poly()) == 0xedb8_8320
    ensures LE(Ones()) == 0xffff_ffff
  {
    var p := Poly();
    hide Poly, LE;
    Byte0();
    Byte1();
    Byte2();
    Byte3();
    FourBytes(p);
    OnesIs();
  }

  lemma OnesIs()
    ensures LE(Ones()) == 0xffff_ffff
  {
    var o := Ones();
    hide LE;
    Byte8(o[..8], 0xff);
    Byte8(o[8..16], 0xff);
    Byte8(o[16..24], 0xff);
    Byte8(o[24..], 0xff);
    FourBytes(o);
  }

  predicate Term(n: int) {
    n == 0 || n == 1 || n == 2 || n == 4 || n == 5 || n == 7 || n == 8 || n == 10 || n == 11 || n == 12 || n == 16
    || n == 22 || n == 23 || n == 26
  }

  lemma PolyBit(i: nat)
    requires i < WIDTH
    ensures Poly()[i] <==> Term(31 - i)
  {
    var n := 31 - i;
    assert POWERS[0] == 0 && POWERS[1] == 1 && POWERS[2] == 2 && POWERS[3] == 4 && POWERS[4] == 5 && POWERS[5] == 7
      && POWERS[6] == 8 && POWERS[7] == 10 && POWERS[8] == 11 && POWERS[9] == 12 && POWERS[10] == 16
      && POWERS[11] == 22 && POWERS[12] == 23 && POWERS[13] == 26;
  }

  /** Which terms byte k of the polynomial holds. */
  lemma PolyByte(k: nat)
    requires k < 4
    ensures var p := Poly()[8 * k..8 * k + 8]; forall i :: 0 <= i < 8 ==> (p[i] <==> Term(31 - 8 * k - i))
  {
    var p := Poly()[8 * k..8 * k + 8];
    forall i | 0 <= i < 8
      ensures p[i] <==> Term(31 - 8 * k - i)
    {
      PolyBit(8 * k + i);
    }
  }

  lemma Byte0()
    ensures LE(Poly()[..8]) == 0x20
  {
    PolyByte(0);
    hide Poly, LE, Term;
    Terms0(Poly()[..8]);
  }

  lemma Terms0(p: Bits)
    requires |p| == 8 && forall i :: 0 <= i < 8 ==> (p[i] <==> Term(31 - i))
    ensures LE(p) == 0x20
  {
    Byte8(p, 0x20);
  }

  lemma Byte1()
    ensures LE(Poly()[8..16]) == 0x83
  {
    PolyByte(1);
    hide Poly, LE, Term;
    Terms1(Poly()[8..16]);
  }

  lemma Terms1(p: Bits)
    requires |p| == 8 && forall i :: 0 <= i < 8 ==> (p[i] <==> Term(23 - i))
    ensures LE(p) == 0x83
  {
    Byte8(p, 0x83);
  }

  lemma Byte2()
    ensures LE(Poly()[16..24]) == 0xb8
  {
    PolyByte(2);
    hide Poly, LE, Term;
    Terms2(Poly()[16..24]);
  }

  lemma Terms2(p: Bits)
    requires |p| == 8 && forall i :: 0 <= i < 8 ==> (p[i] <==> Term(15 - i))
    ensures LE(p) == 0xb8
  {
    Byte8(p, 0xb8);
  }

  lemma Byte3()
    ensures LE(Poly()[24..]) == 0xed
  {
    PolyByte(3);
    hide Poly, LE, Term;
    Terms3(Poly()[24..]);
  }

  lemma Terms3(p: Bits)
    requires |p| == 8 && forall i :: 0 <= i < 8 ==> (p[i] <==> Term(7 - i))
    ensures LE(p) == 0xed
  {
    Byte8(p, 0xed);
  }

  function Bit(b: bool, v: nat): nat {
    if b then v else 0
  }

  lemma Byte8(p: Bits, b: nat)
    requires |p| == 8
    requires b == Bit(p[0], 1) + Bit(p[1], 2) + Bit(p[2], 4) + Bit(p[3], 8)
                  + Bit(p[4], 16) + Bit(p[5], 32) + Bit(p[6], 64) + Bit(p[7], 128)
    ensures LE(p) == b
  {
    var q := p[4..];
    Nibble(p[..4]);
    Nibble(q);
    LEConcat(p[..4], q);
    assert p == p[..4] + q;
    ShiftFour(LE(q));
  }

  lemma Nibble(p: Bits)
    requires |p| == 4
    ensures LE(p) == Bit(p[0], 1) + Bit(p[1], 2) + Bit(p[2], 4) + Bit(p[3], 8)
  {
    assert p[1..][1..] == p[2..] && p[2..][1..] == p[3..] && p[3..][1..] == [];
    assert LE(p[3..]) == Bit(p[3], 1);
    assert LE(p[2..]) == Bit(p[2], 1) + 2 * LE(p[3..]);
  }

  lemma FourBytes(p: Word)
    ensures LE(p) == LE(p[..8]) + 256 * (LE(p[8..16]) + 256 * (LE(p[16..24]) + 256 * LE(p[24..])))
  {
    hide LE, Shl;
    var a, b, c, d := p[..8], p[8..16], p[16..24], p[24..];
    assert p == a + (b + (c + d));
    LEConcat(c, d);
    LEConcat(b, c + d);
    LEConcat(a, b + (c + d));
    ShiftByte(LE(d));
    ShiftByte(LE(c + d));
    ShiftByte(LE(b + (c + d)));
  }

  lemma ShiftByte(i: nat)
    ensures Shl(i, 8) == 256 * i
  {
    ShiftFour(i);
    assert Shl(i, 8) == 2 * Shl(i, 7) && Shl(i, 7) == 2 * Shl(i, 6) && Shl(i, 6) == 2 * Shl(i, 5);
    assert Shl(i, 5) == 2 * Shl(i, 4);
  }

  lemma ShiftFour(i: nat)
    ensures Shl(i, 4) == 16 * i
  {
    assert Shl(i, 3) == 2 * Shl(i, 2) && Shl(i, 2) == 2 * Shl(i, 1) && Shl(i, 1) == 2 * Shl(i, 0);
  }

  function Xor(x: Word, y: Word): (z: Word)
    ensures forall i :: 0 <= i < WIDTH ==> z[i] == (x[i] != y[i])
  {
    seq(WIDTH, i requires 0 <= i < WIDTH => x[i] != y[i])
  }

  /** One shift of the register. */
  function Step(c: Word): Word {
    var r := c[1..] + [false];
    if c[0] then Xor(r, Poly()) else r
  }

  function Steps(c: Word, n: nat): Word
    decreases n
  {
    if n == 0 then c else Steps(Step(c), n - 1)
  }

  /** Shift in bits, the first one first. */
  function Serial(c: Word, bits: Bits): Word
    decreases |bits|
  {
    if bits == [] then c else Serial(Step(c[0 := c[0] != bits[0]]), bits[1..])
  }

  /** The register after a message. */
  function Register(c: Word, s: seq<Byte>): Word {
    Serial(c, BitsOf(s))
  }

  function Ones(): Word { seq(WIDTH, _ => true) }

  function Crc32(s: seq<Byte>): Word {
    Xor(Register(Ones(), s), Ones())
  }

  /** Up to 32 bits as a word. */
  function Pad(bits: Bits): Word
    requires |bits| <= WIDTH
  {
    bits + Zeros(WIDTH - |bits|)
  }

  // ---- the register is linear and loses nothing ----

  lemma StepLinear(x: Word, y: Word)
    ensures Step(Xor(x, y)) == Xor(Step(x), Step(y))
  {
    hide Poly;
    var a, b := Step(Xor(x, y)), Xor(Step(x), Step(y));
    assert forall i :: 0 <= i < WIDTH ==> a[i] == b[i];
  }

  lemma {:induction false} StepsLinear(x: Word, y: Word, n: nat)
    ensures Steps(Xor(x, y), n) == Xor(Steps(x, n), Steps(y, n))
    decreases n
  {
    hide Step, Xor;
    if n > 0 {
      StepLinear(x, y);
      StepsLinear(Step(x), Step(y), n - 1);
    }
  }

  /** The x^0 term sets the top bit, so the bit shifted out can be told from the result. */
  lemma StepInjective(x: Word, y: Word)
    requires Step(x) == Step(y)
    ensures x == y
  {
    assert Poly()[31];
    assert Step(x)[31] == x[0] && Step(y)[31] == y[0];
    hide Poly;
    forall i | 1 <= i < WIDTH
      ensures x[i] == y[i]
    {
      assert Step(x)[i - 1] == Step(y)[i - 1];
    }
    assert forall i :: 0 <= i < WIDTH ==> x[i] == y[i];
  }

  lemma {:induction false} StepsInjective(x: Word, y: Word, n: nat)
    requires Steps(x, n) == Steps(y, n)
    ensures x == y
    decreases n
  {
    hide Step;
    if n > 0 {
      StepsInjective(Step(x), Step(y), n - 1);
      StepInjective(x, y);
    }
  }

  /** A word whose low bits are clear is only shifted. */
  lemma {:induction false} StepsShift(z: nat, y: Bits)
    requires z + |y| <= WIDTH
    ensures Steps(Pad(Zeros(z) + y), z) == Pad(y)
    decreases z
  {
    if z == 0 {
      assert Zeros(0) + y == y;
    } else {
      var x := Pad(Zeros(z) + y);
      assert !x[0];
      assert Step(x) == Pad(Zeros(z - 1) + y);
      hide Step, Pad;
      StepsShift(z - 1, y);
    }
  }

  lemma StepPad(b: bool, rest: Bits)
    requires |rest| < WIDTH
    ensures Step(Pad([b] + rest)) == if b then Xor(Pad(rest), Poly()) else Pad(rest)
  {
    hide Poly;
    assert Pad([b] + rest)[1..] + [false] == Pad(rest);
  }

  /** Bits taken in one at a time could as well be added all at once. */
  lemma {:induction false} SerialIsSteps(c: Word, bits: Bits)
    requires |bits| <= WIDTH
    ensures Serial(c, bits) == Steps(Xor(c, Pad(bits)), |bits|)
    decreases |bits|
  {
    hide Poly;
    if bits == [] {
      assert Xor(c, Pad([])) == c;
    } else {
      var rest := bits[1..];
      var c' := c[0 := c[0] != bits[0]];
      var late := Pad([false] + rest);
      assert Xor(c, Pad(bits)) == Xor(c', late);
      StepPad(false, rest);
      StepLinear(c', late);
      hide Step, Xor, Pad;
      SerialIsSteps(Step(c'), rest);
    }
  }

  /** Eight shifts split into what the low byte does and what the rest does. */
  lemma LookUp(x: Word)
    ensures Steps(x, 8) == Xor(Steps(Pad(x[..8]), 8), Pad(x[8..]))
  {
    assert x == Xor(Pad(x[..8]), Pad(Zeros(8) + x[8..]));
    hide Step, Xor, Pad;
    StepsLinear(Pad(x[..8]), Pad(Zeros(8) + x[8..]), 8);
    StepsShift(8, x[8..]);
  }

  // ---- the table ----

  ghost predicate TableOK(t: seq<Word>) {
    |t| == 256 && forall i {:trigger t[i]} :: 0 <= i < 256 ==> t[i] == Steps(Pad(ToBits(i, 8)), 8)
  }

  /** makecrc (zBoot/misc.c:232-263): entry i is what eight shifts make of i. */
  method MakeCrc() returns (table: array<Word>)
    ensures fresh(table) && TableOK(table[..])
  {
    hide Steps, ToBits, Step, Pad;
    var e := Zeros(WIDTH);
    var n := 0;
    while n < |POWERS|
      invariant n <= |POWERS| && |e| == WIDTH
      invariant forall i :: 0 <= i < WIDTH ==> (e[i] <==> 31 - i in POWERS[..n])
    {
      assert POWERS[..n + 1] == POWERS[..n] + [POWERS[n]];
      e := e[31 - POWERS[n] := true];
      n := n + 1;
    }
    assert POWERS[..n] == POWERS;
    assert e == Poly();
    table := new Word[256](_ => Zeros(WIDTH));
    ZeroEntry();
    var i := 1;
    while i < 256
      invariant 1 <= i <= 256
      invariant forall j {:trigger table[j]} :: 0 <= j < i ==> table[j] == Steps(Pad(ToBits(j, 8)), 8)
    {
      table[i] := Entry(i, e);
      i := i + 1;
    }
    assert forall j {:trigger table[..][j]} :: 0 <= j < 256 ==> table[..][j] == table[j];
  }

  /** One entry (zBoot/misc.c:254-261); k marks the end of the byte with a one bit. */
  method Entry(i: Byte, e: Word) returns (c: Word)
    requires e == Poly()
    ensures c == Steps(Pad(ToBits(i, 8)), 8)
  {
    hide Steps, ToBits, Step, Pad, Poly;
    ghost var bits := ToBits(i, 8);
    ghost var t := 0;
    c := Zeros(WIDTH);
    var k := i + 256;
    Marked(i);
    StartEntry(bits, c);
    while k != 1
      invariant t <= 8 && k >= 1 && (k == 1 <==> t == 8) && MarkedBits(k, bits[t..])
      invariant Steps(Pad(bits), t) == Xor(c, Pad(bits[t..]))
      decreases 8 - t
    {
      assert bits[t..] == [bits[t]] + bits[t + 1..];
      EntryStep(bits, t, c, k);
      c := Step(c);
      if k % 2 == 1 {
        c := Xor(c, e);
      }
      k := k / 2;
      t := t + 1;
    }
    EndEntry(bits, c);
  }

  /** k holds these bits and a one above them. */
  ghost predicate MarkedBits(k: nat, bits: Bits) {
    k == LE(bits) + Pow2(|bits|)
  }

  lemma Marked(i: Byte)
    ensures MarkedBits(i + 256, ToBits(i, 8)[0..]) && |ToBits(i, 8)| == 8
  {
    BytePow();
    LEToBits(i, 8);
    assert ToBits(i, 8)[0..] == ToBits(i, 8);
  }

  lemma StartEntry(bits: Bits, c: Word)
    requires |bits| == 8 && c == Zeros(WIDTH)
    ensures Steps(Pad(bits), 0) == Xor(c, Pad(bits[0..]))
  {
    assert bits[0..] == bits;
    assert Xor(c, Pad(bits)) == Pad(bits);
  }

  lemma EntryStep(bits: Bits, t: nat, c: Word, k: nat)
    requires |bits| == 8 && t < 8 && Steps(Pad(bits), t) == Xor(c, Pad(bits[t..])) && MarkedBits(k, bits[t..])
    ensures (k % 2 == 1) == bits[t] && MarkedBits(k / 2, bits[t + 1..]) && k / 2 >= 1
    ensures k / 2 == 1 <==> t + 1 == 8
    ensures Steps(Pad(bits), t + 1) == Xor(if bits[t] then Xor(Step(c), Poly()) else Step(c), Pad(bits[t + 1..]))
  {
    hide Poly, Step, Xor, Pad;
    var now, rest := bits[t..], bits[t + 1..];
    assert now == [bits[t]] + rest && now[1..] == rest;
    StepsAfter(Pad(bits), t);
    StepLinear(c, Pad(now));
    StepPad(bits[t], rest);
    XorMoves(Step(c), Pad(rest), Poly());
    if t + 1 < 8 { MarkedBig(rest); } else { assert rest == []; }
  }

  lemma MarkedBig(bits: Bits)
    requires bits != []
    ensures LE(bits) + Pow2(|bits|) > 1
  {
  }

  lemma XorMoves(x: Word, y: Word, z: Word)
    ensures Xor(x, Xor(y, z)) == Xor(Xor(x, z), y)
  {
  }

  lemma {:induction false} StepsAfter(c: Word, n: nat)
    ensures Steps(c, n + 1) == Step(Steps(c, n))
    decreases n
  {
    hide Step;
    if n > 0 { StepsAfter(Step(c), n - 1); }
  }

  lemma EndEntry(bits: Bits, c: Word)
    requires |bits| == 8 && Steps(Pad(bits), 8) == Xor(c, Pad(bits[8..]))
    ensures c == Steps(Pad(bits), 8)
  {
    assert bits[8..] == [];
    assert Xor(c, Pad([])) == c;
  }

  lemma ZeroEntry()
    ensures Zeros(WIDTH) == Steps(Pad(ToBits(0, 8)), 8)
  {
    hide Step;
    LEToBits(0, 8) by { assert Pow2(8) > 0; }
    ZeroBits(ToBits(0, 8));
    assert Pad(ToBits(0, 8)) == Pad(Zeros(8) + []);
    StepsShift(8, []);
    assert Pad([]) == Zeros(WIDTH);
  }

  lemma {:induction false} ZeroBits(p: Bits)
    requires LE(p) == 0
    ensures p == Zeros(|p|)
  {
    if p != [] {
      ZeroBits(p[1..]);
      assert p == [p[0]] + p[1..];
    }
  }

  // ---- whole messages ----

  lemma {:induction false} SerialAppend(c: Word, a: Bits, b: Bits)
    ensures Serial(c, a + b) == Serial(Serial(c, a), b)
    decreases |a|
  {
    hide Step;
    if a == [] {
      assert a + b == b;
    } else {
      assert (a + b)[1..] == a[1..] + b;
      SerialAppend(Step(c[0 := c[0] != a[0]]), a[1..], b);
    }
  }

  lemma ByteSerial(c: Word, b: Byte)
    ensures var x := Xor(c, Pad(ToBits(b, 8)));
            Serial(c, ToBits(b, 8)) == Xor(Steps(Pad(x[..8]), 8), Pad(x[8..])) && x[8..] == c[8..]
  {
    SerialIsSteps(c, ToBits(b, 8));
    LookUp(Xor(c, Pad(ToBits(b, 8))));
    hide Steps, Serial;
  }

  lemma TableAt(t: seq<Word>, p: Bits)
    requires TableOK(t) && |p| == 8
    ensures LE(p) < |t| && t[LE(p)] == Steps(Pad(p), 8)
  {
    hide Steps, Pad;
    LEBound(p);
    BytePow();
    ToBitsLE(p);
  }

  class Checksum {
    var table: array<Word>
    var crc: Word

    ghost predicate Valid()
      reads this, table
    {
      TableOK(table[..])
    }

    constructor ()
      ensures Valid() && fresh(table) && crc == Ones()
    {
      var t := MakeCrc();
      table := t;
      crc := Ones();
    }

    /** updcrc (zBoot/misc.c:151-169) on a string of bytes: the register moves as if it had taken them in bit
        by bit, and its complement is returned. */
    method UpdCrc(s: seq<Byte>) returns (r: Word)
      requires Valid()
      modifies this`crc
      ensures Valid() && crc == Register(old(crc), s) && r == Xor(crc, Ones())
    {
      hide Steps, Serial, Pad, Poly, ToBits, TableOK, BitsOf;
      var c := crc;
      var i := 0;
      Nothing(c, s);
      while i < |s|
        invariant i <= |s| && c == Serial(old(crc), BitsOf(s[..i])) && Valid()
      {
        var x := Xor(c, Pad(ToBits(s[i], 8)));
        TableAt(table[..], x[..8]);
        ByteSerial(c, s[i]);
        OneMore(old(crc), s, i);
        c := Xor(table[LE(x[..8])], Pad(c[8..]));
        i := i + 1;
      }
      assert s[..i] == s;
      crc := c;
      r := Xor(c, Ones());
    }
  }

  lemma Nothing(c: Word, s: seq<Byte>)
    ensures c == Serial(c, BitsOf(s[..0]))
  {
  }

  lemma OneMore(c: Word, s: seq<Byte>, i: nat)
    requires i < |s|
    ensures Serial(c, BitsOf(s[..i + 1])) == Serial(Serial(c, BitsOf(s[..i])), ToBits(s[i], 8))
  {
    hide Serial;
    assert s[..i + 1][..i] == s[..i];
    SerialAppend(c, BitsOf(s[..i]), ToBits(s[i], 8));
  }

  /** Two registers never meet again while they take in the same bits. */
  lemma {:induction false} SerialInjective(c: Word, c': Word, bits: Bits)
    requires Serial(c, bits) == Serial(c', bits)
    ensures c == c'
    decreases |bits|
  {
    hide Step;
    if bits != [] {
      var d, d' := c[0 := c[0] != bits[0]], c'[0 := c'[0] != bits[0]];
      SerialInjective(Step(d), Step(d'), bits[1..]);
      StepInjective(d, d');
      assert forall i :: 0 <= i < WIDTH ==> c[i] == c'[i] by {
        forall i | 0 <= i < WIDTH ensures c[i] == c'[i] { assert d[i] == d'[i]; }
      }
    }
  }

  lemma {:induction false} BurstSerial(c: Word, a: Bits, w: Bits, w': Bits, b: Bits)
    requires |w| == |w'| <= WIDTH && w != w'
    ensures Serial(c, a + w + b) != Serial(c, a + w' + b)
  {
    hide Serial, Steps, Step;
    var m := Serial(c, a);
    SerialAppend(c, a + w, b);
    SerialAppend(c, a, w);
    SerialAppend(c, a + w', b);
    SerialAppend(c, a, w');
    if Serial(c, a + w + b) == Serial(c, a + w' + b) {
      SerialInjective(Serial(m, w), Serial(m, w'), b);
      SerialIsSteps(m, w);
      SerialIsSteps(m, w');
      StepsInjective(Xor(m, Pad(w)), Xor(m, Pad(w')), |w|);
      PadInjective(m, w, w');
    }
  }

  lemma PadInjective(m: Word, w: Bits, w': Bits)
    requires |w| == |w'| <= WIDTH && Xor(m, Pad(w)) == Xor(m, Pad(w'))
    ensures w == w'
  {
    forall i | 0 <= i < |w|
      ensures w[i] == w'[i]
    {
      assert Xor(m, Pad(w))[i] == (m[i] != w[i]) && Xor(m, Pad(w'))[i] == (m[i] != w'[i]);
    }
  }

  lemma {:induction false} BurstAt(c: Word, x: Bits, y: Bits, k: nat)
    requires |x| == |y| && x != y && k + WIDTH <= |x|
    requires forall i :: 0 <= i < |x| && !(k <= i < k + WIDTH) ==> x[i] == y[i]
    ensures Serial(c, x) != Serial(c, y)
  {
    hide *;
    var w, w' := x[k..k + WIDTH], y[k..k + WIDTH];
    assert x[..k] == y[..k] && x[k + WIDTH..] == y[k + WIDTH..];
    assert x == x[..k] + w + x[k + WIDTH..] && y == x[..k] + w' + x[k + WIDTH..];
    BurstSerial(c, x[..k], w, w', x[k + WIDTH..]);
  }

  /** Damage that lies within 32 consecutive bits is always noticed. */
  lemma {:induction false} BurstDetected(s: seq<Byte>, s': seq<Byte>, k: nat)
    requires |s| == |s'| && s != s' && k + WIDTH <= 8 * |s|
    requires forall i :: 0 <= i < 8 * |s| && !(k <= i < k + WIDTH) ==> BitsOf(s)[i] == BitsOf(s')[i]
    ensures Crc32(s) != Crc32(s')
  {
    hide Serial, BitsOf;
    var x, y := BitsOf(s), BitsOf(s');
    if x == y { BitsOfInjective(s, s'); }
    BurstAt(Ones(), x, y, k);
    hide Ones, Xor;
    if Crc32(s) == Crc32(s') { XorBack(Register(Ones(), s), Register(Ones(), s'), Ones()); }
  }

  lemma XorBack(x: Word, y: Word, z: Word)
    requires Xor(x, z) == Xor(y, z)
    ensures x == y
  {
    forall i | 0 <= i < WIDTH
      ensures x[i] == y[i]
    {
      assert Xor(x, z)[i] == (x[i] != z[i]) && Xor(y, z)[i] == (y[i] != z[i]);
    }
  }
}
