/** The file allocation table on disk (fs/msdos/fat.c:19-102): entries of 12 or 16 bits packed into sectors,
    kept in several copies. */
module FatTable {
  import opened Bytes

  const SECTOR_SIZE := 512
  const EOF := -1

  type Sector = s: seq<Byte> | |s| == SECTOR_SIZE witness seq(SECTOR_SIZE, _ => 0)

  /** One copy of the table. */
  type Table = seq<Sector>

  function ByteAt(t: Table, i: nat): Byte
    requires i / SECTOR_SIZE < |t|
  {
    t[i / SECTOR_SIZE][i % SECTOR_SIZE]
  }

  function SetByte(t: Table, i: nat, v: Byte): (t': Table)
    requires i / SECTOR_SIZE < |t|
    ensures |t'| == |t|
  {
    t[i / SECTOR_SIZE := t[i / SECTOR_SIZE][i % SECTOR_SIZE := v]]
  }

  lemma ByteSet(t: Table, i: nat, v: Byte, j: nat)
    requires i / SECTOR_SIZE < |t| && j / SECTOR_SIZE < |t|
    ensures ByteAt(SetByte(t, i, v), j) == if i == j then v else ByteAt(t, j)
  {
  }

  /** The first of the two bytes an entry lies in. */
  function First(bits: nat, nr: nat): nat {
    if bits == 16 then nr * 2 else nr * 3 / 2
  }

  /** Both bytes are in the table. */
  predicate InTable(t: Table, bits: nat, nr: nat) {
    (First(bits, nr) + 1) / SECTOR_SIZE < |t|
  }

  lemma BothIn(t: Table, bits: nat, nr: nat)
    requires InTable(t, bits, nr)
    ensures First(bits, nr) / SECTOR_SIZE < |t|
  {
  }

  /** Bytes in a row as a number, lowest first. */
  function Number(t: Table, i: nat, n: nat): nat
    requires n == 0 || (i + n - 1) / SECTOR_SIZE < |t|
    decreases n
  {
    if n == 0 then 0 else ByteAt(t, i) + 256 * Number(t, i + 1, n - 1)
  }

  /** What two bytes say about an entry. */
  function Unpack(bits: nat, odd: bool, b0: Byte, b1: Byte): nat {
    if bits == 16 then b0 + 256 * b1
    else if odd then b0 / 16 + b1 * 16
    else b0 + b1 % 16 * 256
  }

  /** The stored value of an entry. */
  function Raw(t: Table, bits: nat, nr: nat): nat
    requires InTable(t, bits, nr)
  {
    BothIn(t, bits, nr);
    Unpack(bits, nr % 2 == 1, ByteAt(t, First(bits, nr)), ByteAt(t, First(bits, nr) + 1))
  }

  /** Two 12-bit entries are three bytes, read as one number; a 16-bit entry is two. */
  lemma Packed(t: Table, q: nat)
    ensures InTable(t, 16, q) ==> Raw(t, 16, q) == Number(t, 2 * q, 2)
    ensures InTable(t, 12, 2 * q + 1) ==>
      && InTable(t, 12, 2 * q) && Raw(t, 12, 2 * q) < 0x1000
      && Raw(t, 12, 2 * q) + 0x1000 * Raw(t, 12, 2 * q + 1) == Number(t, 3 * q, 3)
  {
    hide ByteAt;
    if InTable(t, 16, q) {
      assert Number(t, 2 * q, 2) == ByteAt(t, 2 * q) + 256 * (ByteAt(t, 2 * q + 1) + 256 * 0);
    }
    if InTable(t, 12, 2 * q + 1) {
      ThreeBytes(t, q);
      EntryPair(t, q);
      TwoEntries(ByteAt(t, 3 * q), ByteAt(t, 3 * q + 1), ByteAt(t, 3 * q + 2));
    }
  }

  lemma ThreeBytes(t: Table, q: nat)
    requires InTable(t, 12, 2 * q + 1)
    ensures First(12, 2 * q) == 3 * q && First(12, 2 * q + 1) == 3 * q + 1 && (3 * q + 2) / SECTOR_SIZE < |t|
    ensures Number(t, 3 * q, 3) == ByteAt(t, 3 * q) + 256 * (ByteAt(t, 3 * q + 1) + 256 * ByteAt(t, 3 * q + 2))
  {
    assert (2 * q + 1) * 3 / 2 == 3 * q + 1 && 2 * q * 3 / 2 == 3 * q;
    hide ByteAt;
    assert Number(t, 3 * q + 2, 1) == ByteAt(t, 3 * q + 2) + 256 * 0;
    assert Number(t, 3 * q + 1, 2) == ByteAt(t, 3 * q + 1) + 256 * Number(t, 3 * q + 2, 1);
  }

  lemma EntryPair(t: Table, q: nat)
    requires InTable(t, 12, 2 * q + 1) && (3 * q + 2) / SECTOR_SIZE < |t|
    requires First(12, 2 * q) == 3 * q && First(12, 2 * q + 1) == 3 * q + 1
    ensures InTable(t, 12, 2 * q)
    ensures Raw(t, 12, 2 * q) == Unpack(12, false, ByteAt(t, 3 * q), ByteAt(t, 3 * q + 1))
    ensures Raw(t, 12, 2 * q + 1) == Unpack(12, true, ByteAt(t, 3 * q + 1), ByteAt(t, 3 * q + 2))
  {
    hide ByteAt, Unpack, First;
    assert (2 * q) % 2 == 0 && (2 * q + 1) % 2 == 1;
  }

  lemma TwoEntries(b0: Byte, b1: Byte, b2: Byte)
    ensures Unpack(12, false, b0, b1) < 0x1000
    ensures Unpack(12, false, b0, b1) + 0x1000 * Unpack(12, true, b1, b2) == b0 + 256 * (b1 + 256 * b2)
  {
    assert b1 == 16 * (b1 / 16) + b1 % 16;
  }

  /** The value fat_access returns: everything from 0xff7 (0xfff7) on is an end of file. */
  function Value(bits: nat, raw: nat): int {
    if raw >= (if bits == 16 then 0xfff7 else 0xff7) then EOF else raw
  }

  /** The marks in use for an end of file are 0xff8 and on, and the one for a bad cluster, 0xff7, reads as an end too;
      every smaller number is a link or, if 0, a free cluster. */
  lemma EndMarks(raw: nat)
    ensures Value(12, raw) == (if raw <= 0xff6 then raw else -1)
    ensures Value(16, raw) == (if raw <= 0xfff6 then raw else -1)
  {
  }

  function Entry(t: Table, bits: nat, nr: nat): int
    requires InTable(t, bits, nr)
  {
    Value(bits, Raw(t, bits, nr))
  }

  /** The two bytes with a new value in them; the other entry's half byte stays (fs/msdos/fat.c:64-75). */
  function Pack(bits: nat, odd: bool, b0: Byte, b1: Byte, v: nat): (Byte, Byte)
    requires v < if bits == 16 then 0x1_0000 else 0x1000
  {
    if bits == 16 then (v % 256, v / 256)
    else if odd then (b0 % 16 + v * 16 % 256, v / 16 % 256)
    else (v % 256, b1 / 16 * 16 + v / 256)
  }

  lemma Unpacked(bits: nat, odd: bool, b0: Byte, b1: Byte, v: nat)
    requires v < if bits == 16 then 0x1_0000 else 0x1000
    ensures Unpack(bits, odd, Pack(bits, odd, b0, b1, v).0, Pack(bits, odd, b0, b1, v).1) == v
    ensures bits != 16 && odd ==> Pack(bits, odd, b0, b1, v).0 % 16 == b0 % 16
    ensures bits != 16 && !odd ==> Pack(bits, odd, b0, b1, v).1 / 16 == b1 / 16
  {
    if bits != 16 && odd {
      OddBytes(b0 % 16, v);
    } else if bits != 16 {
      EvenBytes(b1 / 16, v);
    }
  }

  lemma OddBytes(low: nat, v: nat)
    requires low < 16 && v < 0x1000
    ensures v / 16 < 256 && (low + v * 16 % 256) / 16 == v % 16 && (low + v * 16 % 256) % 16 == low
    ensures v % 16 + v / 16 % 256 * 16 == v
  {
    assert v * 16 % 256 == v % 16 * 16 by {
      assert v * 16 == v / 16 * 256 + v % 16 * 16;
    }
  }

  lemma EvenBytes(high: nat, v: nat)
    requires high < 16 && v < 0x1000
    ensures v / 256 < 16 && (high * 16 + v / 256) / 16 == high && (high * 16 + v / 256) % 16 == v / 256
    ensures v % 256 + v / 256 * 256 == v
  {
  }

  function Write(t: Table, bits: nat, nr: nat, v: nat): (t': Table)
    requires InTable(t, bits, nr) && v < if bits == 16 then 0x1_0000 else 0x1000
    ensures |t'| == |t|
  {
    BothIn(t, bits, nr);
    var f := First(bits, nr);
    var p := Pack(bits, nr % 2 == 1, ByteAt(t, f), ByteAt(t, f + 1), v);
    SetByte(SetByte(t, f, p.0), f + 1, p.1)
  }

  /** Where two entries lie: apart, or 12-bit neighbours that share a byte. */
  lemma Places(bits: nat, nr: nat, m: nat)
    requires nr != m
    ensures First(bits, m) != First(bits, nr)
    ensures First(bits, m) + 1 == First(bits, nr) ==> bits != 16 && m + 1 == nr && nr % 2 == 1
    ensures First(bits, nr) + 1 == First(bits, m) ==> bits != 16 && nr + 1 == m && m % 2 == 1
  {
    if bits != 16 {
      var q, p := nr / 2, m / 2;
      assert nr * 3 / 2 == 3 * q + nr % 2;
      assert m * 3 / 2 == 3 * p + m % 2;
    }
  }

  /** Writing an entry changes that entry and no other, wherever the sectors begin. */
  lemma WriteEntry(t: Table, bits: nat, nr: nat, v: nat, m: nat)
    requires InTable(t, bits, nr) && InTable(t, bits, m) && v < if bits == 16 then 0x1_0000 else 0x1000
    ensures Raw(Write(t, bits, nr, v), bits, m) == if m == nr then v else Raw(t, bits, m)
  {
    hide ByteAt, SetByte, First, Pack, Unpack;
    BothIn(t, bits, nr);
    BothIn(t, bits, m);
    var f, g := First(bits, nr), First(bits, m);
    var b0, b1 := ByteAt(t, f), ByteAt(t, f + 1);
    var odd := nr % 2 == 1;
    var p := Pack(bits, odd, b0, b1, v);
    ByteSet(t, f, p.0, g);
    ByteSet(t, f, p.0, g + 1);
    var t1 := SetByte(t, f, p.0);
    ByteSet(t1, f + 1, p.1, g);
    ByteSet(t1, f + 1, p.1, g + 1);
    Unpacked(bits, odd, b0, b1, v);
    if m != nr {
      Places(bits, nr, m);
      SharedHalf(bits, m % 2 == 1, ByteAt(t, g), ByteAt(t, g + 1), p.0, p.1);
    }
  }

  /** An entry does not depend on its neighbour's half of the byte they share. */
  lemma SharedHalf(bits: nat, odd: bool, b0: Byte, b1: Byte, low: Byte, high: Byte)
    ensures bits != 16 && !odd && low % 16 == b1 % 16 ==> Unpack(bits, odd, b0, low) == Unpack(bits, odd, b0, b1)
    ensures bits != 16 && odd && high / 16 == b0 / 16 ==> Unpack(bits, odd, high, b1) == Unpack(bits, odd, b0, b1)
  {
  }

  /** All entries of a table with `clusters` clusters; the first two are not clusters. */
  function Entries(t: Table, bits: nat, clusters: nat): (s: seq<int>)
    requires InTable(t, bits, clusters + 1)
    ensures |s| == clusters + 2
  {
    seq(clusters + 2, nr requires 0 <= nr < clusters + 2 => InOrder(t, bits, nr, clusters + 1); Entry(t, bits, nr))
  }

  lemma InOrder(t: Table, bits: nat, nr: nat, last: nat)
    requires InTable(t, bits, last) && nr <= last
    ensures InTable(t, bits, nr)
  {
  }

  /** So on the table as a whole, a write is the update of one element. */
  lemma WriteIsUpdate(t: Table, bits: nat, clusters: nat, nr: nat, v: nat)
    requires InTable(t, bits, clusters + 1) && nr < clusters + 2 && v < if bits == 16 then 0x1_0000 else 0x1000
    ensures InTable(t, bits, nr)
    ensures Entries(Write(t, bits, nr, v), bits, clusters) == Entries(t, bits, clusters)[nr := Value(bits, v)]
  {
    hide Write, Raw;
    InOrder(t, bits, nr, clusters + 1);
    var a, b := Entries(Write(t, bits, nr, v), bits, clusters), Entries(t, bits, clusters)[nr := Value(bits, v)];
    forall m | 0 <= m < clusters + 2
      ensures a[m] == b[m]
    {
      InOrder(t, bits, m, clusters + 1);
      WriteEntry(t, bits, nr, v, m);
    }
  }

  /** What fat_access reads of entry nr: there is none outside the clusters. */
  function Get(view: seq<int>, nr: int): int {
    if 2 <= nr < |view| then view[nr] else 0
  }

  function Put(view: seq<int>, nr: int, v: int): (view': seq<int>)
    ensures |view'| == |view|
  {
    if 2 <= nr < |view| then view[nr := v] else view
  }

  class Fat {
    const bits: nat
    const clusters: nat
    /** Sectors in each copy (fat_length). */
    const length: nat
    /** The copies of the table; the first one is used. */
    var copies: seq<Table>

    ghost predicate Valid()
      reads this
    {
      && (bits == 12 || bits == 16) && |copies| >= 1
      && forall c :: 0 <= c < |copies| ==> Fits(copies[c])
    }

    predicate Fits(t: Table) {
      |t| == length && InTable(t, bits, clusters + 1)
    }

    /** The table as a sequence of links. */
    ghost function View(): (v: seq<int>)
      requires Valid()
      reads this
      ensures |v| == clusters + 2
    {
      Entries(copies[0], bits, clusters)
    }

    ghost predicate Mirrored()
      reads this
    {
      forall c, d :: 0 <= c < d < |copies| ==> copies[c] == copies[d]
    }

    /** fat_access (fs/msdos/fat.c:19-102), without I/O errors: the entry's value as it was; a new value is
        stored in the first copy, and the sectors it touched are copied to the others. */
    method Access(nr: int, newValue: int) returns (next: int)
      requires Valid() && -1 <= newValue < if bits == 16 then 0x1_0000 else 0x1000
      modifies this
      ensures Valid() && |copies| == |old(copies)|
      ensures next == Get(old(View()), nr)
      ensures newValue == -1 ==> copies == old(copies)
      ensures newValue != -1 ==> View() == Put(old(View()), nr, Value(bits, newValue))
      ensures old(Mirrored()) ==> Mirrored()
    {
      hide Pack, Unpack, Entries, Value, Write, InTable, SetByte, ByteAt, First;
      if nr < 2 || nr - 2 >= clusters {
        return 0;
      }
      var t := copies[0];
      assert Fits(t);
      InOrder(t, bits, nr, clusters + 1);
      BothIn(t, bits, nr);
      EntryIn(t, bits, clusters, nr);
      next := Read(t, bits, nr);
      if newValue != -1 {
        WriteIsUpdate(t, bits, clusters, nr, newValue);
        WriteFits(t, bits, nr, newValue, clusters + 1);
        var first := First(bits, nr);
        var t' := Store(t, bits, nr, newValue);
        assert Fits(t');
        copies := copies[0 := t'];
        Mirror(first / SECTOR_SIZE, (first + 1) / SECTOR_SIZE, t);
      }
    }

    /** The sectors are copied over those of the other copies (fs/msdos/fat.c:79-97). */
    method Mirror(s0: nat, s1: nat, ghost was: Table)
      requires Valid() && s0 < |copies[0]| == |was| && s1 < |was|
      requires copies[0] == was[s0 := copies[0][s0]][s1 := copies[0][s1]]
      modifies this
      ensures Valid() && |copies| == |old(copies)| && copies[0] == old(copies[0])
      ensures (forall c :: 1 <= c < |copies| ==> old(copies[c]) == was) ==> Mirrored()
    {
      hide InTable;
      var t := copies[0];
      var c := 1;
      while c < |copies|
        invariant 1 <= c <= |copies| == |old(copies)| && Valid() && copies[0] == t
        invariant forall d :: c <= d < |copies| ==> copies[d] == old(copies)[d]
        invariant forall d :: 1 <= d < c && old(copies)[d] == was ==> copies[d] == t
      {
        assert Fits(copies[c]) && Fits(t);
        var u := copies[c][s0 := t[s0]][s1 := t[s1]];
        assert Fits(u) by {
          SameSize(copies[c], u, bits, clusters + 1);
        }
        copies := copies[c := u];
        c := c + 1;
      }
    }
  }

  lemma SameSize(t: Table, u: Table, bits: nat, nr: nat)
    requires InTable(t, bits, nr) && |t| == |u|
    ensures InTable(u, bits, nr)
  {
  }

  lemma WriteFits(t: Table, bits: nat, nr: nat, v: nat, last: nat)
    requires InTable(t, bits, last) && InTable(t, bits, nr) && v < if bits == 16 then 0x1_0000 else 0x1000
    ensures InTable(Write(t, bits, nr, v), bits, last)
  {
  }

  /** Reads an entry from its one or two sectors (fs/msdos/fat.c:27-62). */
  method Read(t: Table, bits: nat, nr: nat) returns (next: int)
    requires InTable(t, bits, nr)
    ensures next == Entry(t, bits, nr)
  {
    hide Unpack, Value;
    BothIn(t, bits, nr);
    var first := First(bits, nr);
    var last := first + 1;
    var data, data2 := t[first / SECTOR_SIZE], t[last / SECTOR_SIZE];
    next := Value(bits, Unpack(bits, nr % 2 == 1, data[first % SECTOR_SIZE], data2[last % SECTOR_SIZE]));
  }

  /** Stores an entry in its one or two sectors (fs/msdos/fat.c:63-78). */
  method Store(t: Table, bits: nat, nr: nat, v: nat) returns (t': Table)
    requires InTable(t, bits, nr) && v < if bits == 16 then 0x1_0000 else 0x1000
    ensures t' == Write(t, bits, nr, v)
    ensures First(bits, nr) / SECTOR_SIZE < |t| && (First(bits, nr) + 1) / SECTOR_SIZE < |t|
    ensures var s0 := First(bits, nr) / SECTOR_SIZE; var s1 := (First(bits, nr) + 1) / SECTOR_SIZE;
      t' == t[s0 := t'[s0]][s1 := t'[s1]]
  {
    hide Pack, First;
    BothIn(t, bits, nr);
    var first := First(bits, nr);
    assert (first + 1) / SECTOR_SIZE < |t|;
    var p := Pack(bits, nr % 2 == 1, ByteAt(t, first), ByteAt(t, first + 1), v);
    t' := SetByte(SetByte(t, first, p.0), first + 1, p.1);
    Elsewhere(t, t', first, p.0, p.1);
  }

  lemma EntryIn(t: Table, bits: nat, clusters: nat, nr: nat)
    requires InTable(t, bits, clusters + 1) && nr < clusters + 2
    ensures InTable(t, bits, nr) && Entries(t, bits, clusters)[nr] == Entry(t, bits, nr)
  {
    InOrder(t, bits, nr, clusters + 1);
  }

  /** Only the entry's sectors changed. */
  lemma Elsewhere(t: Table, t': Table, f: nat, x: Byte, y: Byte)
    requires (f + 1) / SECTOR_SIZE < |t| && f / SECTOR_SIZE < |t| && t' == SetByte(SetByte(t, f, x), f + 1, y)
    ensures t' == t[f / SECTOR_SIZE := t'[f / SECTOR_SIZE]][(f + 1) / SECTOR_SIZE := t'[(f + 1) / SECTOR_SIZE]]
  {
  }
}
