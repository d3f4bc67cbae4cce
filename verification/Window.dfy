/** The sliding window (zBoot/inflate.c:371-376, 404-424; zBoot/misc.c:213-223): inflated bytes go round a
    buffer of 32K, and matches are copied inside it in pieces.  The history is what the window held at
    the start, followed by everything written since; a match of any distance up to 32K copies from it. */
module Window {
  import opened Bytes
  import opened Crc

  const WSIZE := 32768

  /** Append n bytes, each the one `dist` bytes back (section 3.2.3 of RFC 1951). */
  function CopyBytes(h: seq<Byte>, dist: nat, n: nat): (r: seq<Byte>)
    requires 1 <= dist <= |h|
    ensures |r| == |h| + n
    decreases n
  {
    if n == 0 then h else CopyBytes(h + [h[|h| - dist]], dist, n - 1)
  }

  lemma {:induction false} CopyMore(h: seq<Byte>, dist: nat, m: nat, n: nat)
    requires 1 <= dist <= |h|
    ensures CopyBytes(h, dist, m + n) == CopyBytes(CopyBytes(h, dist, m), dist, n)
    decreases m
  {
    if m > 0 { CopyMore(h + [h[|h| - dist]], dist, m - 1, n); }
  }

  /** A piece no longer than the distance is there already. */
  lemma {:induction false} CopyApart(h: seq<Byte>, dist: nat, n: nat)
    requires 1 <= dist <= |h| && n <= dist
    ensures CopyBytes(h, dist, n) == h + h[|h| - dist..|h| - dist + n]
    decreases n
  {
    if n == 0 {
    } else {
      CopyApart(h, dist, n - 1);
      CopyMore(h, dist, n - 1, 1);
      var g := CopyBytes(h, dist, n - 1);
      assert CopyBytes(g, dist, 1) == g + [g[|g| - dist]];
      assert h[|h| - dist..|h| - dist + n] == h[|h| - dist..|h| - dist + n - 1] + [h[|h| - dist + n - 1]];
    }
  }

  /** The cells from w on still hold the end of what was there before the last round. */
  ghost predicate Behind(slide: seq<Byte>, w: nat, past: seq<Byte>) {
    |slide| == WSIZE <= |past| && w <= WSIZE && forall x :: w <= x < WSIZE ==> slide[x] == past[|past| - WSIZE + x]
  }

  /** Cell d lies `dist` behind cell w, going round. */
  predicate Back(w: nat, dist: nat, d: nat) {
    w < WSIZE && d < WSIZE && 1 <= dist <= WSIZE && (d == w - dist || d == w + WSIZE - dist)
  }

  /** The cell `dist` behind cell w, going round. */
  lemma SourceCell(slide: seq<Byte>, w: nat, past: seq<Byte>, dist: nat, d: nat)
    requires Behind(slide, w, past) && Back(w, dist, d)
    ensures var h := past + slide[..w]; slide[d] == h[|h| - dist]
  {
  }

  class Window {
    const slide: array<Byte>
    const sum: Checksum
    var w: nat
    var out: seq<Byte>
    ghost var init: seq<Byte>

    ghost predicate Good()
      reads this, slide, sum, sum.table
    {
      && slide.Length == WSIZE && |init| == WSIZE && Behind(slide[..], w, init + out)
      && sum.Valid() && sum.crc == Register(Ones(), out)
    }

    ghost predicate Valid()
      reads this, slide, sum, sum.table
    {
      Good() && w < WSIZE
    }

    ghost function History(): seq<Byte>
      reads this, slide
      requires w <= slide.Length
    {
      init + out + slide[..w]
    }

    /** inflate starts with an empty window over whatever the buffer holds. */
    constructor (buffer: array<Byte>)
      requires buffer.Length == WSIZE
      ensures Valid() && slide == buffer && init == buffer[..] && out == [] && w == 0 && fresh(sum) && fresh(sum.table)
    {
      slide := buffer;
      sum := new Checksum();
      w := 0;
      out := [];
      init := buffer[..];
      new;
      NothingYet();
    }

    /** flush_window (zBoot/misc.c:213-223): the bytes go to the output and into the CRC. */
    method Flush()
      requires Good()
      modifies this`w, this`out, sum`crc
      ensures w == 0 && out == old(out) + slide[..old(w)] && sum.Valid() && sum.crc == Register(Ones(), out)
      ensures old(w) == WSIZE ==> Good() && History() == old(History())
    {
      assert w <= WSIZE;
      hide Register, Behind;
      if w == 0 {
        assert slide[..0] == [];
        return;
      }
      var piece := slide[..w];
      var r := sum.UpdCrc(piece);
      RegisterMore(Ones(), out, piece);
      assert init + (out + piece) == init + out + piece;
      if w == WSIZE {
        assert piece == slide[..];
        Flushed(piece, init + out);
      }
      out := out + piece;
      w := 0;
      assert slide[..0] == [];
    }

    /** A literal (zBoot/inflate.c:371-376). */
    method Put(b: Byte)
      requires Valid()
      modifies this`w, this`out, sum`crc, slide
      ensures Valid() && History() == old(History()) + [b] && init == old(init)
    {
      hide Register;
      ghost var h := History();
      slide[w] := b;
      w := w + 1;
      assert slide[..w] == old(slide[..w]) + [b];
      assert History() == h + [b];
      if w == WSIZE {
        Flush();
      }
    }

    /** The copy of a match (zBoot/inflate.c:401-424): the history grows as if one byte after the other had
        been copied from `dist` bytes back. */
    method Copy(length: nat, dist: nat)
      requires Valid() && 1 <= length && 1 <= dist <= WSIZE
      modifies this`w, this`out, sum`crc, slide
      ensures Valid() && History() == CopyBytes(old(History()), dist, length) && init == old(init)
    {
      hide Register, Behind, CopyBytes;
      var d: nat := (w + WSIZE - dist) % WSIZE;
      var n := length;
      ghost var h0 := History();
      while true
        invariant Valid() && 1 <= n <= length && init == old(init)
        invariant d % WSIZE == (w + WSIZE - dist) % WSIZE
        invariant CopyBytes(h0, dist, length) == CopyBytes(History(), dist, n)
        decreases n
      {
        Round(w, dist, d);
        d := d % WSIZE;
        var e := WSIZE - (if d > w then d else w);
        if e > n {
          e := n;
        }
        n := n - e;
        CopyMore(History(), dist, e, n);
        ghost var h := History();
        RoundOn(w, dist, d, e);
        d := Piece(d, e, dist);
        if w == WSIZE {
          Flush();
        }
        assert History() == CopyBytes(h, dist, e);
        if n == 0 {
          NoMore(History(), dist);
          return;
        }
      }
    }

    /** One piece (zBoot/inflate.c:407-418): a block move when the bytes are all there, and byte by byte when
        the piece copies bytes it has itself written. */
    method Piece(d0: nat, e: nat, dist: nat) returns (d: nat)
      requires Valid() && 1 <= e && d0 + e <= WSIZE && w + e <= WSIZE && Back(w, dist, d0)
      modifies this`w, slide
      ensures Good() && w == old(w) + e && d == d0 + e
      ensures History() == CopyBytes(old(History()), dist, e)
    {
      hide Register, CopyBytes, Behind, TableOK;
      d := d0;
      ghost var h0 := History();
      if d > w || w - d >= e {
        ghost var s0 := slide[..];
        forall i | 0 <= i < e {
          slide[w + i] := slide[d + i];
        }
        Moved(s0, slide[..], w, init + out, dist, d, e);
        w, d := w + e, d + e;
      } else {
        d := Slow(d, e, dist);
      }
    }

    /** Byte by byte (zBoot/inflate.c:416-418). */
    method Slow(d0: nat, e: nat, dist: nat) returns (d: nat)
      requires Valid() && 1 <= e && d0 + e <= WSIZE && w + e <= WSIZE && Back(w, dist, d0)
      modifies this`w, slide
      ensures Good() && w == old(w) + e && d == d0 + e
      ensures History() == CopyBytes(old(History()), dist, e)
    {
      hide Register, CopyBytes, Behind, TableOK;
      d := d0;
      ghost var h0 := History();
      var k := 0;
      NoMore(h0, dist);
      while k < e
        invariant k <= e && w == old(w) + k && d == d0 + k && Good()
        invariant History() == CopyBytes(h0, dist, k)
      {
        SourceCell(slide[..], w, init + out, dist, d);
        OneCopied(h0, dist, k);
        ghost var before := slide[..];
        slide[w] := slide[d];
        Written(before, slide[..], w, init + out);
        w, d := w + 1, d + 1;
        k := k + 1;
      }
    }
  }

  lemma NothingYet()
    ensures Register(Ones(), []) == Ones()
  {
  }

  lemma NoMore(h: seq<Byte>, dist: nat)
    requires 1 <= dist <= |h|
    ensures CopyBytes(h, dist, 0) == h
  {
  }

  lemma OneCopied(h: seq<Byte>, dist: nat, k: nat)
    requires 1 <= dist <= |h|
    ensures var g := CopyBytes(h, dist, k); CopyBytes(h, dist, k + 1) == g + [g[|g| - dist]]
  {
    CopyMore(h, dist, k, 1);
    var g := CopyBytes(h, dist, k);
    assert CopyBytes(g, dist, 1) == CopyBytes(g + [g[|g| - dist]], dist, 0);
  }

  lemma RegisterMore(c: Word, s: seq<Byte>, t: seq<Byte>)
    ensures Register(c, s + t) == Register(Register(c, s), t)
  {
    BitsOfAppend(s, t);
    SerialAppend(c, BitsOf(s), BitsOf(t));
  }

  lemma Flushed(slide: seq<Byte>, past: seq<Byte>)
    requires |slide| == WSIZE <= |past|
    ensures Behind(slide, 0, past + slide)
  {
  }

  /** Positions modulo the window's size. */
  lemma Round(w: nat, dist: nat, d: nat)
    requires w < WSIZE && 1 <= dist <= WSIZE && d % WSIZE == (w + WSIZE - dist) % WSIZE
    ensures Back(w, dist, d % WSIZE)
  {
  }

  lemma RoundOn(w: nat, dist: nat, d: nat, e: nat)
    requires Back(w, dist, d) && w + e <= WSIZE
    ensures (d + e) % WSIZE == ((if w + e == WSIZE then 0 else w + e) + WSIZE - dist) % WSIZE
  {
  }

  lemma Written(s0: seq<Byte>, s: seq<Byte>, w: nat, past: seq<Byte>)
    requires Behind(s0, w, past) && w < WSIZE && |s| == WSIZE && s == s0[w := s[w]]
    ensures Behind(s, w + 1, past) && past + s[..w + 1] == past + s0[..w] + [s[w]]
  {
    assert s[..w + 1] == s0[..w] + [s[w]];
  }

  lemma Moved(s0: seq<Byte>, s: seq<Byte>, w: nat, past: seq<Byte>, dist: nat, d: nat, e: nat)
    requires Behind(s0, w, past) && |s| == WSIZE && w + e <= WSIZE && d + e <= WSIZE && 1 <= e && Back(w, dist, d)
    requires d > w || w - d >= e
    requires forall x {:trigger s[x]} :: 0 <= x < WSIZE ==> s[x] == if w <= x < w + e then s0[d + x - w] else s0[x]
    ensures Behind(s, w + e, past) && past + s[..w + e] == CopyBytes(past + s0[..w], dist, e)
  {
    hide CopyBytes;
    var h := past + s0[..w];
    assert e <= dist;
    CopyApart(h, dist, e);
    var a, b := past + s[..w + e], h + h[|h| - dist..|h| - dist + e];
    forall x | 0 <= x < |a|
      ensures a[x] == b[x]
    {
      if x >= |h| {
        var y := x - |h|;
        assert a[x] == s[w + y] == s0[d + y];
        assert b[x] == h[|h| - dist + y];
        if d + y < w { assert d == w - dist; } else { assert s0[d + y] == past[|past| - WSIZE + d + y]; }
      }
    }
  }
}
