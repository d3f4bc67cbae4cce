/** The header of a swap device (mm/swap.c:789-835): a bitmap of good slots, which sys_swapon turns into the map of
    use counts in the same page. */
module SwapOn {
  import opened BitStrings
  import opened SwapArea

  const PAGE_SIZE := 4096
  /** mm/swap.c:56. */
  const SWAP_BITS := PAGE_SIZE
  const BAD := 0x80
  const SIGNATURE: seq<nat> := [83, 87, 65, 80, 45, 83, 80, 65, 67, 69]

  /** The signature in the last bytes of the page. */
  lemma SignatureIs()
    ensures |SIGNATURE| == |"SWAP-SPACE"| && forall i :: 0 <= i < |SIGNATURE| ==> SIGNATURE[i] == "SWAP-SPACE"[i] as int
  {
  }

  /** test_bit: slot i is usable. */
  function TestBit(page: seq<nat>, i: nat): bool
    requires i / 8 < |page|
  {
    ToBits(page[i / 8], 8)[i % 8]
  }

  /** Slots that may be used; slot 0 holds the header. */
  predicate Good(page: seq<nat>, i: nat)
    requires i / 8 < |page|
  {
    i > 0 && TestBit(page, i)
  }

  function Count(page: seq<nat>, n: nat): nat
    requires n <= 8 * |page|
  {
    if n == 0 then 0 else Count(page, n - 1) + if Good(page, n - 1) then 1 else 0
  }

  /** The first and the last good slot, and their number (mm/swap.c:803-812). */
  method Scan(tmp: array<nat>) returns (lowest: nat, highest: nat, pages: nat)
    requires tmp.Length == PAGE_SIZE
    ensures pages == Count(tmp[..], SWAP_BITS)
    ensures forall i :: 0 <= i < SWAP_BITS && Good(tmp[..], i) ==> lowest <= i <= highest
    ensures pages > 0 ==> lowest < SWAP_BITS && highest < SWAP_BITS && Good(tmp[..], lowest) && Good(tmp[..], highest)
  {
    hide TestBit, ToBits;
    ghost var page := tmp[..];
    lowest, highest, pages := 0, 0, 0;
    var i := 1;
    assert Count(page, 1) == 0 by {
      assert Count(page, 0) == 0;
    }
    while i < SWAP_BITS
      invariant 1 <= i <= SWAP_BITS && pages == Count(page, i)
      invariant pages > 0 ==> lowest < i && highest < i && Good(page, lowest) && Good(page, highest)
      invariant pages == 0 ==> lowest == 0
      invariant forall k :: 0 <= k < i && Good(page, k) ==> pages > 0 && lowest <= k <= highest
    {
      if TestBit(tmp[..], i) {
        if lowest == 0 {
          lowest := i;
        }
        highest := i;
        pages := pages + 1;
      }
      i := i + 1;
    }
  }

  /** Bits become bytes in place, from the end down, so that no bit is overwritten before it is read
      (mm/swap.c:825-831). */
  method Expand(tmp: array<nat>)
    requires tmp.Length == PAGE_SIZE
    modifies tmp
    ensures forall i :: 0 <= i < SWAP_BITS ==> tmp[i] == if Good(old(tmp[..]), i) then 0 else BAD
  {
    hide ToBits;
    ghost var page := tmp[..];
    var i := SWAP_BITS;
    while i > 0
      invariant 0 <= i <= SWAP_BITS
      invariant forall k :: i <= k < SWAP_BITS ==> tmp[k] == if TestBit(page, k) then 0 else BAD
      invariant forall k :: 0 <= k < i ==> tmp[k] == page[k]
    {
      i := i - 1;
      assert tmp[..][i / 8] == page[i / 8];
      tmp[i] := if TestBit(tmp[..], i) then 0 else BAD;
    }
    tmp[0] := BAD;
  }

  lemma {:induction false} CountIs(page: seq<nat>, m: seq<nat>, n: nat)
    requires n <= |m| <= 8 * |page| && forall i :: 0 <= i < |m| ==> (m[i] == 0 <==> Good(page, i))
    ensures |FreeSlots(m[..n])| == Count(page, n)
  {
    hide TestBit;
    if n == 0 {
      assert FreeSlots(m[..n]) == {};
    } else {
      hide FreeSlots;
      CountIs(page, m, n - 1);
      FreeNext(m[..n - 1], m[n - 1]);
      assert m[..n] == m[..n - 1] + [m[n - 1]];
    }
  }

  /** sys_swapon from the header on; null when there is no signature or no good slot. */
  method SwapOn(tmp: array<nat>) returns (area: Area?)
    requires tmp.Length == PAGE_SIZE
    modifies tmp
    ensures (area != null)
      == (old(tmp[PAGE_SIZE - 10..]) == SIGNATURE && exists i :: 0 <= i < SWAP_BITS && Good(old(tmp[..]), i))
    ensures area != null ==> fresh(area) && area.Valid() && area.swapMap == tmp
    ensures area != null ==> forall i :: 0 <= i < SWAP_BITS ==> tmp[i] == if Good(old(tmp[..]), i) then 0 else BAD
  {
    hide TestBit, ToBits, Count, FreeSlots;
    ghost var page := tmp[..];
    if tmp[PAGE_SIZE - 10..] != SIGNATURE {
      return null;
    }
    ClearTail(tmp);
    ghost var clean := tmp[..];
    SameBits(page, clean);
    var lowest, highest, pages := Scan(tmp);
    SomeGood(clean, SWAP_BITS);
    if pages == 0 {
      return null;
    }
    Expand(tmp);
    CountIs(clean, tmp[..], SWAP_BITS);
    assert tmp[..][..SWAP_BITS] == tmp[..];
    area := new Area.On(tmp, lowest, highest, pages);
  }

  /** The signature is blanked (mm/swap.c:802). */
  method ClearTail(tmp: array<nat>)
    requires tmp.Length == PAGE_SIZE
    modifies tmp
    ensures forall i :: 0 <= i < PAGE_SIZE ==> tmp[i] == if i < PAGE_SIZE - 10 then old(tmp[i]) else 0
  {
    var i := PAGE_SIZE - 10;
    while i < PAGE_SIZE
      invariant PAGE_SIZE - 10 <= i <= PAGE_SIZE
      invariant forall k :: 0 <= k < PAGE_SIZE ==> tmp[k] == if PAGE_SIZE - 10 <= k < i then 0 else old(tmp[k])
    {
      tmp[i] := 0;
      i := i + 1;
    }
  }

  lemma SameBits(page: seq<nat>, clean: seq<nat>)
    requires |page| == |clean| == PAGE_SIZE && forall i :: 0 <= i < PAGE_SIZE - 10 ==> clean[i] == page[i]
    ensures forall i :: 0 <= i < SWAP_BITS ==> (Good(clean, i) <==> Good(page, i))
  {
    hide ToBits;
    forall i | 0 <= i < SWAP_BITS
      ensures Good(clean, i) <==> Good(page, i)
    {
      assert i / 8 < PAGE_SIZE - 10;
    }
  }

  lemma {:induction false} SomeGood(page: seq<nat>, n: nat)
    requires n <= 8 * |page|
    ensures Count(page, n) > 0 <==> exists i :: 0 <= i < n && Good(page, i)
  {
    hide TestBit;
    if n > 0 {
      SomeGood(page, n - 1);
    }
  }
}
