/** One swap device (mm/swap.c:102-191): a use count for each slot, and the range in which free slots
    are looked for. */
module SwapArea {

  ghost function FreeSlots(m: seq<nat>): set<nat> {
    set s: nat | s < |m| && m[s] == 0
  }

  class Area {
    var swapMap: array<nat>
    var lowest: int
    var highest: int
    var free: int

    /** Free slots are never outside the range searched, and their number is known. */
    ghost predicate Valid()
      reads this, swapMap
    {
      && 0 <= lowest && highest < swapMap.Length
      && (forall s :: 0 <= s < swapMap.Length && swapMap[s] == 0 ==> lowest <= s <= highest)
      && free == |FreeSlots(swapMap[..])|
    }

    /** An area whose slots other than the free ones are marked (mm/swap.c:832-835). */
    constructor On(m: array<nat>, lowest: nat, highest: nat, pages: nat)
      requires highest < m.Length && pages == |FreeSlots(m[..])|
      requires forall s :: 0 <= s < m.Length && m[s] == 0 ==> lowest <= s <= highest
      ensures Valid() && swapMap == m
    {
      swapMap, this.lowest, this.highest, free := m, lowest, highest, pages;
    }

    /** get_swap_page (mm/swap.c:102-123): the first free slot, which is then used once; -1 when there
        is none. */
    method GetSwapPage() returns (s: int)
      requires Valid()
      modifies this, swapMap
      ensures Valid() && swapMap == old(swapMap)
      ensures s == -1 <==> old(FreeSlots(swapMap[..])) == {}
      ensures s == -1 ==> swapMap[..] == old(swapMap[..]) && free == old(free)
      ensures s != -1 ==> 0 <= s < swapMap.Length && old(swapMap[s]) == 0 && swapMap[..] == old(swapMap[..])[s := 1]
      ensures s != -1 ==> free == old(free) - 1
      ensures s != -1 ==> forall t :: 0 <= t < s ==> old(swapMap[t]) != 0
    {
      hide FreeSlots;
      var offset := lowest;
      while offset <= highest
        invariant lowest <= offset
        invariant forall t :: 0 <= t < offset && t < swapMap.Length ==> swapMap[t] != 0
        invariant Valid() && swapMap[..] == old(swapMap[..]) && free == old(free)
      {
        if swapMap[offset] == 0 {
          ghost var m := swapMap[..];
          Used(m, offset, 1);
          swapMap[offset] := 1;
          assert swapMap[..] == m[offset := 1];
          free := free - 1;
          if offset == highest {
            highest := highest - 1;
          }
          lowest := offset;
          return offset;
        }
        offset := offset + 1;
      }
      NoneFree(swapMap[..]);
      return -1;
    }

    /** swap_duplicate (mm/swap.c:125-151): one more user of a slot in use. */
    method SwapDuplicate(s: nat) returns (ok: bool)
      requires Valid()
      modifies swapMap
      ensures Valid() && (ok <==> s < swapMap.Length && old(swapMap[s]) != 0)
      ensures swapMap[..] == if ok then old(swapMap[..])[s := old(swapMap[s]) + 1] else old(swapMap[..])
    {
      if s >= swapMap.Length || swapMap[s] == 0 {
        return false;
      }
      ghost var m := swapMap[..];
      swapMap[s] := swapMap[s] + 1;
      assert swapMap[..] == m[s := m[s] + 1];
      assert FreeSlots(swapMap[..]) == FreeSlots(m);
      return true;
    }

    /** swap_free (mm/swap.c:153-191): one user fewer; the last one makes the slot free again. */
    method SwapFree(s: nat)
      requires Valid()
      modifies this, swapMap
      ensures Valid() && swapMap == old(swapMap)
      ensures swapMap[..] == if s >= swapMap.Length || old(swapMap[s]) == 0 then old(swapMap[..])
        else old(swapMap[..])[s := old(swapMap[s]) - 1]
      ensures free == old(free) + if s < swapMap.Length && old(swapMap[s]) == 1 then 1 else 0
    {
      hide FreeSlots;
      if s >= swapMap.Length {
        return;
      }
      if s < lowest {
        lowest := s;
      }
      if s > highest {
        highest := s;
      }
      if swapMap[s] != 0 {
        ghost var m := swapMap[..];
        OneLess(m, s);
        swapMap[s] := swapMap[s] - 1;
        assert swapMap[..] == m[s := m[s] - 1];
        if swapMap[s] == 0 {
          free := free + 1;
        }
      }
    }
  }

  lemma Used(m: seq<nat>, s: nat, n: nat)
    requires s < |m| && m[s] == 0 && n > 0
    ensures FreeSlots(m) == FreeSlots(m[s := n]) + {s} && s !in FreeSlots(m[s := n])
    ensures |FreeSlots(m)| == |FreeSlots(m[s := n])| + 1
  {
    assert FreeSlots(m) == FreeSlots(m[s := n]) + {s};
  }

  lemma OneLess(m: seq<nat>, s: nat)
    requires s < |m| && m[s] > 0
    ensures |FreeSlots(m[s := m[s] - 1])| == |FreeSlots(m)| + if m[s] == 1 then 1 else 0
  {
    var m' := m[s := m[s] - 1];
    if m[s] == 1 {
      Used(m', s, 1);
      assert m'[s := 1] == m;
    } else {
      assert FreeSlots(m') == FreeSlots(m);
    }
  }

  lemma NoneFree(m: seq<nat>)
    requires forall t :: 0 <= t < |m| ==> m[t] != 0
    ensures FreeSlots(m) == {}
  {
  }

  /** One slot more. */
  lemma FreeNext(m: seq<nat>, x: nat)
    ensures |FreeSlots(m + [x])| == |FreeSlots(m)| + if x == 0 then 1 else 0
  {
    var a, b := FreeSlots(m), FreeSlots(m + [x]);
    if x == 0 {
      assert b == a + {|m|};
    } else {
      assert b == a;
    }
  }
}
