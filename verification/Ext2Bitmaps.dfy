/** The cache of block bitmaps (fs/ext2/balloc.c:114-228): the last eight groups used, most recent first, unless
    the file system has no more groups than that. */
module Ext2Bitmaps {
  const MAX_LOADED := 8
  const NONE := -1

  ghost predicate Distinct(s: seq<int>) {
    forall i, j :: 0 <= i < j < |s| ==> s[i] != s[j]
  }

  /** Groups of the file system, none twice. */
  ghost predicate Listed(s: seq<int>, groups: nat) {
    Distinct(s) && forall i :: 0 <= i < |s| ==> 0 <= s[i] < groups
  }

  function Without(s: seq<int>, i: nat): seq<int>
    requires i < |s|
  {
    s[..i] + s[i + 1..]
  }

  class Cache {
    const groups: nat
    /** s_loaded_block_bitmaps. */
    var loaded: nat
    /** s_block_bitmap_number and s_block_bitmap; of a buffer only the group it was read for matters here. */
    var number: array<int>
    var bitmap: array<int>

    /** Every slot in use holds the bitmap of the group its number says. */
    ghost predicate Valid()
      reads this, number, bitmap
    {
      && number != bitmap && number.Length == MAX_LOADED && bitmap.Length == MAX_LOADED
      && (if groups <= MAX_LOADED then
            loaded == 0 && forall g :: 0 <= g < groups ==> bitmap[g] == NONE || (bitmap[g] == g && number[g] == g)
          else
            loaded <= MAX_LOADED && Listed(number[..loaded], groups) && bitmap[..loaded] == number[..loaded])
    }

    constructor (groups: nat)
      ensures Valid() && this.groups == groups && fresh(number) && fresh(bitmap)
    {
      this.groups := groups;
      loaded := 0;
      number := new int[MAX_LOADED](_ => 0);
      bitmap := new int[MAX_LOADED](_ => NONE);
    }

    /** load_block_bitmap (fs/ext2/balloc.c:215-228): the slot that holds the group's bitmap; `released` is the
        group whose buffer was given back. */
    method Load(g: nat) returns (slot: nat, released: int)
      requires Valid() && g < groups
      modifies this`loaded, number, bitmap
      ensures Valid() && slot < MAX_LOADED && bitmap[slot] == g && number[slot] == g
      ensures groups > MAX_LOADED ==> slot == 0 && loaded > 0
      ensures groups > MAX_LOADED ==> number[..loaded] == Recent(old(number[..loaded]), g)
      ensures released != NONE <==> groups > MAX_LOADED && old(loaded) == MAX_LOADED && g !in old(number[..loaded])
      ensures released != NONE ==> released == old(number[MAX_LOADED - 1])
    {
      if loaded > 0 && number[0] == g {
        FrontStays(number[..loaded], g);
        return 0, NONE;
      }
      if groups <= MAX_LOADED && number[g] == g && bitmap[g] != NONE {
        return g, NONE;
      }
      slot, released := LoadSlowly(g);
    }

    /** load__block_bitmap (fs/ext2/balloc.c:155-213). */
    method LoadSlowly(g: nat) returns (slot: nat, released: int)
      requires Valid() && g < groups
      modifies this`loaded, number, bitmap
      ensures Valid() && slot < MAX_LOADED && bitmap[slot] == g && number[slot] == g
      ensures groups > MAX_LOADED ==> slot == 0 && loaded > 0
      ensures groups > MAX_LOADED ==> number[..loaded] == Recent(old(number[..loaded]), g)
      ensures released != NONE <==> groups > MAX_LOADED && old(loaded) == MAX_LOADED && g !in old(number[..loaded])
      ensures released != NONE ==> released == old(number[MAX_LOADED - 1])
    {
      if groups <= MAX_LOADED {
        if bitmap[g] == NONE {
          number[g], bitmap[g] := g, g;
        }
        return g, NONE;
      }
      slot := 0;
      released := LoadFront(g);
    }

    /** The part for file systems with many groups (fs/ext2/balloc.c:182-212). */
    method LoadFront(g: nat) returns (released: int)
      requires Valid() && g < groups && groups > MAX_LOADED
      modifies this`loaded, number, bitmap
      ensures Valid() && 0 < loaded && bitmap[0] == g == number[0]
      ensures number[..loaded] == Recent(old(number[..loaded]), g)
      ensures released != NONE <==> old(loaded) == MAX_LOADED && g !in old(number[..loaded])
      ensures released != NONE ==> released == old(number[MAX_LOADED - 1])
    {
      hide Recent, Listed, Moved;
      released := NONE;
      ghost var all, maps := number[..], bitmap[..];
      ghost var was := number[..loaded];
      assert was == all[..loaded] == maps[..loaded];
      RecentListed(was, groups, g);
      var i := 0;
      while i < loaded && number[i] != g
        invariant i <= loaded && forall k :: 0 <= k < i ==> was[k] != g
      {
        i := i + 1;
      }
      if i < loaded {
        assert was[i] == g;
        RecentHit(was, i);
        ToFront(i, g);
        MovedHit(all, number[..], i, g, loaded);
        MovedHit(maps, bitmap[..], i, g, loaded);
      } else {
        RecentMiss(was, g);
        if loaded < MAX_LOADED {
          loaded := loaded + 1;
        } else {
          released := bitmap[MAX_LOADED - 1];
          LastGroup(was, groups);
          assert released == was[MAX_LOADED - 1];
        }
        ToFront(loaded - 1, g);
        MovedMiss(all, number[..], loaded - 1, g);
        MovedMiss(maps, bitmap[..], loaded - 1, g);
        assert all[..loaded - 1] == was[..loaded - 1] && maps[..loaded - 1] == was[..loaded - 1];
        assert loaded - 1 == |was| ==> was[..loaded - 1] == was;
      }
    }

    /** The group's bitmap is put in slot 0, and what was before slot n moves up (fs/ext2/balloc.c:187-196, 204-210). */
    method ToFront(n: nat, g: nat)
      requires number != bitmap && number.Length == MAX_LOADED && bitmap.Length == MAX_LOADED && n < MAX_LOADED
      modifies number, bitmap
      ensures Moved(old(number[..]), number[..], n, g) && Moved(old(bitmap[..]), bitmap[..], n, g)
    {
      Shift(n);
      number[0], bitmap[0] := g, g;
    }

    /** Makes room at the front: slots 0 to n - 1 move up by one (fs/ext2/balloc.c:189-194, 204-209). */
    method Shift(n: nat)
      requires number != bitmap && number.Length == MAX_LOADED && bitmap.Length == MAX_LOADED && n < MAX_LOADED
      modifies number, bitmap
      ensures forall k :: 0 < k <= n ==> number[k] == old(number[k - 1]) && bitmap[k] == old(bitmap[k - 1])
      ensures forall k :: n < k < MAX_LOADED ==> number[k] == old(number[k]) && bitmap[k] == old(bitmap[k])
    {
      var j := n;
      while j > 0
        invariant 0 <= j <= n
        invariant forall k :: j < k <= n ==> number[k] == old(number[k - 1]) && bitmap[k] == old(bitmap[k - 1])
        invariant forall k :: 0 <= k < MAX_LOADED && (k <= j || k > n) ==>
          number[k] == old(number[k]) && bitmap[k] == old(bitmap[k])
      {
        number[j] := number[j - 1];
        bitmap[j] := bitmap[j - 1];
        j := j - 1;
      }
    }
  }

  ghost predicate Moved(a: seq<int>, b: seq<int>, n: nat, g: int)
    requires |a| == |b| && n < |a|
  {
    && b[0] == g
    && (forall k :: 0 < k <= n ==> b[k] == a[k - 1])
    && forall k :: n < k < |a| ==> b[k] == a[k]
  }

  lemma MovedHit(a: seq<int>, b: seq<int>, i: nat, g: int, n: nat)
    requires |a| == |b| && i < n <= |a| && Moved(a, b, i, g)
    ensures b[..n] == [g] + Without(a[..n], i)
  {
    var c := [g] + Without(a[..n], i);
    forall k | 0 <= k < n
      ensures b[k] == c[k]
    {
      if 0 < k <= i {
        assert b[k] == a[k - 1];
      }
    }
  }

  lemma MovedMiss(a: seq<int>, b: seq<int>, n: nat, g: int)
    requires |a| == |b| && n < |a| && Moved(a, b, n, g)
    ensures b[..n + 1] == [g] + a[..n]
  {
  }

  /** Least recently used: the group comes to the front, and the last one drops out when there is no room. */
  function Recent(s: seq<int>, g: int): seq<int> {
    var rest := Others(s, g);
    [g] + if |rest| < MAX_LOADED then rest else rest[..MAX_LOADED - 1]
  }

  function Others(s: seq<int>, g: int): seq<int> {
    if s == [] then [] else if s[0] == g then s[1..] else [s[0]] + Others(s[1..], g)
  }

  lemma {:induction false} OthersHit(s: seq<int>, i: nat)
    requires i < |s| && forall k :: 0 <= k < i ==> s[k] != s[i]
    ensures Others(s, s[i]) == Without(s, i)
  {
    if i > 0 {
      OthersHit(s[1..], i - 1);
    }
  }

  lemma {:induction false} OthersMiss(s: seq<int>, g: int)
    requires g !in s
    ensures Others(s, g) == s
  {
    if s != [] {
      OthersMiss(s[1..], g);
    }
  }

  lemma RecentHit(s: seq<int>, i: nat)
    requires i < |s| <= MAX_LOADED && forall k :: 0 <= k < i ==> s[k] != s[i]
    ensures Recent(s, s[i]) == [s[i]] + Without(s, i)
  {
    OthersHit(s, i);
  }

  lemma RecentMiss(s: seq<int>, g: int)
    requires g !in s && |s| <= MAX_LOADED
    ensures Recent(s, g) == [g] + if |s| < MAX_LOADED then s else s[..MAX_LOADED - 1]
  {
    OthersMiss(s, g);
  }

  lemma FrontStays(s: seq<int>, g: int)
    requires s != [] && s[0] == g && |s| <= MAX_LOADED
    ensures Recent(s, g) == s && g in s
  {
  }

  lemma LastGroup(s: seq<int>, groups: nat)
    requires Listed(s, groups) && s != []
    ensures s[|s| - 1] != NONE
  {
  }

  lemma RecentListed(s: seq<int>, groups: nat, g: nat)
    requires Listed(s, groups) && |s| <= MAX_LOADED && g < groups
    ensures Listed(Recent(s, g), groups)
  {
    if i :| 0 <= i < |s| && s[i] == g {
      RecentHit(s, i);
    } else {
      RecentMiss(s, g);
    }
  }
}
