/** Files on a mounted MS-DOS volume: reading, growing and freeing cluster chains through the cache
    (fs/msdos/fat.c:121-294, fs/msdos/misc.c:109-160). */
module FatVolume {
  import opened FatTable
  import opened FatChain

  const ROOT_INO := 1
  const ENOSPC := 28
  const EIO := 5

  class Volume {
    const device: nat
    const table: Fat
    /** i_start of each inode in use. */
    var start: map<nat, int>
    var cache: seq<CacheEntry>
    /** free_clusters: -1 while not known. */
    var free: int
    var prevFree: nat
    ghost var chains: map<nat, seq<int>>

    /** Holds of any table, damaged or not: the cache and the free count, when known, are true. */
    ghost predicate Valid()
      reads this, table
    {
      && device > 0 && prevFree < table.clusters && table.Valid() && 0 < table.clusters
      && table.clusters + 1 < (if table.bits == 16 then 0xfff7 else 0xff7)
      && CacheOK(cache, device, start, table.View())
      && (free == -1 || free == Zeros(table.View(), table.clusters + 2))
    }

    /** The files are well formed and disjoint. */
    ghost predicate Sound()
      requires Valid()
      reads this, table
    {
      Files(table.View(), start, chains)
    }

    /** A volume just mounted, with these files on it: nothing is cached (fs/msdos/fat.c:105-118). */
    constructor (device: nat, table: Fat, start: map<nat, int>, ghost chains: map<nat, seq<int>>)
      requires device > 0 && table.Valid() && 0 < table.clusters
        && table.clusters + 1 < (if table.bits == 16 then 0xfff7 else 0xff7)
      requires Files(table.View(), start, chains)
      ensures Valid() && Sound() && this.device == device && this.table == table && this.start == start
        && this.chains == chains
    {
      this.device, this.table, this.start, this.chains := device, table, start, chains;
      cache := seq(FAT_CACHE, _ => CacheEntry(0, 0, 0, 0));
      free := -1;
      prevFree := 0;
    }

    /** cache_lookup (fs/msdos/fat.c:121-142): the cached position nearest before `cluster`, if it is better than
        the one given. */
    method CacheLookup(ino: nat, cluster: nat, fClu: nat, dClu: int) returns (f: nat, d: int)
      ensures (f == fClu && d == dClu) || exists i :: 0 <= i < |cache| && cache[i] == CacheEntry(device, ino, f, d)
      ensures fClu <= f && (fClu <= cluster ==> f <= cluster)
      ensures forall i :: 0 <= i < |cache| && For(cache[i], device, ino) && cache[i].fileCluster <= cluster ==>
        cache[i].fileCluster <= f || f == cluster
    {
      f, d := fClu, dClu;
      var w := 0;
      while w < |cache|
        invariant 0 <= w <= |cache|
        invariant (f == fClu && d == dClu) || exists i :: 0 <= i < |cache| && cache[i] == CacheEntry(device, ino, f, d)
        invariant fClu <= f && (fClu <= cluster ==> f <= cluster)
        invariant forall i :: 0 <= i < w && For(cache[i], device, ino) && cache[i].fileCluster <= cluster ==>
          cache[i].fileCluster <= f
      {
        if For(cache[w], device, ino) && f < cache[w].fileCluster <= cluster {
          f, d := cache[w].fileCluster, cache[w].diskCluster;
          assert cache[w] == CacheEntry(device, ino, f, d);
          if f == cluster {
            return;
          }
        }
        w := w + 1;
      }
    }

    /** cache_inval_inode (fs/msdos/fat.c:203-210). */
    method CacheInvalInode(ino: nat)
      modifies this`cache
      ensures cache == Dropped(old(cache), device, ino)
    {
      var w := 0;
      while w < |cache|
        invariant 0 <= w <= |cache| == |old(cache)|
        invariant forall i :: 0 <= i < w ==> cache[i] == Dropped(old(cache), device, ino)[i]
        invariant forall i :: w <= i < |cache| ==> cache[i] == old(cache)[i]
      {
        if For(cache[w], device, ino) {
          cache := cache[w := cache[w].(device := 0)];
        }
        w := w + 1;
      }
    }

    /** cache_add (fs/msdos/fat.c:161-197), for any cache; `corrupt` when it found an entry that disagrees. */
    method CacheAdd(ino: nat, f: nat, d: int) returns (corrupt: bool)
      requires |cache| > 1
      modifies this`cache
      ensures var k := Slot(old(cache), device, ino, f);
        && corrupt == (k < |old(cache)| - 1 && old(cache)[k].diskCluster != d)
        && cache == if corrupt then Dropped(old(cache), device, ino)
          else ToFront(old(cache), k, CacheEntry(device, ino, f, d))
    {
      var w := 0;
      while w < |cache| - 1
        invariant 0 <= w < |cache| && cache == old(cache)
        invariant forall i :: 0 <= i < w ==> !(For(cache[i], device, ino) && cache[i].fileCluster == f)
      {
        if For(cache[w], device, ino) && cache[w].fileCluster == f {
          SlotIs(cache, device, ino, f, w);
          if cache[w].diskCluster != d {
            CacheInvalInode(ino);
            return true;
          }
          assert cache[w] == CacheEntry(device, ino, f, d);
          cache := [cache[w]] + cache[..w] + cache[w + 1..];
          return false;
        }
        w := w + 1;
      }
      SlotIs(cache, device, ino, f, w);
      cache := [CacheEntry(device, ino, f, d)] + cache[..w] + cache[w + 1..];
      return false;
    }

    /** get_cluster (fs/msdos/fat.c:222-236): through the cache, the cluster that walking the links would find, on
        any table; and the cache is never found corrupt. */
    method GetCluster(ino: nat, cluster: nat) returns (r: int, corrupt: bool)
      requires Valid() && ino in start
      modifies this`cache, table
      ensures Valid() && table.copies == old(table.copies) && OthersKept(old(cache), cache, device)
      ensures r == Walk(table.View(), start[ino], cluster)
      ensures !corrupt
    {
      corrupt := false;
      if start[ino] == 0 {
        WalkNowhere(table.View(), cluster);
        return 0, false;
      }
      if cluster == 0 {
        return start[ino], false;
      }
      r := FollowTo(ino, cluster);
      if r != 0 {
        ghost var was := cache;
        var e := CacheEntry(device, ino, cluster, r);
        assert EntryOK(e, device, start, table.View());
        ghost var k := Slot(cache, device, ino, cluster);
        if k < |cache| - 1 {
          NoCorruption(cache, device, start, table.View(), ino, cluster, k);
        }
        AddKeepsOK(cache, device, start, table.View(), k, e);
        corrupt := CacheAdd(ino, cluster, r);
        assert forall x :: x in cache ==> x == e || x in was;
      }
    }

    /** msdos_smap (fs/msdos/fat.c:239-254): the disk sector of a file's sector, 0 if it has none; the root
        directory lies in an area of its own. */
    method SMap(ino: nat, isDir: bool, sector: nat, place: Geometry) returns (r: int)
      requires Valid() && ino in start && place.clusterSize > 0
      modifies this`cache, table
      ensures Valid() && table.copies == old(table.copies)
      ensures ino == ROOT_INO || (isDir && start[ino] == 0) ==>
        r == if sector >= place.dirEntries / 16 then 0 else sector + place.dirStart
      ensures ino != ROOT_INO && !(isDir && start[ino] == 0) ==>
        r == FileSector(table.View(), start[ino], sector, place)
      ensures ino != ROOT_INO && !(isDir && start[ino] == 0) ==>
        var c := Walk(table.View(), start[ino], sector / place.clusterSize);
        && (c == 0 ==> r == 0)
        && (c != 0 ==> (r - place.dataStart) / place.clusterSize + 2 == c
                       && (r - place.dataStart) % place.clusterSize == sector % place.clusterSize)
    {
      if ino == ROOT_INO || (isDir && start[ino] == 0) {
        return if sector >= place.dirEntries / 16 then 0 else sector + place.dirStart;
      }
      var cluster, _ := GetCluster(ino, sector / place.clusterSize);
      SectorPlace(place, cluster, sector % place.clusterSize);
      return if cluster == 0 then 0 else DiskSector(cluster, sector % place.clusterSize, place);
    }

    /** The loop of get_cluster (fs/msdos/fat.c:228-233); 0 when the chain ends early. */
    method FollowTo(ino: nat, cluster: nat) returns (r: int)
      requires Valid() && ino in start && start[ino] != 0
      modifies table
      ensures Valid() && table.copies == old(table.copies)
      ensures r == Walk(table.View(), start[ino], cluster)
    {
      ghost var fat := table.View();
      var count, nr := CacheLookup(ino, cluster, 0, start[ino]);
      assert nr == Walk(fat, start[ino], count) && nr != 0 by {
        if !(count == 0 && nr == start[ino]) {
          var i :| 0 <= i < |cache| && cache[i] == CacheEntry(device, ino, count, nr);
          assert EntryOK(cache[i], device, start, fat);
        }
      }
      r := Follow(table, start[ino], count, nr, cluster);
    }

    /** fat_free (fs/msdos/fat.c:260-294) on sound files: keeps the file's first `skip` clusters and frees the
        others; a file no longer than that is left alone; no other file changes. */
    method FatFree(ino: nat, skip: nat) returns (r: int)
      requires Valid() && Sound() && ino in start
      modifies this`start, this`cache, this`free, this`chains, table
      ensures Valid() && Sound() && r == 0 && OthersKept(old(cache), cache, device)
      ensures old(table.Mirrored()) ==> table.Mirrored()
      ensures start.Keys == old(start.Keys) && forall a :: a in start && a != ino ==> start[a] == old(start)[a]
      ensures chains == old(chains)[ino := if skip < |old(chains)[ino]| then old(chains)[ino][..skip]
        else old(chains)[ino]]
      ensures skip >= |old(chains)[ino]| ==> table.View() == old(table.View()) && start == old(start)
      ensures skip < |old(chains)[ino]| ==> Cut(old(table.View()), table.View(), old(chains)[ino], skip)
      ensures free == if skip < |old(chains)[ino]| && old(free) != -1 then old(free) + |old(chains)[ino]| - skip
        else old(free)
    {
      hide Entries, InTable, Links, Cut, Chain, Files, CacheOK, Walk, Zeros;
      FileChain(table.View(), start, chains, ino);
      ghost var ch, fat := chains[ino], table.View();
      if start[ino] == 0 {
        assert chains == chains[ino := ch];
        return 0;
      }
      var last, nr, code := SkipOver(table, start[ino], skip, ch);
      if code.Some? {
        assert chains == chains[ino := ch];
        return code.value;
      }
      CutShort(last, ino, nr, skip, ch);
      ghost var start', chains' := start, chains[ino := ch[..skip]];
      CutFiles(fat, table.View(), old(start), chains, ino, skip);
      CutCache(cache, device, fat, table.View(), old(start), start', chains, chains', ino);
      DroppedKeeps(cache, device, ino);
      CacheInvalInode(ino);
      chains := chains';
      return 0;
    }

    /** Ends the chain after `last` and frees the rest (fs/msdos/fat.c:274-290). */
    method CutShort(last: int, ino: nat, nr: int, skip: nat, ghost ch: seq<int>)
      requires Valid() && ino in start && skip < |ch| && Chain(table.View(), start[ino], ch)
      requires last == (if skip == 0 then 0 else ch[skip - 1]) && nr == ch[skip]
      modifies this`start, this`free, table
      ensures table.Valid() && Cut(old(table.View()), table.View(), ch, skip)
      ensures start == old(start)[ino := if skip == 0 then 0 else old(start)[ino]]
      ensures free != -1 ==> free == old(free) + |ch| - skip
      ensures (free == -1 <==> old(free) == -1) && (free == -1 || free == Zeros(table.View(), table.clusters + 2))
      ensures old(table.Mirrored()) ==> table.Mirrored()
    {
      hide Entries, InTable, Links, Cut, CacheOK;
      ghost var fat := table.View();
      EndedAt(table.bits, fat, start[ino], ch, skip);
      if last != 0 {
        var _ := table.Access(last, if table.bits == 12 then 0xff8 else 0xfff8);
      } else {
        start := start[ino := 0];
      }
      assert start == old(start)[ino := if skip == 0 then 0 else old(start)[ino]];
      ghost var mid := table.View();
      assert mid == Ended(fat, ch, skip);
      var panic;
      free, panic := FreeRest(table, nr, free, ch[skip..]);
      EndedThenZeroed(fat, table.View(), ch, skip);
    }

    /** msdos_add_cluster (fs/msdos/misc.c:109-160): a free cluster becomes the file's last one. It fails only for
        the root directory and on a full volume, and then changes no link. */
    method AddCluster(ino: nat) returns (r: int)
      requires Valid() && Sound() && ino in start
      modifies this`start, this`free, this`prevFree, this`chains, table
      ensures Valid() && Sound() && (r == 0 || r == -ENOSPC)
      ensures old(table.Mirrored()) ==> table.Mirrored()
      ensures r == 0 <==> ino != ROOT_INO && Zeros(old(table.View()), table.clusters + 2) > 0
      ensures r != 0 ==> table.View() == old(table.View()) && start == old(start) && chains == old(chains)
      ensures r == 0 ==> Chain(old(table.View()), old(start)[ino], old(chains)[ino]) && exists nr ::
        && NextFree(old(table.View()), old(prevFree), table.clusters, nr, prevFree)
        && table.View() == Appended(old(table.View()), old(chains)[ino], nr)
        && start == old(start)[ino := if old(start)[ino] == 0 then nr else old(start)[ino]]
        && chains == old(chains)[ino := old(chains)[ino] + [nr]]
    {
      hide Entries, InTable, Links, Chain, Files, CacheOK, Walk, Zeros, Appended;
      ghost var fat := table.View();
      FileChain(fat, start, chains, ino);
      ghost var ch := chains[ino];
      if ino == ROOT_INO || free == 0 {
        return -ENOSPC;
      }
      var count, nr := FindFree(table, prevFree);
      prevFree := (count + prevFree + 1) % table.clusters;
      if count >= table.clusters {
        free := 0;
        return -ENOSPC;
      }
      NextFreeIs(fat, old(prevFree), table.clusters, count, nr);
      Links0(fat, start[ino], ch);
      Link(ino, nr, ch);
      AppendFiles(fat, old(start), chains, ino, nr);
      chains := chains[ino := ch + [nr]];
      return 0;
    }

    /** Marks cluster nr as an end of file and links it after the last cluster (fs/msdos/misc.c:129-156). */
    method Link(ino: nat, nr: int, ghost ch: seq<int>)
      requires Valid() && ino in start && Chain(table.View(), start[ino], ch)
      requires 2 <= nr < table.clusters + 2 && table.View()[nr] == 0
      requires forall i :: 0 <= i < |ch| ==> 2 <= ch[i] < table.clusters + 2
      modifies this`start, this`free, table
      ensures Valid() && table.View() == Appended(old(table.View()), ch, nr)
      ensures start == old(start)[ino := if old(start)[ino] == 0 then nr else old(start)[ino]]
      ensures old(table.Mirrored()) ==> table.Mirrored()
    {
      hide Entries, InTable, Links, CacheOK, Walk, Zeros, Chain, Zeroed;
      ghost var fat := table.View();
      Marked(table.bits, cache, device, fat, start, ino, ch, nr);
      AppendCache(cache, device, fat, start, ch, ino, nr);
      AppendZeros(fat, start[ino], ch, nr);
      assert start[ino := start[ino]] == start;
      var _ := table.Access(nr, if table.bits == 12 then 0xff8 else 0xfff8);
      if free != -1 {
        free := free - 1;
      }
      var last := FindLast(ino, ch);
      if last != 0 {
        var _ := table.Access(last, nr);
      } else {
        start := start[ino := nr];
      }
    }

    /** The last cluster of the file, 0 if it is empty (fs/msdos/misc.c:137-146). */
    method FindLast(ino: nat, ghost ch: seq<int>) returns (last: int)
      requires device > 0 && table.Valid() && CacheOK(cache, device, start, table.View())
      requires ino in start && Chain(table.View(), start[ino], ch)
      modifies table
      ensures table.Valid() && table.copies == old(table.copies)
      ensures last == if ch == [] then 0 else ch[|ch| - 1]
    {
      hide Entries, InTable;
      last := 0;
      var current := start[ino];
      if current != 0 {
        ghost var fat := table.View();
        last, current := CacheLookup(ino, 0x7fff_ffff, 0, current);
        ghost var k := last;
        assert current == Walk(fat, start[ino], k) && current != 0 by {
          if !(last == 0 && current == start[ino]) {
            var i :| 0 <= i < |cache| && cache[i] == CacheEntry(device, ino, last, current);
            assert EntryOK(cache[i], device, start, fat);
          }
        }
        ChainWalk(fat, start[ino], ch, k);
        last := ToEnd(table, last, current, ch, k);
      }
    }
  }

  /** Follows a chain to its end (fs/msdos/misc.c:140-145). */
  method ToEnd(table: Fat, last0: int, current0: int, ghost ch: seq<int>, ghost k0: nat) returns (last: int)
    requires table.Valid() && ch != [] && Links(table.View(), ch[0], ch) && k0 < |ch| && current0 == ch[k0]
    modifies table
    ensures table.Valid() && table.copies == old(table.copies) && last == ch[|ch| - 1]
  {
    hide Entries, InTable;
    last := last0;
    var current := current0;
    ghost var k := k0;
    while current != 0 && current != -1
      invariant table.copies == old(table.copies) && k <= |ch| && current == At(ch, k) && current != 0
      invariant k == |ch| ==> last == ch[|ch| - 1]
      decreases |ch| - k
    {
      last := current;
      current := table.Access(last, -1);
      assert current == At(ch, k + 1);
      if current == 0 {
        return 0;
      }
      k := k + 1;
    }
  }

  /** Cluster nr is the first free one from position p on, all the way round, and the next search starts behind it. */
  ghost predicate NextFree(fat: seq<int>, p: nat, clusters: nat, nr: int, p': nat) {
    && p < clusters && 2 <= nr < clusters + 2 && nr < |fat| && fat[nr] == 0
    && p' == (if nr - 2 + 1 == clusters then 0 else nr - 2 + 1)
    && forall m :: 2 <= m < clusters + 2 && m < |fat| && fat[m] == 0 ==>
         Turns(p, m - 2, clusters) >= Turns(p, nr - 2, clusters)
  }

  /** Steps from position p to q around a circle of n. */
  function Turns(p: nat, q: nat, n: nat): int {
    if q >= p then q - p else q - p + n
  }

  lemma NextFreeIs(fat: seq<int>, p: nat, clusters: nat, count: nat, nr: int)
    requires p < clusters && count < clusters && |fat| == clusters + 2
    requires nr == Round(count, p, clusters) && fat[nr] == 0
    requires forall c :: 0 <= c < count ==> Get(fat, Round(c, p, clusters)) != 0
    ensures NextFree(fat, p, clusters, nr, (count + p + 1) % clusters)
  {
    NextPlace(count, p, clusters);
    forall m | 2 <= m < clusters + 2 && fat[m] == 0
      ensures Turns(p, m - 2, clusters) >= Turns(p, nr - 2, clusters)
    {
      TurnsIs(m, p, clusters);
      assert Get(fat, m) == 0;
    }
    assert Turns(p, nr - 2, clusters) == count;
  }

  lemma TurnsIs(m: nat, p: nat, clusters: nat)
    requires p < clusters && 2 <= m < clusters + 2
    ensures 0 <= Turns(p, m - 2, clusters) < clusters && Round(Turns(p, m - 2, clusters), p, clusters) == m
  {
  }

  lemma NextPlace(c: nat, p: nat, n: nat)
    requires c < n && p < n
    ensures (c + p + 1) % n == if Round(c, p, n) - 1 == n then 0 else Round(c, p, n) - 1
  {
    var x := c + p + 1;
    if x >= n { Wrapped(x, n); } else { Unwrapped(x, n); }
  }

  lemma Unwrapped(x: nat, n: nat)
    requires x < n
    ensures x % n == x
  {
  }

  lemma Wrapped(x: nat, n: nat)
    requires n <= x < 2 * n
    ensures x % n == x - n
  {
  }

  /** The first free cluster from prev_free on, and how many were looked at before it (fs/msdos/misc.c:119-123). */
  method FindFree(table: Fat, prevFree: nat) returns (count: nat, nr: int)
    requires table.Valid() && prevFree < table.clusters
    modifies table
    ensures table.Valid() && table.copies == old(table.copies) && count <= table.clusters
    ensures count == table.clusters <==> Zeros(table.View(), table.clusters + 2) == 0
    ensures count < table.clusters ==> nr == Round(count, prevFree, table.clusters) && table.View()[nr] == 0
    ensures forall c :: 0 <= c < count ==> Get(table.View(), Round(c, prevFree, table.clusters)) != 0
  {
    hide Entries, InTable, Zeros;
    ghost var fat := table.View();
    count, nr := 0, table.clusters;
    while count < table.clusters
      invariant count <= table.clusters && table.copies == old(table.copies)
      invariant forall c :: 0 <= c < count ==> Get(fat, Round(c, prevFree, table.clusters)) != 0
    {
      RoundIs(count, prevFree, table.clusters);
      nr := (count + prevFree) % table.clusters + 2;
      var next := table.Access(nr, -1);
      if next == 0 {
        ZerosNone(fat, |fat|);
        return;
      }
      count := count + 1;
    }
    AllLooked(fat, prevFree, table.clusters);
  }

  /** Cluster number c counted from place p, going round. */
  function Round(c: nat, p: nat, clusters: nat): nat
    requires c < clusters && p < clusters
  {
    if c + p < clusters then c + p + 2 else c + p - clusters + 2
  }

  lemma RoundIs(c: nat, p: nat, n: nat)
    requires c < n && p < n
    ensures (c + p) % n + 2 == Round(c, p, n)
  {
  }

  /** Going once round the clusters from any place passes each of them. */
  lemma AllLooked(fat: seq<int>, p: nat, clusters: nat)
    requires p < clusters && |fat| == clusters + 2
    requires forall c :: 0 <= c < clusters ==> Get(fat, Round(c, p, clusters)) != 0
    ensures Zeros(fat, |fat|) == 0
  {
    forall i | 2 <= i < |fat|
      ensures fat[i] != 0
    {
      var c := if i - 2 >= p then i - 2 - p else i - 2 - p + clusters;
      assert Round(c, p, clusters) == i;
    }
    ZerosNone(fat, |fat|);
  }

  lemma Links0(fat: seq<int>, start: int, ch: seq<int>)
    requires Chain(fat, start, ch)
    ensures forall i :: 0 <= i < |ch| ==> 2 <= ch[i] < |fat|
  {
  }

  /** Between the two steps of Link: the new cluster is a chain's end of its own. */
  lemma Marked(bits: nat, cache: seq<CacheEntry>, device: nat, fat: seq<int>, start: map<nat, int>, ino: nat,
          ch: seq<int>, nr: int)
    requires CacheOK(cache, device, start, fat) && ino in start && Chain(fat, start[ino], ch)
    requires 2 <= nr < |fat| < (if bits == 16 then 0xfff8 else 0xff8) && fat[nr] == 0
    ensures bits == 12 || bits == 16 ==> Value(bits, if bits == 12 then 0xff8 else 0xfff8) == EOF
    ensures Value(bits, nr) == nr && (start[ino] == 0 <==> ch == []) && (ch != [] ==> ch[|ch| - 1] != 0)
    ensures CacheOK(cache, device, start, fat[nr := EOF]) && Chain(fat[nr := EOF], start[ino], ch)
  {
    FreeInNone(fat, start[ino], ch, nr);
    ChainKept(fat, fat[nr := EOF], start[ino], ch);
    CacheStable(cache, device, fat, fat[nr := EOF], start, start);
  }

  datatype Geometry = Geometry(dirEntries: nat, dirStart: nat, dataStart: nat, clusterSize: nat)

  function DiskSector(cluster: int, offset: nat, place: Geometry): int {
    (cluster - 2) * place.clusterSize + place.dataStart + offset
  }

  /** The sectors of a cluster lie together, and clusters one after the other from number 2 on. */
  lemma SectorPlace(place: Geometry, cluster: int, offset: nat)
    requires offset < place.clusterSize
    ensures var d := DiskSector(cluster, offset, place) - place.dataStart;
      d / place.clusterSize + 2 == cluster && d % place.clusterSize == offset
  {
    Quotient(place.clusterSize, cluster - 2, offset);
  }

  lemma Quotient(n: nat, q: int, r: nat)
    requires r < n
    ensures (q * n + r) / n == q && (q * n + r) % n == r
  {
    var d := q * n + r;
    SameQuotients(n, d / n, d % n, q, r);
  }

  lemma SameQuotients(n: nat, a: int, x: nat, b: int, y: nat)
    requires x < n && y < n && a * n + x == b * n + y
    ensures a == b
  {
    if a < b {
      Multiples(a + 1, b, n);
    } else if b < a {
      Multiples(b + 1, a, n);
    }
  }

  lemma Multiples(a: int, b: int, n: nat)
    ensures a <= b ==> a * n <= b * n
    ensures a * n == (a - 1) * n + n
  {
  }

  /** The clusters fill the data area: each of its sectors belongs to exactly one place of one cluster. */
  lemma DataArea(place: Geometry, clusters: nat, d: int)
    requires place.clusterSize > 0
    ensures place.dataStart <= d < place.dataStart + clusters * place.clusterSize <==>
      exists c: int, x: nat :: 2 <= c < clusters + 2 && x < place.clusterSize && DiskSector(c, x, place) == d
    ensures forall c: int, x: nat, c': int, x': nat ::
      x < place.clusterSize && x' < place.clusterSize && DiskSector(c, x, place) == DiskSector(c', x', place) ==>
        c == c' && x == x'
  {
    var n := place.clusterSize;
    forall c: int, x: nat, c': int, x': nat |
      x < n && x' < n && DiskSector(c, x, place) == DiskSector(c', x', place)
      ensures c == c' && x == x'
    {
      SectorPlace(place, c, x);
      SectorPlace(place, c', x');
    }
    if place.dataStart <= d < place.dataStart + clusters * n {
      var e := d - place.dataStart;
      BelowProduct(e, clusters, n);
      assert DiskSector(e / n + 2, e % n, place) == d;
    }
    forall c: int, x: nat | 2 <= c < clusters + 2 && x < n && DiskSector(c, x, place) == d
      ensures place.dataStart <= d < place.dataStart + clusters * n
    {
      Further(n, c - 2, clusters, x, 0);
    }
  }

  lemma BelowProduct(e: nat, m: nat, n: nat)
    requires n > 0 && e < m * n
    ensures e / n < m && e == (e / n) * n + e % n
  {
    Multiples(m, e / n, n);
  }

  function FileSector(fat: seq<int>, first: int, sector: nat, place: Geometry): int
    requires place.clusterSize > 0
  {
    var cluster := Walk(fat, first, sector / place.clusterSize);
    if cluster == 0 then 0 else DiskSector(cluster, sector % place.clusterSize, place)
  }

  /** No two sectors of sound files are kept in the same place on the disk. */
  lemma SectorsApart(fat: seq<int>, start: map<nat, int>, chains: map<nat, seq<int>>, place: Geometry, a: nat, s: nat,
          b: nat, t: nat)
    requires Files(fat, start, chains) && place.clusterSize > 0 && a in start && b in start && (a, s) != (b, t)
    requires chains.Keys == start.Keys && s / place.clusterSize < |chains[a]| && t / place.clusterSize < |chains[b]|
    ensures FileSector(fat, start[a], s, place) >= place.dataStart
    ensures FileSector(fat, start[a], s, place) != FileSector(fat, start[b], t, place)
  {
    hide Files, Walk;
    var n := place.clusterSize;
    ClustersApart(fat, start, chains, a, s / n, b, t / n);
    PlacesApart(place, Walk(fat, start[a], s / n), s, Walk(fat, start[b], t / n), t);
  }

  lemma ClustersApart(fat: seq<int>, start: map<nat, int>, chains: map<nat, seq<int>>, a: nat, i: nat, b: nat, j: nat)
    requires Files(fat, start, chains) && a in start && b in start && i < |chains[a]| && j < |chains[b]|
    ensures Walk(fat, start[a], i) >= 2 && Walk(fat, start[b], j) >= 2
    ensures (a, i) != (b, j) ==> Walk(fat, start[a], i) != Walk(fat, start[b], j)
  {
    FileChain(fat, start, chains, a);
    FileChain(fat, start, chains, b);
    ChainWalk(fat, start[a], chains[a], i);
    ChainWalk(fat, start[b], chains[b], j);
    if a != b {
      assert Apart(chains[a], chains[b]);
    } else if i < j {
      Distinct(fat, At(chains[a], 0), chains[a], i, j);
    } else if j < i {
      Distinct(fat, At(chains[a], 0), chains[a], j, i);
    }
  }

  lemma PlacesApart(place: Geometry, c: int, s: nat, d: int, t: nat)
    requires place.clusterSize > 0 && c >= 2 && d >= 2
    ensures DiskSector(c, s % place.clusterSize, place) >= place.dataStart
    ensures c != d || (s / place.clusterSize == t / place.clusterSize && s != t) ==>
      DiskSector(c, s % place.clusterSize, place) != DiskSector(d, t % place.clusterSize, place)
  {
    var n := place.clusterSize;
    var x, y := s % n, t % n;
    if c < d {
      Further(n, c - 2, d - 2, x, y);
    } else if d < c {
      Further(n, d - 2, c - 2, y, x);
    } else if s / n == t / n && s != t {
      SameQuotient(s, t, n);
    }
  }

  lemma SameQuotient(s: nat, t: nat, n: nat)
    requires n > 0 && s != t && s / n == t / n
    ensures s % n != t % n
  {
    assert s == n * (s / n) + s % n && t == n * (t / n) + t % n;
  }

  lemma Further(n: nat, c: nat, d: nat, x: nat, y: nat)
    requires x < n && c < d
    ensures c * n + x < d * n + y
  {
    assert (c + 1) * n <= d * n;
    assert (c + 1) * n == c * n + n;
  }

  lemma FileChain(fat: seq<int>, start: map<nat, int>, chains: map<nat, seq<int>>, ino: nat)
    requires Files(fat, start, chains) && ino in start
    ensures chains.Keys == start.Keys && Chain(fat, start[ino], chains[ino]) && (start[ino] == 0 <==> chains[ino] == [])
  {
    assert Chain(fat, start[ino], chains[ino]);
  }

  lemma DroppedKeeps(cache: seq<CacheEntry>, device: nat, ino: nat)
    ensures OthersKept(cache, Dropped(cache, device, ino), device)
  {
    var c := Dropped(cache, device, ino);
    forall e | e in c && e.device != device && e.device != 0
      ensures e in cache
    {
      var i :| 0 <= i < |c| && c[i] == e;
      assert cache[i] in cache;
    }
  }

  datatype Option<T> = None | Some(value: T)

  /** fat_free's first loop (fs/msdos/fat.c:265-273): the cluster number `skip` and the one before it, or the
      code to return at once. */
  method SkipOver(table: Fat, first: int, skip: nat, ghost ch: seq<int>) returns (last: int, nr: int, code: Option<int>)
    requires table.Valid() && Chain(table.View(), first, ch) && first != 0
    modifies table
    ensures table.Valid() && table.copies == old(table.copies)
    ensures skip >= |ch| ==> code == Some(0)
    ensures skip < |ch| ==> code == None && nr == ch[skip] && last == if skip == 0 then 0 else ch[skip - 1]
  {
    hide Entries, InTable;
    nr, last, code := first, 0, None;
    var k := 0;
    while k < skip
      invariant k <= skip && table.copies == old(table.copies)
      invariant k < |ch| && nr == ch[k] && last == if k == 0 then 0 else ch[k - 1]
    {
      last := nr;
      nr := table.Access(nr, -1);
      assert nr == At(ch, k + 1);
      if nr == -1 {
        return last, nr, Some(0);
      }
      if nr == 0 {
        return last, nr, Some(-EIO);
      }
      k := k + 1;
    }
  }

  function Ended(fat: seq<int>, ch: seq<int>, skip: nat): (fat': seq<int>)
    requires skip <= |ch|
    ensures |fat'| == |fat|
  {
    if skip == 0 then fat else Put(fat, ch[skip - 1], EOF)
  }

  /** The end of file put after the clusters kept changes no count, and leaves the rest linked. */
  lemma EndedAt(bits: nat, fat: seq<int>, start: int, ch: seq<int>, skip: nat)
    requires Chain(fat, start, ch) && skip < |ch| && (bits == 12 || bits == 16)
    ensures Value(bits, if bits == 12 then 0xff8 else 0xfff8) == EOF
    ensures ch[0] != 0 && (skip > 0 ==> 2 <= ch[skip - 1] < |fat|)
    ensures Links(Ended(fat, ch, skip), ch[skip], ch[skip..])
    ensures Zeros(Ended(fat, ch, skip), |fat|) == Zeros(fat, |fat|)
  {
    var rest, fat' := ch[skip..], Ended(fat, ch, skip);
    if skip > 0 {
      assert fat[ch[skip - 1]] == At(ch, skip);
      ZerosUpdate(fat, |fat|, ch[skip - 1], EOF);
    }
    forall i | 0 <= i < |rest|
      ensures 2 <= rest[i] < |fat'| && fat'[rest[i]] == At(rest, i + 1)
    {
      assert rest[i] == ch[skip + i] && At(rest, i + 1) == At(ch, skip + i + 1);
      if skip > 0 {
        Distinct(fat, ch[0], ch, skip - 1, skip + i);
      }
    }
  }

  lemma EndedThenZeroed(fat: seq<int>, fat': seq<int>, ch: seq<int>, skip: nat)
    requires skip < |ch| && Zeroed(Ended(fat, ch, skip), fat', ch[skip..])
    requires skip > 0 ==> 2 <= ch[skip - 1] < |fat|
    ensures Cut(fat, fat', ch, skip)
  {
  }

  /** From cluster number `count` of a chain to number `cluster`, one link at a time (fs/msdos/fat.c:229-233). */
  method Follow(table: Fat, ghost first: int, count0: nat, nr0: int, cluster: nat) returns (nr: int)
    requires table.Valid() && count0 <= cluster && nr0 == Walk(table.View(), first, count0) && nr0 != 0
    modifies table
    ensures table.copies == old(table.copies) && table.Valid() && nr == Walk(table.View(), first, cluster)
  {
    hide Entries, InTable;
    ghost var fat := table.View();
    nr := nr0;
    var count := count0;
    while count < cluster
      invariant count <= cluster && nr == Walk(fat, first, count) && nr != 0
      invariant table.copies == old(table.copies)
    {
      ghost var before := nr;
      nr := table.Access(nr, -1);
      assert Walk(fat, first, count + 1) == Next(fat, before);
      if nr == -1 || nr == 0 {
        EndsBefore(fat, first, count + 1, cluster);
        return 0;
      }
      count := count + 1;
    }
  }

  /** fat_free's second loop (fs/msdos/fat.c:282-290): frees clusters until the end of the file, or panics when
      the chain ends without one. It stops on every table, because it zeroes a nonzero entry each time round;
      the free count stays true; and a well-formed chain is freed exactly. */
  method FreeRest(table: Fat, nr0: int, free0: int, ghost ch: seq<int>) returns (free: int, panic: bool)
    requires table.Valid() && (free0 == -1 || free0 == Zeros(table.View(), table.clusters + 2))
    modifies table
    ensures table.Valid() && (free == -1 <==> free0 == -1)
    ensures free0 != -1 ==> free == Zeros(table.View(), table.clusters + 2)
    ensures old(table.Mirrored()) ==> table.Mirrored()
    ensures Links(old(table.View()), nr0, ch) ==> !panic && Zeroed(old(table.View()), table.View(), ch)
    ensures Links(old(table.View()), nr0, ch) && free0 != -1 ==> free == free0 + |ch|
  {
    hide Entries, InTable, Links, Zeroed;
    ghost var fat := table.View();
    ghost var good := Links(fat, nr0, ch);
    ghost var k := 0;
    var nr := nr0;
    free, panic := free0, false;
    if good {
      NoneFreed(fat, nr0, ch);
    }
    while nr != -1
      invariant table.Valid() && (free == -1 <==> free0 == -1)
      invariant free0 != -1 ==> free == Zeros(table.View(), table.clusters + 2)
      invariant old(table.Mirrored()) ==> table.Mirrored()
      invariant good && free0 != -1 ==> free == free0 + k
      invariant good ==> k <= |ch| && nr == At(ch, k) && Zeroed(fat, table.View(), ch[..k])
      decreases NonZeros(table.View())
    {
      ghost var before, was := table.View(), nr;
      nr := table.Access(nr, 0);
      ZeroOne(table.bits, before, was);
      if good {
        FreeStep(fat, before, nr0, ch, k);
      }
      if nr == 0 {
        panic := true;
        break;
      }
      if free != -1 {
        free := free + 1;
      }
      k := k + 1;
    }
    if good {
      AllFreed(fat, nr0, ch, k);
    }
  }

  ghost function NonZeros(fat: seq<int>): nat {
    ZerosBound(fat, |fat|);
    |fat| - Zeros(fat, |fat|)
  }

  lemma ZeroOne(bits: nat, fat: seq<int>, nr: int)
    ensures Value(bits, 0) == 0
    ensures Get(fat, nr) != 0 ==> Zeros(Put(fat, nr, 0), |fat|) == Zeros(fat, |fat|) + 1
    ensures Get(fat, nr) == 0 ==> Put(fat, nr, 0) == fat
    ensures Get(fat, nr) != 0 ==> NonZeros(Put(fat, nr, 0)) < NonZeros(fat)
  {
    if 2 <= nr < |fat| {
      ZerosUpdate(fat, |fat|, nr, 0);
    }
  }

  lemma NoneFreed(fat: seq<int>, nr: int, ch: seq<int>)
    requires Links(fat, nr, ch)
    ensures nr == At(ch, 0) && Zeroed(fat, fat, ch[..0])
  {
  }

  lemma AllFreed(fat: seq<int>, nr: int, ch: seq<int>, k: nat)
    requires Links(fat, nr, ch) && k <= |ch| && At(ch, k) == EOF
    ensures ch[..k] == ch
  {
    assert k == |ch|;
  }

  lemma FreeStep(fat: seq<int>, now: seq<int>, nr: int, ch: seq<int>, k: nat)
    requires Links(fat, nr, ch) && k <= |ch| && Zeroed(fat, now, ch[..k]) && At(ch, k) != EOF
    ensures k < |ch| && Get(now, ch[k]) == At(ch, k + 1) && At(ch, k + 1) != 0
    ensures Zeroed(fat, Put(now, ch[k], 0), ch[..k + 1])
  {
    var gone := ch[..k];
    forall j | 0 <= j < |gone|
      ensures gone[j] != ch[k]
    {
      Distinct(fat, nr, ch, j, k);
    }
    assert ch[..k + 1] == gone + [ch[k]];
  }

  lemma {:induction false} WalkNowhere(fat: seq<int>, n: nat)
    ensures Walk(fat, 0, n) == 0
  {
    if n > 0 {
      WalkNowhere(fat, n - 1);
    }
  }

  lemma EndsBefore(fat: seq<int>, c: int, m: nat, n: nat)
    requires m <= n && Walk(fat, c, m) == 0
    ensures Walk(fat, c, n) == 0
  {
    if Walk(fat, c, n) != 0 {
      WalkNonzero(fat, c, m, n);
    }
  }
}
