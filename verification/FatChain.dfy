/** Cluster chains in a file allocation table, read as a sequence of links, and the cache of chain positions
    (fs/msdos/fat.c:105-294). */
module FatChain {
  import opened FatTable

  /** The cluster after c, 0 when c is the last one, free, or no cluster. */
  function Next(fat: seq<int>, c: int): int {
    if Get(fat, c) == EOF then 0 else Get(fat, c)
  }

  /** The cluster n links after c, 0 when the links end before. */
  function Walk(fat: seq<int>, c: int, n: nat): int {
    if n == 0 then c else Next(fat, Walk(fat, c, n - 1))
  }

  lemma {:induction false} WalkNonzero(fat: seq<int>, c: int, m: nat, n: nat)
    requires m <= n && Walk(fat, c, n) != 0
    ensures Walk(fat, c, m) != 0
  {
    if m < n {
      WalkNonzero(fat, c, m, n - 1);
    }
  }

  /** Changing entries that lead nowhere does not change a walk that got somewhere. */
  lemma {:induction false} WalkStable(fat: seq<int>, fat': seq<int>, c: int, n: nat)
    requires |fat'| == |fat| && forall i :: 0 <= i < |fat| && Next(fat, i) != 0 ==> fat'[i] == fat[i]
    requires Walk(fat, c, n) != 0
    ensures Walk(fat', c, n) == Walk(fat, c, n)
  {
    if n > 0 {
      WalkNonzero(fat, c, n - 1, n);
      WalkStable(fat, fat', c, n - 1);
    }
  }

  /** ch lists the clusters linked from nr to the end of the file; nr is EOF when there are none. */
  ghost predicate Links(fat: seq<int>, nr: int, ch: seq<int>) {
    && nr == At(ch, 0)
    && forall i :: 0 <= i < |ch| ==> 2 <= ch[i] < |fat| && fat[ch[i]] == At(ch, i + 1)
  }

  function At(ch: seq<int>, i: nat): int {
    if i < |ch| then ch[i] else EOF
  }

  /** A file's chain; an empty file starts nowhere. */
  ghost predicate Chain(fat: seq<int>, start: int, ch: seq<int>) {
    start == (if ch == [] then 0 else ch[0]) && Links(fat, At(ch, 0), ch)
  }

  /** On a well-formed chain, walking is indexing. */
  lemma {:induction false} ChainWalk(fat: seq<int>, start: int, ch: seq<int>, n: nat)
    requires Chain(fat, start, ch)
    ensures Walk(fat, start, n) == if n < |ch| then ch[n] else 0
  {
    if n > 0 {
      ChainWalk(fat, start, ch, n - 1);
    }
  }

  /** A chain that ends has no cluster twice. */
  lemma {:induction false} Distinct(fat: seq<int>, nr: int, ch: seq<int>, i: nat, j: nat)
    requires Links(fat, nr, ch) && i < j < |ch|
    ensures ch[i] != ch[j]
    decreases |ch| - j
  {
    if ch[i] == ch[j] {
      assert At(ch, i + 1) == At(ch, j + 1);
      if j + 1 < |ch| {
        Distinct(fat, nr, ch, i + 1, j + 1);
      }
    }
  }

  /** A chain stays while its own entries do. */
  lemma ChainKept(fat: seq<int>, fat': seq<int>, start: int, ch: seq<int>)
    requires Chain(fat, start, ch) && |fat'| == |fat|
    requires forall i :: 0 <= i < |ch| && 2 <= ch[i] < |fat| ==> fat'[ch[i]] == fat[ch[i]]
    ensures Chain(fat', start, ch)
  {
  }

  // ---- counting free clusters

  function Zeros(fat: seq<int>, n: nat): nat
    requires n <= |fat|
  {
    if n <= 2 then 0 else Zeros(fat, n - 1) + if fat[n - 1] == 0 then 1 else 0
  }

  lemma {:induction false} ZerosUpdate(fat: seq<int>, n: nat, i: nat, v: int)
    requires n <= |fat| && 2 <= i < |fat|
    ensures Zeros(fat[i := v], n) == Zeros(fat, n) + if i >= n then 0
      else (if v == 0 then 1 else 0) - (if fat[i] == 0 then 1 else 0)
  {
    if n > 2 {
      ZerosUpdate(fat, n - 1, i, v);
    }
  }

  lemma {:induction false} ZerosBound(fat: seq<int>, n: nat)
    requires n <= |fat|
    ensures Zeros(fat, n) <= n
  {
    if n > 2 {
      ZerosBound(fat, n - 1);
    }
  }

  lemma {:induction false} ZerosNone(fat: seq<int>, n: nat)
    requires n <= |fat|
    ensures Zeros(fat, n) == 0 <==> forall i :: 2 <= i < n ==> fat[i] != 0
  {
    if n > 2 {
      ZerosNone(fat, n - 1);
    }
  }

  // ---- the cache

  const FAT_CACHE := 8

  /** disk_cluster is cluster number file_cluster of a file; no file is on device 0. */
  datatype CacheEntry = CacheEntry(device: nat, ino: nat, fileCluster: nat, diskCluster: int)

  predicate For(e: CacheEntry, device: nat, ino: nat) {
    e.device == device && e.ino == ino
  }

  /** The entry tells the truth about a file of the device. */
  ghost predicate EntryOK(e: CacheEntry, device: nat, start: map<nat, int>, fat: seq<int>) {
    e.device == device ==>
      && e.ino in start && start[e.ino] != 0 && e.diskCluster != 0
      && e.diskCluster == Walk(fat, start[e.ino], e.fileCluster)
  }

  ghost predicate CacheOK(cache: seq<CacheEntry>, device: nat, start: map<nat, int>, fat: seq<int>) {
    |cache| == FAT_CACHE && forall i :: 0 <= i < |cache| ==> EntryOK(cache[i], device, start, fat)
  }

  /** Entries of other devices may be dropped but are not invented. */
  ghost predicate OthersKept(cache: seq<CacheEntry>, cache': seq<CacheEntry>, device: nat) {
    forall e :: e in cache' && e.device != device && e.device != 0 ==> e in cache
  }

  /** Where cache_add puts its entry: the first one for that position, else the last of the list. */
  function Slot(cache: seq<CacheEntry>, device: nat, ino: nat, f: nat): (k: nat)
    requires |cache| > 0
    ensures k < |cache|
    ensures forall i :: 0 <= i < k ==> !(For(cache[i], device, ino) && cache[i].fileCluster == f)
    ensures k < |cache| - 1 ==> For(cache[k], device, ino) && cache[k].fileCluster == f
  {
    if |cache| == 1 || (For(cache[0], device, ino) && cache[0].fileCluster == f) then 0
    else 1 + Slot(cache[1..], device, ino, f)
  }

  /** Slot is the only such place. */
  lemma SlotIs(cache: seq<CacheEntry>, device: nat, ino: nat, f: nat, k: nat)
    requires k < |cache|
    requires forall i :: 0 <= i < k ==> !(For(cache[i], device, ino) && cache[i].fileCluster == f)
    requires k < |cache| - 1 ==> For(cache[k], device, ino) && cache[k].fileCluster == f
    ensures Slot(cache, device, ino, f) == k
  {
    var s := Slot(cache, device, ino, f);
    assert s >= k;
  }

  function Dropped(cache: seq<CacheEntry>, device: nat, ino: nat): (c: seq<CacheEntry>)
    ensures |c| == |cache|
    ensures forall i :: 0 <= i < |c| ==> c[i] == if For(cache[i], device, ino) then cache[i].(device := 0) else cache[i]
  {
    seq(|cache|, i requires 0 <= i < |cache| => if For(cache[i], device, ino) then cache[i].(device := 0) else cache[i])
  }

  /** The entry at k replaced and moved to the front. */
  function ToFront(cache: seq<CacheEntry>, k: nat, e: CacheEntry): (c: seq<CacheEntry>)
    requires k < |cache|
    ensures |c| == |cache| && c[0] == e && forall x :: x in c ==> x == e || x in cache
  {
    [e] + cache[..k] + cache[k + 1..]
  }

  lemma AddKeepsOK(cache: seq<CacheEntry>, device: nat, start: map<nat, int>, fat: seq<int>, k: nat, e: CacheEntry)
    requires CacheOK(cache, device, start, fat) && EntryOK(e, device, start, fat) && k < |cache|
    ensures CacheOK(ToFront(cache, k, e), device, start, fat)
  {
    var c := ToFront(cache, k, e);
    forall i | 0 <= i < |c|
      ensures EntryOK(c[i], device, start, fat)
    {
      assert c[i] in c;
    }
  }

  /** No entry of a truthful cache can disagree about a position: the "FAT cache corruption" test fails. */
  lemma NoCorruption(cache: seq<CacheEntry>, device: nat, start: map<nat, int>, fat: seq<int>, ino: nat, f: nat, i: nat)
    requires CacheOK(cache, device, start, fat) && i < |cache| && For(cache[i], device, ino)
      && cache[i].fileCluster == f
    ensures ino in start && cache[i].diskCluster == Walk(fat, start[ino], f)
  {
    assert EntryOK(cache[i], device, start, fat);
  }

  // ---- files

  /** The files' chains are well formed and have no cluster in common. */
  ghost predicate Files(fat: seq<int>, start: map<nat, int>, chains: map<nat, seq<int>>) {
    && chains.Keys == start.Keys
    && (forall a :: a in start ==> Chain(fat, start[a], chains[a]))
    && AllApart(chains)
  }

  ghost predicate AllApart(chains: map<nat, seq<int>>) {
    forall a, b :: a in chains && b in chains && a != b ==> Apart(chains[a], chains[b])
  }

  ghost predicate Apart(x: seq<int>, y: seq<int>) {
    forall i, j :: 0 <= i < |x| && 0 <= j < |y| ==> x[i] != y[j]
  }

  ghost predicate Zeroed(fat: seq<int>, fat': seq<int>, ch: seq<int>) {
    |fat'| == |fat| && forall i :: 0 <= i < |fat| ==> fat'[i] == if i in ch then 0 else fat[i]
  }

  /** What fat_free leaves: the chain's first `skip` clusters with an end of file after them; the rest free. */
  ghost predicate Cut(fat: seq<int>, fat': seq<int>, ch: seq<int>, skip: nat)
    requires skip < |ch|
  {
    |fat'| == |fat| && forall i :: 0 <= i < |fat| ==>
      fat'[i] == if i in ch[skip..] then 0 else if skip > 0 && i == ch[skip - 1] then EOF else fat[i]
  }

  /** Freeing the tail of one file leaves every other file as it was. */
  lemma CutFiles(fat: seq<int>, fat': seq<int>, start: map<nat, int>, chains: map<nat, seq<int>>, ino: nat, skip: nat)
    requires Files(fat, start, chains) && ino in start && skip < |chains[ino]| && Cut(fat, fat', chains[ino], skip)
    ensures Files(fat', start[ino := if skip == 0 then 0 else start[ino]], chains[ino := chains[ino][..skip]])
  {
    hide Links, Apart, Cut;
    assert AllApart(chains) && Chain(fat, start[ino], chains[ino]);
    var ch := chains[ino];
    var start' := start[ino := if skip == 0 then 0 else start[ino]];
    var chains' := chains[ino := ch[..skip]];
    forall a | a in start'
      ensures Chain(fat', start'[a], chains'[a])
    {
      if a != ino {
        assert Apart(chains[a], ch);
        CutOther(fat, fat', start[a], chains[a], ch, skip);
      } else {
        CutChain(fat, fat', start[ino], ch, skip);
      }
    }
    ShorterApart(chains, ino, skip);
  }

  lemma ShorterApart(chains: map<nat, seq<int>>, ino: nat, skip: nat)
    requires ino in chains && skip <= |chains[ino]| && AllApart(chains)
    ensures AllApart(chains[ino := chains[ino][..skip]])
  {
    var chains' := chains[ino := chains[ino][..skip]];
    forall a, b | a in chains' && b in chains' && a != b
      ensures Apart(chains'[a], chains'[b])
    {
      assert Apart(chains[a], chains[b]);
    }
  }

  lemma LongerApart(chains: map<nat, seq<int>>, ino: nat, nr: int)
    requires ino in chains && AllApart(chains)
    requires forall a :: a in chains ==> Apart(chains[a], [nr])
    ensures AllApart(chains[ino := chains[ino] + [nr]])
  {
    var chains' := chains[ino := chains[ino] + [nr]];
    forall a, b | a in chains' && b in chains' && a != b
      ensures Apart(chains'[a], chains'[b])
    {
      assert Apart(chains[a], chains[b]) && Apart(chains[a], [nr]) && Apart(chains[b], [nr]);
      LongerSide(chains[a], chains[b], nr);
    }
  }

  lemma LongerSide(x: seq<int>, y: seq<int>, nr: int)
    requires Apart(x, y) && Apart(x, [nr]) && Apart(y, [nr])
    ensures Apart(x, y + [nr]) && Apart(x + [nr], y)
  {
    forall i | 0 <= i < |x|
      ensures x[i] != nr
    {
      assert x[i] != [nr][0];
    }
    forall i | 0 <= i < |y|
      ensures y[i] != nr
    {
      assert y[i] != [nr][0];
    }
  }

  lemma CutOther(fat: seq<int>, fat': seq<int>, start: int, other: seq<int>, ch: seq<int>, skip: nat)
    requires Chain(fat, start, other) && Apart(other, ch) && skip < |ch| && Cut(fat, fat', ch, skip)
    ensures Chain(fat', start, other)
  {
    ChainKept(fat, fat', start, other);
  }

  lemma CutChain(fat: seq<int>, fat': seq<int>, start: int, ch: seq<int>, skip: nat)
    requires Chain(fat, start, ch) && skip < |ch| && Cut(fat, fat', ch, skip)
    ensures Chain(fat', if skip == 0 then 0 else start, ch[..skip])
  {
    forall i | 0 <= i < skip
      ensures 2 <= ch[i] < |fat'| && fat'[ch[i]] == At(ch[..skip], i + 1)
    {
      var rest := ch[skip..];
      forall j | 0 <= j < |rest|
        ensures rest[j] != ch[i]
      {
        Distinct(fat, At(ch, 0), ch, i, skip + j);
      }
      assert ch[i] !in rest;
      if i < skip - 1 {
        Distinct(fat, At(ch, 0), ch, i, skip - 1);
      }
    }
  }

  /** What cut files say about the cache: entries of the other files stay true. */
  lemma CutCache(cache: seq<CacheEntry>, device: nat, fat: seq<int>, fat': seq<int>, start: map<nat, int>,
          start': map<nat, int>, chains: map<nat, seq<int>>, chains': map<nat, seq<int>>, ino: nat)
    requires Files(fat, start, chains) && Files(fat', start', chains') && CacheOK(cache, device, start, fat)
      && device > 0
    requires start'.Keys == start.Keys && forall a :: a in start && a != ino ==>
      start'[a] == start[a] && chains'[a] == chains[a]
    ensures CacheOK(Dropped(cache, device, ino), device, start', fat')
  {
    var c := Dropped(cache, device, ino);
    forall i | 0 <= i < |c|
      ensures EntryOK(c[i], device, start', fat')
    {
      var e := cache[i];
      assert EntryOK(e, device, start, fat);
      if e.device == device && e.ino != ino {
        ChainWalk(fat, start[e.ino], chains[e.ino], e.fileCluster);
        ChainWalk(fat', start'[e.ino], chains'[e.ino], e.fileCluster);
      }
    }
  }

  /** The table after a new cluster nr went to the end of chain ch. */
  function Appended(fat: seq<int>, ch: seq<int>, nr: int): (fat': seq<int>)
    requires 2 <= nr < |fat| && forall i :: 0 <= i < |ch| ==> 2 <= ch[i] < |fat|
    ensures |fat'| == |fat|
  {
    if ch == [] then fat[nr := EOF] else fat[nr := EOF][ch[|ch| - 1] := nr]
  }

  lemma AppendFiles(fat: seq<int>, start: map<nat, int>, chains: map<nat, seq<int>>, ino: nat, nr: int)
    requires Files(fat, start, chains) && ino in start && 2 <= nr < |fat| && fat[nr] == 0
    ensures Chain(fat, start[ino], chains[ino])
    ensures Files(Appended(fat, chains[ino], nr), start[ino := if start[ino] == 0 then nr else start[ino]],
      chains[ino := chains[ino] + [nr]])
  {
    assert AllApart(chains) && Chain(fat, start[ino], chains[ino]);
    assert forall i :: 0 <= i < |chains[ino]| ==> 2 <= chains[ino][i] < |fat|;
    hide Links, Apart, Appended;
    var ch := chains[ino];
    var fat' := Appended(fat, ch, nr);
    var start' := start[ino := if start[ino] == 0 then nr else start[ino]];
    var chains' := chains[ino := ch + [nr]];
    forall a | a in start
      ensures Apart(chains[a], [nr])
    {
      FreeInNone(fat, start[a], chains[a], nr);
    }
    forall a | a in start'
      ensures Chain(fat', start'[a], chains'[a])
    {
      if a != ino {
        assert Apart(chains[a], ch) && Apart(chains[a], [nr]);
        AppendOther(fat, start[a], chains[a], ch, nr);
      } else {
        AppendChain(fat, start[ino], ch, nr);
      }
    }
    LongerApart(chains, ino, nr);
  }

  lemma AppendOther(fat: seq<int>, start: int, other: seq<int>, ch: seq<int>, nr: int)
    requires Chain(fat, start, other) && Apart(other, ch) && Apart(other, [nr]) && 2 <= nr < |fat|
    requires forall i :: 0 <= i < |ch| ==> 2 <= ch[i] < |fat|
    ensures Chain(Appended(fat, ch, nr), start, other)
  {
    forall i | 0 <= i < |other|
      ensures other[i] != nr
    {
      assert other[i] != [nr][0];
    }
    ChainKept(fat, Appended(fat, ch, nr), start, other);
  }

  lemma FreeInNone(fat: seq<int>, start: int, ch: seq<int>, nr: int)
    requires Chain(fat, start, ch) && 2 <= nr < |fat| && fat[nr] == 0
    ensures forall i :: 0 <= i < |ch| ==> ch[i] != nr
    ensures Apart(ch, [nr])
  {
    forall i | 0 <= i < |ch|
      ensures ch[i] != nr
    {
      assert At(ch, i + 1) != 0;
    }
  }

  lemma AppendChain(fat: seq<int>, start: int, ch: seq<int>, nr: int)
    requires Chain(fat, start, ch) && 2 <= nr < |fat| && fat[nr] == 0
    ensures Chain(Appended(fat, ch, nr), if start == 0 then nr else start, ch + [nr])
  {
    FreeInNone(fat, start, ch, nr);
    var fat', ch' := Appended(fat, ch, nr), ch + [nr];
    forall i | 0 <= i < |ch'|
      ensures 2 <= ch'[i] < |fat'| && fat'[ch'[i]] == At(ch', i + 1)
    {
      if i < |ch| - 1 {
        Distinct(fat, At(ch, 0), ch, i, |ch| - 1);
      }
    }
  }

  /** New links put where there were none do not falsify the cache. */
  lemma CacheStable(cache: seq<CacheEntry>, device: nat, fat: seq<int>, fat': seq<int>, start: map<nat, int>,
          start': map<nat, int>)
    requires CacheOK(cache, device, start, fat)
    requires |fat'| == |fat| && forall i :: 0 <= i < |fat| && Next(fat, i) != 0 ==> fat'[i] == fat[i]
    requires start'.Keys == start.Keys && forall a :: a in start && start[a] != 0 ==> start'[a] == start[a]
    ensures CacheOK(cache, device, start', fat')
  {
    forall i | 0 <= i < |cache|
      ensures EntryOK(cache[i], device, start', fat')
    {
      var e := cache[i];
      assert EntryOK(e, device, start, fat);
      if e.device == device {
        WalkStable(fat, fat', start[e.ino], e.fileCluster);
      }
    }
  }

  lemma AppendCache(cache: seq<CacheEntry>, device: nat, fat: seq<int>, start: map<nat, int>, ch: seq<int>, ino: nat,
          nr: int)
    requires CacheOK(cache, device, start, fat) && ino in start && Chain(fat, start[ino], ch) && 2 <= nr < |fat|
      && fat[nr] == 0
    ensures CacheOK(cache, device, start[ino := if start[ino] == 0 then nr else start[ino]], Appended(fat, ch, nr))
  {
    CacheStable(cache, device, fat, Appended(fat, ch, nr), start,
      start[ino := if start[ino] == 0 then nr else start[ino]]);
  }

  lemma AppendZeros(fat: seq<int>, start: int, ch: seq<int>, nr: int)
    requires Chain(fat, start, ch) && 2 <= nr < |fat| && fat[nr] == 0
    ensures Zeros(Appended(fat, ch, nr), |fat|) == Zeros(fat, |fat|) - 1
  {
    ZerosUpdate(fat, |fat|, nr, EOF);
    if ch != [] {
      FreeInNone(fat, start, ch, nr);
      ZerosUpdate(fat[nr := EOF], |fat|, ch[|ch| - 1], nr);
    }
  }
}
