/** What huft_build promises about a list of code lengths: its return code, and exactly when
    looking strings up in its tables is the prefix decoding of section 3.2.2 of RFC 1951. */
module HuftResult {
  import opened BitStrings
  import opened Huffman
  import opened Canonical
  import opened HuftTables
  import opened HuftAdvance
  import opened HuftPlace
  import opened HuftWalk
  import opened Huft

  /** A string that starts with a symbol's code is decoded to that symbol.  Any other string is decoded to something,
      and to the invalid mark if the symbol list is read only where it was written. */
  ghost predicate DecodesAs(b: seq<nat>, s: nat, d: seq<nat>, e: seq<nat>, str: Bits, out: Outcome) {
    && (forall i: nat :: Matches(b, i, str) ==> out == Decoded(PayloadOf(s, d, e, i), b[i]))
    && ((forall i: nat :: !Matches(b, i, str)) ==> out.Decoded? && (Readable(b) ==> out.p == Invalid))
  }

  /** The symbol list is read only where it was written: the code is complete, or every symbol is used. */
  ghost predicate Readable(b: seq<nat>) {
    Complete(b) || forall i :: 0 <= i < |b| ==> b[i] != 0
  }

  /** One past the last codeword of k bits; the longest length is filled up with dummy codewords. */
  ghost function EndOf(b: seq<nat>, g: nat, k: nat): nat {
    if k == g then Pow2(g) else EndCode(b, k)
  }

  /** Some codeword is the first one behind a table boundary h * l past the root, and needs more than
      l further bits, or exactly l while its length runs out before the table is full. */
  ghost predicate Misfit(b: seq<nat>, g: nat, l: nat) {
    exists k: nat, val: nat, h: nat :: MisfitAt(b, g, l, k, val, h)
  }

  ghost predicate MisfitAt(b: seq<nat>, g: nat, l: nat, k: nat, val: nat, h: nat) {
    && 1 <= k <= g && FirstCode(b, k) <= val < EndOf(b, g, k)
    && 1 <= h && Mul(h, l) + l <= k
    && Low(val, k - Mul(h, l)) == 0
    && (Mul(h, l) + l < k || (k < g && Pow2(l) > EndCode(b, k) - val))
  }

  /** The counted code with its dummies is the code of the lengths. */
  ghost predicate CodeOf(c: Code<Payload>, b: seq<nat>) {
    && c.Full() && c.g <= BMAX
    && (forall k :: 1 <= k < c.g ==> c.cnt[k] == Count(b, k))
    && c.cnt[c.g] >= Count(b, c.g)
  }

  lemma {:induction false} CodeAgrees(c: Code<Payload>, b: seq<nat>, k: nat)
    requires CodeOf(c, b) && k <= c.g
    ensures c.First(k) == FirstCode(b, k) && c.Offset(k) == OffsetOf(b, k)
    ensures 1 <= k ==> c.End(k) == EndOf(b, c.g, k)
  {
    if k > 1 { CodeAgrees(c, b, k - 1); }
  }

  lemma WideIsMisfit(c: Code<Payload>, b: seq<nat>)
    requires CodeOf(c, b)
    ensures WideBefore(c, c.g, c.End(c.g)) <==> Misfit(b, c.g, c.l)
  {
    if WideBefore(c, c.g, c.End(c.g)) { WideMisfits(c, b); }
    if Misfit(b, c.g, c.l) { MisfitsWide(c, b); }
  }

  lemma WideMisfits(c: Code<Payload>, b: seq<nat>)
    requires CodeOf(c, b) && WideBefore(c, c.g, c.End(c.g))
    ensures Misfit(b, c.g, c.l)
  {
    hide Mul, Low, Pow2;
    var k: nat, val: nat :| 1 <= k <= c.g && c.First(k) <= val < c.End(k) && TooWide(c, k, val);
    var h: nat :| TooWideAt(c, k, val, h);
    CodeAgrees(c, b, k);
    assert MisfitAt(b, c.g, c.l, k, val, h);
  }

  lemma MisfitsWide(c: Code<Payload>, b: seq<nat>)
    requires CodeOf(c, b) && Misfit(b, c.g, c.l)
    ensures WideBefore(c, c.g, c.End(c.g))
  {
    hide Mul, Low, Pow2;
    var k: nat, val: nat, h: nat :| MisfitAt(b, c.g, c.l, k, val, h);
    CodeAgrees(c, b, k);
    assert TooWideAt(c, k, val, h);
    assert TooWide(c, k, val);
  }

  /** The tables belong to the lengths: codeword p stands for the p-th symbol in sorted order. */
  ghost predicate PaysFor(c: Code<Payload>, b: seq<nat>, v: seq<nat>, s: nat, d: seq<nat>, e: seq<nat>) {
    && |b| <= |v| && Sorted(b, v, |b|)
    && forall p :: 0 <= p < |c.pay| ==> c.pay[p] == Slotted(v, |b|, s, d, e, p)
  }

  /** A codeword is the code of a symbol, or one of the dummies at the end. */
  lemma WordMeans(c: Code<Payload>, b: seq<nat>, v: seq<nat>, s: nat, d: seq<nat>, e: seq<nat>, word: Bits, q: nat,
          str: Bits)
    requires CodeOf(c, b) && PaysFor(c, b, v, s, d, e) && MaxLength(b) == c.g
    requires c.IsWord(word, q) && q < |c.pay| && word <= str
    ensures DecodesAs(b, s, d, e, str, Decoded(c.pay[q], |word|))
  {
    hide Low, Mul, Pow2, Position, PaysFor, PayloadOf, Readable;
    forall i: nat | Matches(b, i, str)
      ensures Decoded(c.pay[q], |word|) == Decoded(PayloadOf(s, d, e, i), b[i])
    {
      SymbolMeans(c, b, v, s, d, e, word, q, str, i);
    }
    if (forall i: nat :: !Matches(b, i, str)) && Readable(b) {
      NoSymbolMeans(c, b, v, s, d, e, word, q, str);
    }
  }

  lemma SymbolMeans(c: Code<Payload>, b: seq<nat>, v: seq<nat>, s: nat, d: seq<nat>, e: seq<nat>, word: Bits, q: nat,
                    str: Bits, i: nat)
    requires CodeOf(c, b) && PaysFor(c, b, v, s, d, e) && MaxLength(b) == c.g && Matches(b, i, str)
    requires c.IsWord(word, q) && q < |c.pay| && word <= str
    ensures |word| == b[i] && c.pay[q] == PayloadOf(s, d, e, i)
  {
    hide Low, Mul, Pow2, Position, Count, Readable;
    MatchIsWord(c, b, i, str, word, q);
    CodeAgrees(c, b, b[i]);
    PlaceOfSymbol(b, i);
    assert q == PlaceOf(b, i);
  }

  lemma NoSymbolMeans(c: Code<Payload>, b: seq<nat>, v: seq<nat>, s: nat, d: seq<nat>, e: seq<nat>, word: Bits, q: nat,
                      str: Bits)
    requires CodeOf(c, b) && PaysFor(c, b, v, s, d, e) && MaxLength(b) == c.g && Readable(b)
    requires c.IsWord(word, q) && q < |c.pay| && word <= str && forall i: nat :: !Matches(b, i, str)
    ensures c.pay[q] == Invalid
  {
    hide Low, Mul, Pow2, Position, Readable;
    var k := |word|;
    CodeAgrees(c, b, k);
    LowRankMatches(c, b, word, q, str);
    DummyWord(c, b, k, q);
  }

  /** A codeword of low rank among those of its length is a symbol's code. */
  lemma LowRankMatches(c: Code<Payload>, b: seq<nat>, word: Bits, q: nat, str: Bits)
    requires CodeOf(c, b) && c.IsWord(word, q) && word <= str
    ensures BE(word) - c.First(|word|) < Count(b, |word|) ==> exists i: nat :: Matches(b, i, str)
  {
    hide Low, Mul, Pow2, Position;
    var k := |word|;
    CodeAgrees(c, b, k);
    if BE(word) - c.First(k) < Count(b, k) {
      var i := SymbolOfRank(b, k, BE(word) - c.First(k));
      assert str[..k] == word;
      assert Matches(b, i, str);
    }
  }

  /** Dummies come after all symbols, and only when no symbol is unused. */
  lemma {:induction false} DummyWord(c: Code<Payload>, b: seq<nat>, k: nat, q: nat)
    requires CodeOf(c, b) && Readable(b) && MaxLength(b) == c.g && 1 <= k <= c.g
    requires q >= OffsetOf(b, k) + Count(b, k) && c.cnt[k] > Count(b, k)
    ensures k == c.g && q >= |b|
  {
    hide Low, Mul, KraftSum, Pow2, MaxLength;
    CodeAgrees(c, b, c.g);
    KraftAtMax(b, c.g);
    OffsetBound(b, c.g + 1);
    LongestIs(b);
  }

  lemma LongestIs(b: seq<nat>)
    ensures forall i :: 0 <= i < |b| ==> b[i] <= MaxLength(b)
  {
  }

  lemma MatchIsWord(c: Code<Payload>, b: seq<nat>, i: nat, str: Bits, word: Bits, q: nat)
    requires CodeOf(c, b) && MaxLength(b) == c.g
    requires Matches(b, i, str) && c.IsWord(word, q) && word <= str
    ensures |word| == b[i] && word == str[..b[i]] && BE(word) < FirstCode(b, b[i]) + Count(b, b[i])
  {
    hide Low, Mul, Pow2, Position;
    var k := b[i];
    var mine := str[..k];
    CodeAgrees(c, b, k);
    CountPrefix(b, i, k);
    var q' := c.Offset(k) + BE(mine) - c.First(k);
    assert c.IsWord(mine, q');
    c.WordUnique(mine, q', word, q, str);
    assert str[..|word|] == word;
  }

  /** The theorem about the tables: lookup is prefix decoding if and only if no table is too wide. */
  lemma TablesDecode(c: Code<Payload>, b: seq<nat>, v: seq<nat>, s: nat, d: seq<nat>, e: seq<nat>, tabs: Tables,
          info: seq<Node>)
    requires CodeOf(c, b) && PaysFor(c, b, v, s, d, e) && MaxLength(b) == c.g
    requires Finished(c, tabs, info) && |tabs| > 0
    requires Oversized(c, info) <==> Misfit(b, c.g, c.l)
    ensures (forall str: Bits :: |str| >= c.g ==> DecodesAs(b, s, d, e, str, Lookup(tabs, 0, c.l, str, 0)))
            <==> !Misfit(b, c.g, c.l)
  {
    hide Misfit, DecodesAs, Lookup, Readable, PaysFor;
    if Oversized(c, info) {
      var str := WalkSticks(c, tabs, info);
      assert !DecodesAs(b, s, d, e, str, Lookup(tabs, 0, c.l, str, 0)) by { NotStuck(b, s, d, e, str); }
    } else {
      FilledHasNoHole(c, tabs, info);
      assert NodeOK(c, info, 0);
      forall str: Bits | |str| >= c.g
        ensures DecodesAs(b, s, d, e, str, Lookup(tabs, 0, c.l, str, 0))
      {
        var word, q := WalkDecodes(c, tabs, info, 0, str);
        WordMeans(c, b, v, s, d, e, word, q, str);
      }
    }
  }

  lemma NotStuck(b: seq<nat>, s: nat, d: seq<nat>, e: seq<nat>, str: Bits)
    ensures !DecodesAs(b, s, d, e, str, Stuck)
  {
  }

  lemma {:induction false} CountAll(b: seq<nat>, k: nat)
    ensures Count(b, k) <= |b|
    ensures Count(b, k) == |b| ==> forall i :: 0 <= i < |b| ==> b[i] == k
  {
    if b != [] { CountAll(b[..|b| - 1], k); }
  }

  lemma {:induction false} AllZero(b: seq<nat>)
    requires Count(b, 0) == |b|
    ensures MaxLength(b) == 0 && KraftSum(b) == 0
  {
    CountAll(b, 0);
    if b != [] { AllZero(b[..|b| - 1]); }
  }

  /** The shortest and the longest length in use (zBoot/inflate.c:148-162). */
  method Extremes(b: seq<nat>, c: array<nat>) returns (j: nat, i: nat)
    requires c.Length == BMAX + 1 && forall k :: 0 <= k <= BMAX ==> c[k] == Count(b, k)
    requires c[0] != |b| && forall t :: 0 <= t < |b| ==> b[t] <= BMAX
    ensures 1 <= j <= i <= BMAX && i == MaxLength(b) && c[j] > 0 && c[i] > 0
    ensures forall k :: 1 <= k < j ==> c[k] == 0
  {
    var g := UsedLength(b);
    j := 1;
    while j <= BMAX && c[j] == 0
      invariant 1 <= j <= g
      invariant forall k :: 1 <= k < j ==> c[k] == 0
    {
      j := j + 1;
    }
    i := BMAX;
    while i > 0 && c[i] == 0
      invariant g <= i <= BMAX
    {
      CountPositive(b, i);
      i := i - 1;
    }
    CountPositive(b, i);
  }

  lemma UsedLength(b: seq<nat>) returns (g: nat)
    requires Count(b, 0) != |b| && forall t :: 0 <= t < |b| ==> b[t] <= BMAX
    ensures 1 <= g <= BMAX && g == MaxLength(b) && Count(b, g) > 0
  {
    g := MaxLength(b);
    NotAllZero(b);
    CountPositive(b, g);
  }

  lemma {:induction false} NotAllZero(b: seq<nat>)
    requires Count(b, 0) != |b|
    ensures MaxLength(b) > 0
  {
    if b[|b| - 1] == 0 { NotAllZero(b[..|b| - 1]); }
  }

  lemma {:induction false} NoneShorter(b: seq<nat>, j: nat)
    requires forall k :: 1 <= k < j ==> Count(b, k) == 0
    ensures FirstCode(b, j) == 0
  {
    if j > 1 { NoneShorter(b, j - 1); }
  }

  lemma NothingShorter(b: seq<nat>, j: nat)
    requires forall k :: 1 <= k < j ==> Count(b, k) == 0
    ensures forall i :: 0 <= i < |b| ==> b[i] == 0 || b[i] >= j
  {
    forall i | 0 <= i < |b|
      ensures b[i] == 0 || b[i] >= j
    {
      CountPositive(b, b[i]);
    }
  }

  /** The room left at the longest length, negative when a length has too many codes
      (zBoot/inflate.c:166-172). */
  method RoomLeft(b: seq<nat>, c: array<nat>, j0: nat, g: nat) returns (y: int)
    requires c.Length == BMAX + 1 && forall k :: 0 <= k <= BMAX ==> c[k] == Count(b, k)
    requires 1 <= j0 <= g <= BMAX && MaxLength(b) == g
    requires forall k :: 1 <= k < j0 ==> c[k] == 0
    ensures y < 0 <==> Oversubscribed(b)
    ensures y >= 0 ==> y == Pow2(g) - EndCode(b, g)
  {
    hide KraftSum;
    var j := j0;
    y := Pow2(j);
    NoneShorter(b, j);
    KraftAtMax(b, g);
    while j < g
      invariant j0 <= j <= g && y == Pow2(j) - FirstCode(b, j)
    {
      y := y - c[j];
      if y < 0 {
        OverflowSticks(b, j, g);
        return;
      }
      j := j + 1;
      y := 2 * y;
    }
    y := y - c[g];
  }

  lemma CodeIsFull(c: Code<Payload>, b: seq<nat>, y: int)
    requires 1 <= c.l <= c.g <= BMAX && c.g == MaxLength(b) && Count(b, c.g) > 0
    requires |c.cnt| == c.g + 1 && forall k :: 1 <= k <= c.g ==> c.cnt[k] == Count(b, k) + if k == c.g then y else 0
    requires y == Pow2(c.g) - EndCode(b, c.g) && y >= 0
    requires |c.pay| == OffsetOf(b, c.g) + c.cnt[c.g]
    ensures CodeOf(c, b)
  {
    hide Pow2;
    forall k | 1 <= k < c.g
      ensures c.RoomAfter(k)
    {
      RoomBelow(b, k, c.g);
      SameBelow(c, b, k);
    }
    SameBelow(c, b, c.g);
  }

  lemma {:induction false} SameBelow(c: Code<Payload>, b: seq<nat>, k: nat)
    requires k <= c.g < |c.cnt| && forall k :: 1 <= k < c.g ==> c.cnt[k] == Count(b, k)
    ensures c.First(k) == FirstCode(b, k) && c.Offset(k) == OffsetOf(b, k)
  {
    if k > 1 { SameBelow(c, b, k - 1); }
  }

  /** Return code and tables of huft_build.  `bits` is the number of bits the root table is looked
      up with; the status is 2 exactly when the lengths ask for more codes than there are, 1 when
      they leave codes unused (unless the only length is 1), and 0 otherwise. */
  method HuftBuild(b: seq<nat>, s: nat, d: seq<nat>, e: seq<nat>, m: nat) returns (status: nat, tabs: Tables, bits: nat)
    requires 0 < |b| <= N_MAX && forall i :: 0 <= i < |b| ==> b[i] <= BMAX
    ensures status == 2 <==> Oversubscribed(b)
    ensures status == 1 <==> MaxLength(b) > 1 && !Oversubscribed(b) && !Complete(b)
    ensures status <= 2
    ensures MaxLength(b) == 0 ==> tabs == [] && bits == 0
    ensures MaxLength(b) > 0 && status != 2 ==>
      && |tabs| > 0 && 1 <= bits <= MaxLength(b) && Sound(tabs, 0, 0, bits) && (bits == MaxLength(b) ==> |tabs| == 1)
      && (exists i :: 0 <= i < |b| && 0 < b[i] <= bits)
      && (bits == m || bits == MaxLength(b) || (bits > m && forall i :: 0 <= i < |b| ==> b[i] == 0 || b[i] >= bits))
    ensures MaxLength(b) > 0 && status != 2 ==>
      ((forall str: Bits :: |str| >= MaxLength(b) ==> DecodesAs(b, s, d, e, str, Lookup(tabs, 0, bits, str, 0)))
       <==> !Misfit(b, MaxLength(b), bits))
  {
    hide KraftSum, Count, Lookup, DecodesAs, Misfit, Readable, EndCode, Pow2, Sound;
    var c := CountLengths(b);
    var n := |b|;
    if c[0] == n {
      AllZero(b);
      return 0, [], 0;
    }
    assert MaxLength(b) > 0 by { NotAllZero(b); }
    var j, i := Extremes(b, c);
    CountPositive(b, j);
    NothingShorter(b, j);
    KraftAtMax(b, i);
    var l := m;
    if l < j { l := j; }
    if l > i { l := i; }
    var y := RoomLeft(b, c, j, i);
    if y < 0 {
      return 2, [], 0;
    }
    tabs := DecodingTables(b, c, s, d, e, j, i, l, y);
    status := if y != 0 && i != 1 then 1 else 0;
    bits := l;
  }

  lemma BuiltSound(c: Code<Payload>, tabs: Tables, info: seq<Node>)
    requires Finished(c, tabs, info) && c.g <= BMAX
    ensures |tabs| > 0 && Sound(tabs, 0, 0, c.l) && (c.l == c.g ==> |tabs| == 1)
  {
    hide Sound, Filled;
    assert NodeOK(c, info, 0);
    TablesSound(c, tabs, info, 0);
    if c.l == c.g { OneTable(c, tabs, info); }
  }

  /** Fill out the longest length with dummies, sort the symbols and build the tables. */
  method DecodingTables(b: seq<nat>, c: array<nat>, s: nat, d: seq<nat>, e: seq<nat>, j: nat, g: nat, l: nat, y: int)
    returns (tabs: Tables)
    requires 0 < |b| <= N_MAX && forall i :: 0 <= i < |b| ==> b[i] <= BMAX
    requires c.Length == BMAX + 1 && forall k :: 0 <= k <= BMAX ==> c[k] == Count(b, k)
    requires 1 <= j <= g <= BMAX && 1 <= l <= g && g == MaxLength(b) && c[g] > 0
    requires forall k :: 1 <= k < j ==> c[k] == 0
    requires y >= 0 && y == Pow2(g) - EndCode(b, g)
    modifies c
    ensures |tabs| > 0 && Sound(tabs, 0, 0, l) && (l == g ==> |tabs| == 1)
    ensures
      ((forall str: Bits :: |str| >= g ==> DecodesAs(b, s, d, e, str, Lookup(tabs, 0, l, str, 0)))
       <==> !Misfit(b, g, l))
  {
    hide KraftSum, Count, Lookup, DecodesAs, Misfit, Readable, Oversized, Pow2, EndCode, MaxLength, Sound;
    var v := SortSymbols(b, c, g);
    c[g] := c[g] + y;
    var cnt := c[..g + 1];
    ghost var vs := v[..];
    ghost var code := Code(g, l, cnt, seq(OffsetOf(b, g) + cnt[g], p requires p >= 0 => Slotted(vs, |b|, s, d, e, p)));
    CodeIsFull(code, b, y);
    ghost var info;
    tabs, info := BuildTables(cnt, v[..], |b|, s, d, e, j, g, l, code);
    WideIsMisfit(code, b);
    BuiltSound(code, tabs, info);
    TablesDecode(code, b, vs, s, d, e, tabs, info);
  }
}
