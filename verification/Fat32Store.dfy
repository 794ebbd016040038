/** Storing a file on a well-formed volume, stage by stage. */
module Fat32Store {
  import opened Bytes
  import opened DataBlocks
  import opened Chains
  import opened LongNames
  import opened Directory
  import opened Fat32Volume
  import opened Fat32Layout
  import opened Fat32Slots
  import opened Fat32Files
  import opened Fat32Live

  // ----- stage 1: the directory grows -----

  lemma {:induction false} GrownApart(t: seq<nat>, g: Geometry, L: Layout, d: nat, ext: seq<nat>, s: nat)
    requires ChainsOk(t, g, L) && d in L && s in L && s != d
    requires forall c :: c in ext ==> c < |t| && t[c] == 0
    ensures Disjoint(L[s], L[d] + ext) && Disjoint(L[d] + ext, L[s])
    ensures forall c :: c in L[s] ==> c !in ext && c != L[d][|L[d]| - 1]
  {
    forall c | c in L[s] ensures c !in ext && c !in L[d] {
      ChainNotFree(t, L[s], g.Top(), EOF, c);
    }
    LiveInRange(t, g, L, d);
    assert L[d][|L[d]| - 1] in L[d];
  }

  lemma {:induction false} GrownChains(image: seq<byte>, t: seq<nat>, image': seq<byte>, t': seq<nat>, chain': seq<nat>,
                                       lba: int, g: Geometry, L: Layout, d: nat)
    requires Fits(g, lba, |image|) && ChainsOk(t, g, L) && d in L && L[d] != []
    requires Grown(image, t, L[d], image', t', chain', lba, g)
    ensures ChainsOk(t', g, L[d := chain'])
    ensures forall s :: s in L && s != d ==> InRange(g, L[s]) && SameBlocks(image, image', lba, g, L[s])
  {
    hide IsChain, Touches, SameBlocks, Block, FreeCount, Fits, InRange, Distinct;
    var chain, ext := L[d], chain'[|L[d]|..];
    assert chain' == chain + ext;
    var L' := L[d := chain'];
    assert chain'[0] == chain[0] == d;
    forall s | s in L && s != d
      ensures IsChain(t', L[s], g.Top(), EOF) && Disjoint(L[s], chain') && Disjoint(chain', L[s])
      ensures InRange(g, L[s]) && SameBlocks(image, image', lba, g, L[s])
    {
      GrownApart(t, g, L, d, ext, s);
      LiveInRange(t, g, L, s);
      ChainFrame(t, t', L[s], g.Top(), EOF);
      TouchesSameBlocks(image, image', lba, g, SetOf(ext), L[s]);
    }
    forall s, u | s in L' && u in L' && s != u ensures Disjoint(L'[s], L'[u]) {
    }
  }

  lemma {:induction false} GrownNoLeaks(image: seq<byte>, t: seq<nat>, image': seq<byte>, t': seq<nat>,
                                        chain': seq<nat>, lba: int, g: Geometry, L: Layout, d: nat)
    requires Fits(g, lba, |image|) && d in L && L[d] != [] && Grown(image, t, L[d], image', t', chain', lba, g)
    ensures g.Top() <= |t| && g.Top() <= |t'| && (NoLeaks(t, g, L) ==> NoLeaks(t', g, L[d := chain']))
  {
    hide IsChain, Touches, Block, FreeCount, Fits;
    var L', ext := L[d := chain'], chain'[|L[d]|..];
    if NoLeaks(t, g, L) {
      forall c | 2 <= c < g.Top() && t'[c] != 0 ensures exists s :: s in L' && c in L'[s] {
        if c in ext || c == L[d][|L[d]| - 1] {
          assert c in chain' && c in L'[d];
        } else {
          var s :| s in L && c in L[s];
          assert c in L'[s] by { if s == d { assert c in chain'; } }
        }
      }
    }
  }

  /** Growing a directory keeps the volume well formed and everything it lists. */
  lemma {:induction false} GrownLive(image: seq<byte>, t: seq<nat>, image': seq<byte>, t': seq<nat>, chain': seq<nat>,
                                     lba: int, g: Geometry, dirs: set<nat>, L: Layout, d: nat)
    requires Fits(g, lba, |image|) && Live(image, lba, g, t, dirs, L) && d in dirs && d in L && L[d] != []
    requires Grown(image, t, L[d], image', t', chain', lba, g) && |image'| == |image| && InRange(g, chain')
    requires InRange(g, L[d])
    requires TailZero(DirSlots(image', lba, g, chain'))
    requires Records(DirSlots(image', lba, g, chain')) == Records(DirSlots(image, lba, g, L[d]))
    ensures Live(image', lba, g, t', dirs, L[d := chain'])
    ensures ListingOf(image', lba, g, dirs, L[d := chain']) == ListingOf(image, lba, g, dirs, L)
  {
    hide *;
    LiveParts(image, lba, g, t, dirs, L);
    var L', R := L[d := chain'], ListingOf(image, lba, g, dirs, L);
    GrownChains(image, t, image', t', chain', lba, g, L, d);
    assert L'.Keys == L.Keys;
    GrownDirs(g, dirs, L, d, chain');
    forall e | e in dirs
      ensures e in L' && InRange(g, L'[e]) && TailZero(DirSlots(image', lba, g, L'[e]))
      ensures Records(DirSlots(image', lba, g, L'[e])) == R[e]
    {
      LiveChain(image, lba, g, t, dirs, L, e);
      if e != d { DirSlotsFrame(image, image', lba, g, L[e]); }
    }
    LiveFrom(image', lba, g, t', dirs, L', R);
  }

  lemma {:induction false} GrownDirs(g: Geometry, dirs: set<nat>, L: Layout, d: nat, chain': seq<nat>)
    requires DirsIn(g, dirs, L) && InRange(g, chain')
    ensures DirsIn(g, dirs, L[d := chain'])
  {
  }

  // ----- stage 2: the data clusters are linked and filled -----

  lemma {:induction false} LinkFatTable(fat: seq<byte>, cs: seq<nat>, n: nat)
    requires n <= |cs| && forall i :: 0 <= i < |cs| ==> 4 * cs[i] + 4 <= |fat| && cs[i] <= EOF
    ensures Table(LinkFat(fat, cs, n)) == Link(Table(fat), cs, n, EOF)
    decreases n
  {
    hide Table, SetEntry;
    if n > 0 {
      LinkFatTable(fat, cs, n - 1);
      TableSet(LinkFat(fat, cs, n - 1), cs[n - 1], Successor(cs, n - 1, EOF));
      assert Successor(cs, n - 1, EOF) <= EOF;
    }
  }

  lemma {:induction false} PutDataUnfold(image: seq<byte>, lba: int, g: Geometry, cs: seq<nat>, data: seq<byte>, n: nat)
    requires Fits(g, lba, |image|) && InRange(g, cs) && 0 < n <= |cs|
    ensures 2 <= cs[n - 1] < g.Top()
    ensures PutData(image, lba, g, cs, data, 0) == image
    ensures PutData(image, lba, g, cs, data, n)
            == PutBlock(PutData(image, lba, g, cs, data, n - 1), lba, g, cs[n - 1],
                        DataBlock(data, g.BlockBytes(), n - 1))
  {
    hide PutBlock, DataBlock, Fits;
  }

  lemma {:induction false} PutDataNone(image: seq<byte>, lba: int, g: Geometry, cs: seq<nat>, data: seq<byte>)
    requires Fits(g, lba, |image|) && InRange(g, cs)
    ensures PutData(image, lba, g, cs, data, 0) == image
  {
  }

  lemma {:induction false} PutDataTouches(image: seq<byte>, lba: int, g: Geometry, cs: seq<nat>, data: seq<byte>,
                                          n: nat)
    requires Fits(g, lba, |image|) && InRange(g, cs) && n <= |cs|
    ensures Touches(image, PutData(image, lba, g, cs, data, n), lba, g, SetOf(cs))
    decreases n
  {
    hide *;
    PutDataNone(image, lba, g, cs, data);
    if n == 0 {
      TouchesNothing(image, lba, g);
      TouchesMore(image, image, lba, g, {}, SetOf(cs));
    } else {
      PutDataTouches(image, lba, g, cs, data, n - 1);
      PutDataUnfold(image, lba, g, cs, data, n);
      var before := PutData(image, lba, g, cs, data, n - 1);
      PutBlockReads(before, lba, g, cs[n - 1], DataBlock(data, g.BlockBytes(), n - 1));
      var after := PutData(image, lba, g, cs, data, n);
      assert {cs[n - 1]} <= SetOf(cs) by { InSetOf(cs, n - 1); }
      TouchesMore(before, after, lba, g, {cs[n - 1]}, SetOf(cs));
      TouchesTrans(image, before, after, lba, g, SetOf(cs), SetOf(cs));
      assert SetOf(cs) + SetOf(cs) == SetOf(cs);
    }
  }

  lemma {:induction false} InSetOf(cs: seq<nat>, i: nat)
    requires i < |cs|
    ensures cs[i] in SetOf(cs)
  {
  }

  lemma {:induction false} PutDataBlock(image: seq<byte>, lba: int, g: Geometry, cs: seq<nat>, data: seq<byte>, n: nat,
                                        i: nat)
    requires Fits(g, lba, |image|) && InRange(g, cs) && Distinct(cs) && i < n <= |cs|
    ensures 2 <= cs[i] < g.Top()
    ensures Block(PutData(image, lba, g, cs, data, n), lba, g, cs[i]) == DataBlock(data, g.BlockBytes(), i)
    decreases n
  {
    hide Fits, PutBlock, Block, PutData, DataBlock, FatImage, SameOutside;
    PutDataUnfold(image, lba, g, cs, data, n);
    var before := PutData(image, lba, g, cs, data, n - 1);
    PutBlockReads(before, lba, g, cs[n - 1], DataBlock(data, g.BlockBytes(), n - 1));
    if i < n - 1 {
      PutDataBlock(image, lba, g, cs, data, n - 1, i);
      assert cs[i] != cs[n - 1];
    }
  }

  /** The blocks from `i` on, read back to back, are the data from there on, padded. */
  lemma {:induction false} BlocksOfData(image: seq<byte>, lba: int, g: Geometry, cs: seq<nat>, data: seq<byte>, i: nat)
    requires Fits(g, lba, |image|) && i <= |cs| && InRange(g, cs) && InRange(g, cs[i..])
    requires forall k :: 0 <= k < |cs| ==> Block(image, lba, g, cs[k]) == DataBlock(data, g.BlockBytes(), k)
    ensures Blocks(image, lba, g, cs[i..]) == PaddedFrom(data, g.BlockBytes(), i, |cs|)
    decreases |cs| - i
  {
    hide Fits, Block, DataBlock;
    if i < |cs| {
      assert cs[i..][1..] == cs[i + 1..] && cs[i..][0] == cs[i];
      BlocksOfData(image, lba, g, cs, data, i + 1);
    }
  }

  /** Reading the clusters just filled gives the data, whatever its length. */
  lemma {:induction false} FilledReads(image: seq<byte>, lba: int, g: Geometry, cs: seq<nat>, data: seq<byte>)
    requires Fits(g, lba, |image|) && InRange(g, cs) && Distinct(cs) && g.BlockBytes() > 0
    requires |cs| == Needed(|data|, g.BlockBytes())
    ensures var bytes := Blocks(PutData(image, lba, g, cs, data, |cs|), lba, g, cs);
            |bytes| >= |data| && bytes[..|data|] == data
  {
    var image' := PutData(image, lba, g, cs, data, |cs|);
    forall k | 0 <= k < |cs| ensures Block(image', lba, g, cs[k]) == DataBlock(data, g.BlockBytes(), k) {
      PutDataBlock(image, lba, g, cs, data, |cs|, k);
    }
    hide Fits, PutData, Block, DataBlock, Blocks, PaddedFrom, Needed, Span;
    assert cs[0..] == cs;
    BlocksOfData(image', lba, g, cs, data, 0);
    NeededCovers(|data|, g.BlockBytes());
    PaddedIsData(data, g.BlockBytes(), 0, |cs|);
    assert data[Span(0, g.BlockBytes())..] == data;
  }

  /** Clusters that were free are on no live chain, so filling and linking them disturbs none. */
  lemma {:induction false} FreshKeeps(image: seq<byte>, t: seq<nat>, image': seq<byte>, t': seq<nat>, lba: int,
                                      g: Geometry, L: Layout, cs: seq<nat>)
    requires Fits(g, lba, |image|) && ChainsOk(t, g, L) && |t'| == |t|
    requires forall c :: c in cs ==> c < |t| && t[c] == 0
    requires Touches(image, image', lba, g, SetOf(cs)) && |image'| == |image|
    requires forall c :: 0 <= c < |t| && c !in cs ==> t'[c] == t[c]
    ensures KeepsLive(image, t, image', t', lba, g, L)
    ensures forall s :: s in L ==> Disjoint(cs, L[s]) && Disjoint(L[s], cs)
  {
    hide ChainsOk, Touches, SameBlocks, Fits, InRange;
    forall s | s in L
      ensures InRange(g, L[s]) && SameBlocks(image, image', lba, g, L[s])
      ensures forall c :: c in L[s] ==> 0 <= c < |t| && c !in cs && t'[c] == t[c]
    {
      LiveInRange(t, g, L, s);
      forall c | c in L[s] ensures 0 <= c < |t| && c !in cs {
        InLive(t, g, L, s, c);
        if c in cs { FreeNotLive(t, g, L, c); }
      }
      TouchesSameBlocks(image, image', lba, g, SetOf(cs), L[s]);
    }
  }

  /** A new chain over clusters no live chain uses. */
  function AddChain(L: Layout, cs: seq<nat>): Layout {
    if cs == [] then L else L[cs[0] := cs]
  }

  lemma {:induction false} HeadOnChain(t: seq<nat>, g: Geometry, L: Layout, s: nat)
    requires ChainsOk(t, g, L) && s in L
    ensures s in L[s]
  {
    LiveInRange(t, g, L, s);
    assert L[s][0] in L[s];
  }

  lemma {:induction false} AddedChain(t: seq<nat>, g: Geometry, L: Layout, cs: seq<nat>)
    requires ChainsOk(t, g, L) && (cs != [] ==> IsChain(t, cs, g.Top(), EOF))
    requires forall s :: s in L ==> Disjoint(cs, L[s]) && Disjoint(L[s], cs)
    ensures ChainsOk(t, g, AddChain(L, cs))
    ensures cs != [] ==> cs[0] !in L && cs[0] >= 2
  {
    hide IsChain;
    if cs != [] {
      assert cs[0] in cs;
      if cs[0] in L { HeadOnChain(t, g, L, cs[0]); }
      assert 2 <= cs[0] by { ChainNotFree(t, cs, g.Top(), EOF, cs[0]); }
    }
  }

  lemma {:induction false} AddedNoLeaks(t: seq<nat>, t': seq<nat>, g: Geometry, L: Layout, cs: seq<nat>)
    requires g.Top() <= |t| && |t'| == |t| && (cs != [] ==> cs[0] !in L)
    requires forall c :: 0 <= c < |t| && c !in cs ==> t'[c] == t[c]
    ensures NoLeaks(t, g, L) ==> NoLeaks(t', g, AddChain(L, cs))
  {
    var L' := AddChain(L, cs);
    if NoLeaks(t, g, L) {
      forall c | 2 <= c < g.Top() && t'[c] != 0 ensures exists s :: s in L' && c in L'[s] {
        if c in cs {
          assert c in L'[cs[0]];
        } else {
          var s :| s in L && c in L[s];
          assert s in L' && c in L'[s];
        }
      }
    }
  }

  // ----- stage 3: the entries are written -----

  lemma {:induction false} ShortEntryFields(alias: seq<byte>, first: nat, size: nat)
    requires |alias| == 11 && alias[0] !in {0, DELETED} && size < 0x1_0000_0000 && first < 0x1_0000_0000
    ensures var s := ShortEntry(alias, first, size);
            && s[..11] == alias && s[11] == ATTR_ARCHIVE && Short(Slot(0, s))
            && U16(s, 20) * 0x1_0000 + U16(s, 26) == first && U32(s, 28) == size
  {
    var s := ShortEntry(alias, first, size);
    var high, low, length := Le16(first / 0x1_0000), Le16(first % 0x1_0000), Le32(size);
    hide Le16, Le32;
    assert s == alias + [ATTR_ARCHIVE] + Fill(0, 8) + high + Fill(0, 4) + low + length;
    assert s[20] == high[0] && s[21] == high[1] && s[26] == low[0] && s[27] == low[1];
    assert s[28] == length[0] && s[29] == length[1] && s[30] == length[2] && s[31] == length[3];
    assert s[0] == alias[0] && s[11] == ATTR_ARCHIVE;
  }

  /** The directory entries after the run is written. */
  lemma {:induction false} WrittenSlots(image: seq<byte>, lba: int, g: Geometry, chain: seq<nat>, start: nat,
                                        raws: seq<seq<byte>>)
    requires Fits(g, lba, |image|) && InRange(g, chain) && Distinct(chain) && Whole(raws)
    requires start + |raws| <= |Offsets(lba, g, chain)|
    ensures var offs := Offsets(lba, g, chain);
            var run := offs[start..start + |raws|];
            && InImage(run, |image|)
            && DirSlots(PutEntries(image, run, raws, |raws|), lba, g, chain)
               == DirSlots(image, lba, g, chain)[..start] + SlotsOf(run, raws)
                   + DirSlots(image, lba, g, chain)[start + |raws|..]
            && Touches(image, PutEntries(image, run, raws, |raws|), lba, g, SetOf(chain))
  {
    var offs := Offsets(lba, g, chain);
    var run := offs[start..start + |raws|];
    OffsetsInImage(lba, g, chain, |image|);
    assert AllApart(offs) by {
      hide Offsets, Apart;
      forall i, j | 0 <= i < j < |offs| ensures Apart(offs[i], offs[j]) { OffsetsApart(lba, g, chain, i, j); }
    }
    hide Offsets, AllApart, SlotsAt, SlotsOf, PutEntries, Touches, Fits, Whole;
    assert RunOf(run, offs, start);
    PutEntriesTouches(image, lba, g, chain, start, raws, |raws|);
    PutEntriesSlots(image, offs, run, raws, start);
  }

  /** Writing a new file's entries into a free run inserts its record, in order, and leaves the directory well
      formed. */
  lemma {:induction false} WrittenRecord(image: seq<byte>, lba: int, g: Geometry, chain: seq<nat>, start: nat,
                                         name: Name, short: seq<byte>)
    requires Fits(g, lba, |image|) && InRange(g, chain) && Distinct(chain)
    requires 1 <= EntryCount(name) <= 20 && Decodable(name) && |short| == 32 && Short(Slot(0, short))
    requires start + EntryCount(name) + 1 <= |Offsets(lba, g, chain)|
    requires var slots := DirSlots(image, lba, g, chain);
             AllFree(slots[start..start + EntryCount(name) + 1]) && NoEnd(slots[..start]) && TailZero(slots)
    ensures var run := Offsets(lba, g, chain)[start..start + EntryCount(name) + 1];
            var raws := NewEntries(name, short);
            var recs := Records(DirSlots(image, lba, g, chain));
            && InImage(run, |image|)
            && var image' := PutEntries(image, run, raws, |raws|);
            && Touches(image, image', lba, g, SetOf(chain)) && |image'| == |image|
            && TailZero(DirSlots(image', lba, g, chain))
            && var k := |Records(DirSlots(image, lba, g, chain)[..start])|;
            && k <= |recs|
            && Records(DirSlots(image', lba, g, chain)) == With(recs, k, NewRecord(run, name, short))
  {
    hide *;
    FitsBasics(g, lba, |image|);
    var n := EntryCount(name) + 1;
    var offs, slots, raws := Offsets(lba, g, chain), DirSlots(image, lba, g, chain), NewEntries(name, short);
    var run := offs[start..start + n];
    WholeEntries(name, short);
    WrittenSlots(image, lba, g, chain, start, raws);
    var pre, mid, post := slots[..start], slots[start..start + n], slots[start + n..];
    assert slots == pre + mid + post;
    ShapedParts(slots, start, start + n);
    InsertRecord(pre, mid, post, run, name, short);
    WithAt(Records(pre), Records(post), NewRecord(run, name, short));
  }

  lemma {:induction false} ShapedParts(slots: seq<Slot>, a: nat, b: nat)
    requires Shaped(slots) && a <= b <= |slots|
    ensures Shaped(slots[..a]) && Shaped(slots[a..b]) && Shaped(slots[b..])
  {
  }

  lemma {:induction false} WithAt(a: seq<Record>, b: seq<Record>, r: Record)
    ensures With(a + b, |a|, r) == a + [r] + b
  {
    assert (a + b)[..|a|] == a && (a + b)[|a|..] == b;
  }
}
