/** What the three groups of writes of an injection change, and that they do not touch each other. */
module Fat12Writes {
  import opened Arithmetic
  import opened Bytes
  import opened Chains
  import opened DataBlocks
  import opened Fat12Table
  import opened Fat12Volume
  import opened Fat12Files

  /** `r` and `s` agree on the bytes in `[lo, hi)`. */
  predicate Agree(s: seq<byte>, r: seq<byte>, lo: nat, hi: nat) {
    |r| == |s| && forall i :: lo <= i < hi && i < |s| ==> r[i] == s[i]
  }

  lemma {:induction false} WindowAgrees(s: seq<byte>, r: seq<byte>, lo: nat, hi: nat, a: nat, b: nat)
    requires Agree(s, r, lo, hi) && lo <= a <= b <= hi && b <= |s|
    ensures r[a..b] == s[a..b]
  {
  }

  // ----- the data -----

  lemma {:induction false} PutBlocksUnfold(image: seq<byte>, g: Geometry, cs: seq<nat>, data: seq<byte>, n: nat)
    requires Fits(g, |image|) && InRange(g, cs) && 0 < n <= |cs|
    ensures BlockAt(g, cs[n - 1]) + g.BlockBytes() <= |image|
    ensures PutBlocks(image, g, cs, data, n)
            == Splice(PutBlocks(image, g, cs, data, n - 1), BlockAt(g, cs[n - 1]),
                      DataBlock(data, g.BlockBytes(), n - 1))
  {
    hide BlockAt, DataBlock, Fits;
    BlockBounds(g, |image|, cs[n - 1]);
  }

  lemma {:induction false} PutBlocksBelow(image: seq<byte>, g: Geometry, cs: seq<nat>, data: seq<byte>, n: nat)
    requires Fits(g, |image|) && InRange(g, cs) && n <= |cs|
    ensures Agree(image, PutBlocks(image, g, cs, data, n), 0, g.DataStart() * SECTOR)
    decreases n
  {
    hide BlockAt, DataBlock, Fits, Splice, g.BlockBytes, g.DataStart;
    if n > 0 {
      PutBlocksBelow(image, g, cs, data, n - 1);
      PutBlocksUnfold(image, g, cs, data, n);
      BlockBounds(g, |image|, cs[n - 1]);
    }
  }

  lemma {:induction false} SpliceBlock(image: seq<byte>, g: Geometry, c: nat, b: seq<byte>, d: nat)
    requires Fits(g, |image|) && 2 <= c < g.Top() && 2 <= d < g.Top() && |b| == g.BlockBytes()
    ensures BlockAt(g, c) + |b| <= |image|
    ensures Block(Splice(image, BlockAt(g, c), b), g, d) == if d == c then b else Block(image, g, d)
  {
    BlockBounds(g, |image|, c);
    BlockBounds(g, |image|, d);
    hide Fits;
    if c < d { BlocksApart(g, c, d); }
    if d < c { BlocksApart(g, d, c); }
    hide BlockAt, g.BlockBytes, Splice;
    SpliceWindow(image, BlockAt(g, c), b, BlockAt(g, d), BlockAt(g, d) + |b|);
  }

  lemma {:induction false} PutBlocksBlock(image: seq<byte>, g: Geometry, cs: seq<nat>, data: seq<byte>, n: nat, c: nat)
    requires Fits(g, |image|) && InRange(g, cs) && n <= |cs| && Distinct(cs) && 2 <= c < g.Top()
    ensures c !in cs[..n] ==> Block(PutBlocks(image, g, cs, data, n), g, c) == Block(image, g, c)
    ensures forall k :: 0 <= k < n && cs[k] == c ==>
            Block(PutBlocks(image, g, cs, data, n), g, c) == DataBlock(data, g.BlockBytes(), k)
    decreases n
  {
    hide BlockAt, DataBlock, Fits, Splice, Block, g.BlockBytes, g.Top;
    if n > 0 {
      assert cs[..n] == cs[..n - 1] + [cs[n - 1]];
      PutBlocksBlock(image, g, cs, data, n - 1, c);
      PutBlocksUnfold(image, g, cs, data, n);
      SpliceBlock(PutBlocks(image, g, cs, data, n - 1), g, cs[n - 1], DataBlock(data, g.BlockBytes(), n - 1), c);
    }
  }

  // ----- the FATs -----

  lemma {:induction false} PutFatsUnfold(image: seq<byte>, g: Geometry, fats: seq<seq<byte>>, n: nat)
    requires Fits(g, |image|) && |fats| == g.fatCount && AreFats(fats, g.FatBytes()) && 0 < n <= g.fatCount
    ensures FatAt(g, n - 1) + |fats[n - 1]| <= |image|
    ensures PutFats(image, g, fats, n) == Splice(PutFats(image, g, fats, n - 1), FatAt(g, n - 1), fats[n - 1])
  {
    hide FatAt, Fits;
    FatBounds(g, |image|, n - 1);
  }

  lemma {:induction false} PutFatsAgree(image: seq<byte>, g: Geometry, fats: seq<seq<byte>>, n: nat)
    requires Fits(g, |image|) && |fats| == g.fatCount && AreFats(fats, g.FatBytes()) && n <= g.fatCount
    ensures Agree(image, PutFats(image, g, fats, n), 0, SECTOR)
    ensures Agree(image, PutFats(image, g, fats, n), g.RootStart() * SECTOR, |image|)
    decreases n
  {
    hide FatAt, Fits, Splice, g.FatBytes, g.RootStart, g.DataStart;
    if n > 0 {
      PutFatsAgree(image, g, fats, n - 1);
      PutFatsUnfold(image, g, fats, n);
      FatBounds(g, |image|, n - 1);
    }
  }

  lemma {:induction false} FatsApart(g: Geometry, j: nat, k: nat)
    requires j < k
    ensures FatAt(g, j) + g.FatBytes() <= FatAt(g, k)
  {
    MulMonotone(j + 1, k, g.spf);
    assert (j + 1) * g.spf == j * g.spf + g.spf;
  }

  lemma {:induction false} SpliceFat(image: seq<byte>, g: Geometry, j: nat, fat: seq<byte>, k: nat)
    requires Fits(g, |image|) && j < g.fatCount && k < g.fatCount && |fat| == g.FatBytes()
    ensures FatAt(g, j) + |fat| <= |image|
    ensures FatCopy(Splice(image, FatAt(g, j), fat), g, k) == if k == j then fat else FatCopy(image, g, k)
  {
    FatBounds(g, |image|, j);
    FatBounds(g, |image|, k);
    hide Fits;
    if j < k { FatsApart(g, j, k); }
    if k < j { FatsApart(g, k, j); }
    hide FatAt, g.FatBytes, Splice;
    SpliceWindow(image, FatAt(g, j), fat, FatAt(g, k), FatAt(g, k) + |fat|);
  }

  lemma {:induction false} PutFatsCopy(image: seq<byte>, g: Geometry, fats: seq<seq<byte>>, n: nat, k: nat)
    requires Fits(g, |image|) && |fats| == g.fatCount && AreFats(fats, g.FatBytes()) && k < n <= g.fatCount
    ensures FatCopy(PutFats(image, g, fats, n), g, k) == fats[k]
    decreases n
  {
    hide FatAt, Fits, Splice, g.FatBytes, FatCopy;
    PutFatsUnfold(image, g, fats, n);
    SpliceFat(PutFats(image, g, fats, n - 1), g, n - 1, fats[n - 1], k);
    if k < n - 1 { PutFatsCopy(image, g, fats, n - 1, k); }
  }

  // ----- all of them -----

  /** The image after a store, part by part. */
  ghost predicate Stored(image: seq<byte>, image': seq<byte>, g: Geometry, cs: seq<nat>, data: seq<byte>,
                         fats: seq<seq<byte>>, slot: nat, entry: seq<byte>)
    requires Fits(g, |image|) && slot < g.rootEntries && |fats| == g.fatCount && |entry| == SLOT
  {
    && |image'| == |image| && Agree(image, image', 0, SECTOR)
    && (forall k :: 0 <= k < g.fatCount ==> FatCopy(image', g, k) == fats[k])
    && Slots(image', g) == Slots(image, g)[slot := entry]
    && (forall c :: 2 <= c < g.Top() && c !in cs ==> Block(image', g, c) == Block(image, g, c))
    && (forall k :: 0 <= k < |cs| && 2 <= cs[k] < g.Top() ==>
        Block(image', g, cs[k]) == DataBlock(data, g.BlockBytes(), k))
  }

  function Written(image: seq<byte>, g: Geometry, cs: seq<nat>, data: seq<byte>, fats: seq<seq<byte>>, slot: nat,
                   entry: seq<byte>): (r: seq<byte>)
    requires Fits(g, |image|) && InRange(g, cs) && |fats| == g.fatCount && AreFats(fats, g.FatBytes())
    requires slot < g.rootEntries && |entry| == SLOT
    ensures |r| == |image|
  {
    SlotBounds(g, |image|, slot);
    Splice(PutFats(PutBlocks(image, g, cs, data, |cs|), g, fats, g.fatCount), SlotAt(g, slot), entry)
  }

  lemma {:induction false} SlotsAfter(image: seq<byte>, linked: seq<byte>, g: Geometry, slot: nat, entry: seq<byte>)
    requires Fits(g, |image|) && |linked| == |image| && slot < g.rootEntries && |entry| == SLOT
    requires Agree(image, linked, g.RootStart() * SECTOR, g.DataStart() * SECTOR)
    ensures SlotAt(g, slot) + SLOT <= |image|
    ensures Slots(Splice(linked, SlotAt(g, slot), entry), g) == Slots(image, g)[slot := entry]
  {
    hide Fits, g.RootStart, g.DataStart, Agree;
    SlotBounds(g, |image|, slot);
    var image' := Splice(linked, SlotAt(g, slot), entry);
    forall i | 0 <= i < g.rootEntries ensures Slots(image', g)[i] == Slots(image, g)[slot := entry][i] {
      hide Splice;
      SlotBounds(g, |image|, i);
      SpliceWindow(linked, SlotAt(g, slot), entry, SlotAt(g, i), SlotAt(g, i) + SLOT);
      WindowAgrees(image, linked, g.RootStart() * SECTOR, g.DataStart() * SECTOR, SlotAt(g, i), SlotAt(g, i) + SLOT);
    }
  }

  lemma {:induction false} SpliceAgrees(s: seq<byte>, at: nat, b: seq<byte>, lo: nat, hi: nat)
    requires at + |b| <= |s| && (hi <= at || at + |b| <= lo)
    ensures Agree(s, Splice(s, at, b), lo, hi)
  {
  }

  lemma {:induction false} AgreeTrans(a: seq<byte>, b: seq<byte>, c: seq<byte>, lo: nat, hi: nat, lo': nat, hi': nat)
    requires Agree(a, b, lo, hi) && Agree(b, c, lo', hi')
    ensures Agree(a, c, if lo < lo' then lo' else lo, if hi < hi' then hi else hi')
  {
  }

  lemma {:induction false} FatCopyAgrees(s: seq<byte>, r: seq<byte>, g: Geometry, k: nat)
    requires Fits(g, |s|) && k < g.fatCount && Agree(s, r, 0, g.RootStart() * SECTOR)
    ensures FatCopy(r, g, k) == FatCopy(s, g, k)
  {
    hide Fits, g.RootStart, g.DataStart, g.FatBytes, FatAt;
    FatBounds(g, |s|, k);
    WindowAgrees(s, r, 0, g.RootStart() * SECTOR, FatAt(g, k), FatAt(g, k) + g.FatBytes());
  }

  lemma {:induction false} BlockAgrees(s: seq<byte>, r: seq<byte>, g: Geometry, c: nat)
    requires Fits(g, |s|) && 2 <= c < g.Top() && Agree(s, r, g.DataStart() * SECTOR, |s|)
    ensures Block(r, g, c) == Block(s, g, c)
  {
    hide Fits, g.RootStart, g.DataStart, g.BlockBytes, BlockAt;
    BlockBounds(g, |s|, c);
    WindowAgrees(s, r, g.DataStart() * SECTOR, |s|, BlockAt(g, c), BlockAt(g, c) + g.BlockBytes());
  }

  lemma {:induction false} Regions(g: Geometry, len: nat)
    requires Fits(g, len)
    ensures SECTOR <= g.RootStart() * SECTOR <= g.DataStart() * SECTOR <= len
  {
    FatBounds(g, len, 0);
  }

  lemma {:induction false} LinkedAgrees(image: seq<byte>, g: Geometry, cs: seq<nat>, data: seq<byte>,
                                        fats: seq<seq<byte>>)
    requires Fits(g, |image|) && InRange(g, cs) && |fats| == g.fatCount && AreFats(fats, g.FatBytes())
    ensures var filled := PutBlocks(image, g, cs, data, |cs|);
            var linked := PutFats(filled, g, fats, g.fatCount);
            Agree(image, linked, 0, SECTOR) && Agree(image, linked, g.RootStart() * SECTOR, g.DataStart() * SECTOR)
  {
    hide *;
    var filled := PutBlocks(image, g, cs, data, |cs|);
    var linked := PutFats(filled, g, fats, g.fatCount);
    Regions(g, |image|);
    PutBlocksBelow(image, g, cs, data, |cs|);
    PutFatsAgree(filled, g, fats, g.fatCount);
    AgreeTrans(image, filled, linked, 0, g.DataStart() * SECTOR, 0, SECTOR);
    AgreeTrans(image, filled, linked, 0, g.DataStart() * SECTOR, g.RootStart() * SECTOR, |image|);
  }

  lemma {:induction false} WrittenFats(image: seq<byte>, g: Geometry, cs: seq<nat>, data: seq<byte>,
                                       fats: seq<seq<byte>>, slot: nat, entry: seq<byte>, k: nat)
    requires Fits(g, |image|) && InRange(g, cs) && |fats| == g.fatCount && AreFats(fats, g.FatBytes())
    requires slot < g.rootEntries && |entry| == SLOT && k < g.fatCount
    ensures FatCopy(Written(image, g, cs, data, fats, slot, entry), g, k) == fats[k]
  {
    hide Fits, InRange, AreFats, FatCopy, Splice, PutFats, PutBlocks, g.RootStart, g.DataStart, Agree;
    var linked := PutFats(PutBlocks(image, g, cs, data, |cs|), g, fats, g.fatCount);
    SlotBounds(g, |image|, slot);
    PutFatsCopy(PutBlocks(image, g, cs, data, |cs|), g, fats, g.fatCount, k);
    SpliceAgrees(linked, SlotAt(g, slot), entry, 0, g.RootStart() * SECTOR);
    FatCopyAgrees(linked, Splice(linked, SlotAt(g, slot), entry), g, k);
  }

  lemma {:induction false} WrittenBlock(image: seq<byte>, g: Geometry, cs: seq<nat>, data: seq<byte>,
                                        fats: seq<seq<byte>>, slot: nat, entry: seq<byte>, c: nat)
    requires Fits(g, |image|) && InRange(g, cs) && |fats| == g.fatCount && AreFats(fats, g.FatBytes())
    requires slot < g.rootEntries && |entry| == SLOT && 2 <= c < g.Top()
    ensures Block(Written(image, g, cs, data, fats, slot, entry), g, c)
            == Block(PutBlocks(image, g, cs, data, |cs|), g, c)
  {
    hide Fits, InRange, AreFats, Block, Splice, PutFats, PutBlocks, g.RootStart, g.DataStart, Agree, g.Top;
    var filled := PutBlocks(image, g, cs, data, |cs|);
    var linked := PutFats(filled, g, fats, g.fatCount);
    Regions(g, |image|);
    SlotBounds(g, |image|, slot);
    PutFatsAgree(filled, g, fats, g.fatCount);
    SpliceAgrees(linked, SlotAt(g, slot), entry, g.DataStart() * SECTOR, |image|);
    AgreeTrans(filled, linked, Splice(linked, SlotAt(g, slot), entry), g.RootStart() * SECTOR, |image|,
               g.DataStart() * SECTOR, |image|);
    BlockAgrees(filled, Splice(linked, SlotAt(g, slot), entry), g, c);
  }

  lemma {:induction false} WrittenStored(image: seq<byte>, g: Geometry, cs: seq<nat>, data: seq<byte>,
                                         fats: seq<seq<byte>>, slot: nat, entry: seq<byte>)
    requires Fits(g, |image|) && InRange(g, cs) && Distinct(cs) && |fats| == g.fatCount && AreFats(fats, g.FatBytes())
    requires slot < g.rootEntries && |entry| == SLOT
    ensures Stored(image, Written(image, g, cs, data, fats, slot, entry), g, cs, data, fats, slot, entry)
  {
    hide Fits, AreFats, FatCopy, Block, Splice, PutFats, PutBlocks, g.RootStart, g.DataStart, Agree, Slots, g.FatBytes,
         g.BlockBytes, DataBlock, SlotAt;
    var image' := Written(image, g, cs, data, fats, slot, entry);
    LinkedAgrees(image, g, cs, data, fats);
    var linked := PutFats(PutBlocks(image, g, cs, data, |cs|), g, fats, g.fatCount);
    SlotsAfter(image, linked, g, slot, entry);
    SlotBounds(g, |image|, slot);
    Regions(g, |image|);
    SpliceAgrees(linked, SlotAt(g, slot), entry, 0, SECTOR);
    AgreeTrans(image, linked, image', 0, SECTOR, 0, SECTOR);
    assert cs[..|cs|] == cs;
    hide Written, InRange;
    forall k | 0 <= k < g.fatCount ensures FatCopy(image', g, k) == fats[k] {
      WrittenFats(image, g, cs, data, fats, slot, entry, k);
    }
    forall c | 2 <= c < g.Top() && c !in cs ensures Block(image', g, c) == Block(image, g, c) {
      WrittenBlock(image, g, cs, data, fats, slot, entry, c);
      PutBlocksBlock(image, g, cs, data, |cs|, c);
    }
    forall k | 0 <= k < |cs| && 2 <= cs[k] < g.Top()
      ensures Block(image', g, cs[k]) == DataBlock(data, g.BlockBytes(), k)
    {
      WrittenBlock(image, g, cs, data, fats, slot, entry, cs[k]);
      PutBlocksBlock(image, g, cs, data, |cs|, cs[k]);
    }
  }
}
