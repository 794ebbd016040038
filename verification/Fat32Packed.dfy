/** Directories filled from the front: where each new record goes, and which clusters it takes. */
module Fat32Packed {
  import opened Bytes
  import opened DataBlocks
  import opened Chains
  import opened LongNames
  import opened Directory
  import opened Fat32Volume
  import opened Fat32Layout
  import opened Fat32Slots
  import opened Fat32Files
  import opened Fat32Live
  import opened Fat32Store
  import opened Fat32Inject
  import opened Fat32Gaps

  /** The first `n` entries are in use and the others are free. */
  predicate Packed(slots: seq<Slot>, n: nat)
    requires Shaped(slots)
  {
    && n <= |slots|
    && (forall i :: 0 <= i < n ==> !Free(slots[i]))
    && (forall i :: n <= i < |slots| ==> Free(slots[i]))
  }

  lemma {:induction false} PackedFit(slots: seq<Slot>, n: nat, req: nat)
    requires Shaped(slots) && Packed(slots, n) && req > 0
    ensures Trailing(slots) == |slots| - n
    ensures FirstFit(slots, req, 0) == if n + req <= |slots| then Some(n) else None
  {
    hide Trailing, Free, FirstFit;
    TrailingFree(slots);
    var m := |slots| - Trailing(slots);
    assert n > 0 ==> !Free(slots[n - 1]);
    assert m > 0 ==> !Free(slots[m - 1]);
    if n + req <= |slots| { assert Fit(slots, n, req); }
    match FirstFit(slots, req, 0)
    case None =>
    case Some(s) =>
      assert Free(slots[s]);
  }

  /** A new record goes behind all others. */
  lemma {:induction false} PackedInsert(slots: seq<Slot>, n: nat, req: nat)
    requires Shaped(slots) && Packed(slots, n) && TailZero(slots) && req > 0
    ensures InsertAt(slots, req) == |Records(slots)|
  {
    hide Trailing, FirstFit, Records, TailZero, Packed;
    PackedFit(slots, n, req);
    RecordsBeforeTrailing(slots);
  }

  // ----- reserving the entries -----

  lemma {:induction false} GrowOnce(image: seq<byte>, lba: int, g: Geometry, fat: seq<byte>, chain: seq<nat>, have: nat,
                                    req: nat)
    requires Fits(g, lba, |image|) && |fat| == g.FatBytes() && chain != [] && InRange(g, chain)
    requires have < req <= have + g.BlockSlots() && Grow(image, lba, g, fat, chain, have, req).ok && g.Top() <= EOF
    ensures g.Top() <= |Table(fat)| && Allocate(Table(fat), 1, g.Top()).Some?
    ensures var r, c := Grow(image, lba, g, fat, chain, have, req), Allocate(Table(fat), 1, g.Top()).value[0];
            && chain[|chain| - 1] < |Table(fat)| && r.chain == chain + [c]
            && Table(r.fat) == Table(fat)[chain[|chain| - 1] := c][c := EOF]
  {
    hide Fits, Table, PutBlock, Extend;
    FitsBasics(g, lba, |image|);
    SlotsPerBlock(g, lba, |image|, fat);
    var last, c := chain[|chain| - 1], Allocate(Table(fat), 1, g.Top()).value[0];
    ExtendTable(fat, last, c);
    GrowNone(PutBlock(image, lba, g, c, Fill(0, g.BlockBytes())), lba, g, Extend(fat, last, c), chain + [c],
             have + g.BlockSlots(), req);
  }

  /** The finder takes the first free entries; it adds one cluster, the lowest free one, when they do not suffice. */
  lemma {:induction false} PlacePacked(image: seq<byte>, lba: int, g: Geometry, fat: seq<byte>, chain: seq<nat>,
                                       req: nat, n: nat)
    requires Fits(g, lba, |image|) && |fat| == g.FatBytes() && chain != [] && InRange(g, chain) && g.Top() <= EOF
    requires IsChain(Table(fat), chain, g.Top(), EOF) && Packed(DirSlots(image, lba, g, chain), n)
    requires 0 < req <= g.BlockSlots() && Place(image, lba, g, fat, chain, req).ok
    ensures var p, slots := Place(image, lba, g, fat, chain, req), DirSlots(image, lba, g, chain);
            && p.start == n && Packed(DirSlots(p.image, lba, g, p.chain), n)
            && (n + req <= |slots| ==> p.chain == chain && p.fat == fat)
            && (n + req > |slots| ==>
                  && g.Top() <= |Table(fat)| && Allocate(Table(fat), 1, g.Top()).Some?
                  && var c := Allocate(Table(fat), 1, g.Top()).value[0];
                  && chain[|chain| - 1] < |Table(fat)| && p.chain == chain + [c]
                  && Table(p.fat) == Table(fat)[chain[|chain| - 1] := c][c := EOF])
  {
    hide Fits, InRange, Grow, DirSlots, Table, IsChain, FirstFit, Trailing, Grown, GrowthOk, Packed, Allocate;
    var p, slots := Place(image, lba, g, fat, chain, req), DirSlots(image, lba, g, chain);
    PackedFit(slots, n, req);
    PackedLength(slots, n);
    if n + req > |slots| {
      GrowOnce(image, lba, g, fat, chain, |slots| - n, req);
      GrowCorrect(image, lba, g, fat, chain, |slots| - n, req);
      var r := Grow(image, lba, g, fat, chain, |slots| - n, req);
      GrowthParts(image, Table(fat), chain, |slots| - n, req, r, lba, g);
      GrownSlots(image, Table(fat), chain, r.image, Table(r.fat), r.chain, lba, g);
      PackedMore(slots, DirSlots(r.image, lba, g, r.chain), n);
    }
  }

  lemma {:induction false} PackedLength(slots: seq<Slot>, n: nat)
    requires Shaped(slots) && Packed(slots, n)
    ensures n <= |slots|
  {
  }

  lemma {:induction false} PackedMore(olds: seq<Slot>, news: seq<Slot>, n: nat)
    requires Shaped(olds) && Shaped(news) && Packed(olds, n) && |olds| <= |news| && news[..|olds|] == olds
    requires forall i :: |olds| <= i < |news| ==> End(news[i])
    ensures Packed(news, n)
  {
    assert forall i :: 0 <= i < |olds| ==> news[i] == olds[i];
  }

  // ----- wiping and writing them -----

  lemma {:induction false} PackedWiped(slots: seq<Slot>, wiped: seq<Slot>, a: nat, b: nat)
    requires Shaped(slots) && Shaped(wiped) && Wiped(slots, wiped, a, b) && Packed(slots, b + 1)
    requires forall i :: a <= i <= b ==> wiped[i].raw[0] == DELETED
    ensures Packed(wiped, a)
  {
  }

  lemma {:induction false} LongEntriesUsed(units: Name, checksum: byte, index: nat, i: nat)
    requires index <= EntryCount(units) <= 20 && i < index
    ensures LfnEntries(units, checksum, index)[i][0] !in {0, DELETED}
    decreases index
  {
    hide LfnEntry, EntryCount;
    if i > 0 { LongEntriesUsed(units, checksum, index - 1, i - 1); }
  }

  lemma {:induction false} EntriesUsed(name: Name, short: seq<byte>, i: nat)
    requires EntryCount(name) <= 20 && |short| == 32 && short[0] !in {0, DELETED} && i < |NewEntries(name, short)|
    ensures NewEntries(name, short)[i][0] !in {0, DELETED}
  {
    hide LfnEntries, EntryCount;
    if i < EntryCount(name) { LongEntriesUsed(name, Checksum(short[..11]), EntryCount(name), i); }
  }

  lemma {:induction false} PackedWritten(slots: seq<Slot>, news: seq<Slot>, n: nat, run: seq<nat>, name: Name,
                                         short: seq<byte>)
    requires Shaped(slots) && Shaped(news) && Packed(slots, n) && EntryCount(name) <= 20 && |short| == 32
    requires short[0] !in {0, DELETED} && |run| == EntryCount(name) + 1 && n + |run| <= |slots|
    requires news == slots[..n] + SlotsOf(run, NewEntries(name, short)) + slots[n + |run|..]
    ensures Packed(news, n + |run|)
  {
    hide NewEntries, EntryCount;
    var raws := NewEntries(name, short);
    forall i | n <= i < n + |run| ensures !Free(news[i]) {
      assert news[i] == SlotsOf(run, raws)[i - n];
      EntriesUsed(name, short, i - n);
    }
    assert forall i :: 0 <= i < n ==> news[i] == slots[i];
    assert forall i :: n + |run| <= i < |news| ==> news[i] == slots[i];
  }

  /** The table, the chain and the entries behind a successful store. */
  ghost predicate Detailed(image: seq<byte>, lba: int, g: Geometry, fat: seq<byte>, chain: seq<nat>, d: nat, name: Name,
                           alias: seq<byte>, data: seq<byte>, image': seq<byte>, p: Placement, cs: seq<nat>)
    requires Fits(g, lba, |image|) && |image'| == |image| && |fat| == g.FatBytes() && chain != [] && InRange(g, chain)
    requires |p.image| == |image| && |p.fat| == |fat| && InRange(g, p.chain)
  {
    && p == Place(image, lba, g, fat, chain, EntryCount(name) + 1) && p.ok
    && g.Top() <= |Table(p.fat)| && Allocate(Table(p.fat), Needed(|data|, g.BlockBytes()), g.Top()) == Some(cs)
    && 1 <= EntryCount(name) <= 20 && |alias| == 11 && |data| < 0x1_0000_0000
    && Table(FatImage(image', lba, g)) == Link(Table(p.fat), cs, |cs|, EOF)
    && g.Top() <= |Table(FatImage(image', lba, g))| && DirChain(Table(FatImage(image', lba, g)), g, d) == Ok(p.chain)
    && var run, raws := Offsets(lba, g, p.chain)[p.start..p.start + EntryCount(name) + 1],
                        NewEntries(name, ShortEntry(alias, FirstOf(cs), |data|));
    && DirSlots(image', lba, g, p.chain)
       == DirSlots(p.image, lba, g, p.chain)[..p.start] + SlotsOf(run, raws)
          + DirSlots(p.image, lba, g, p.chain)[p.start + |run|..]
  }

  lemma {:induction false} StoreDetails(image: seq<byte>, lba: int, g: Geometry, fat: seq<byte>, L: Layout, d: nat,
                                        name: Name, alias: seq<byte>, data: seq<byte>)
      returns (p: Placement, cs: seq<nat>)
    requires Fits(g, lba, |image|) && |fat| == g.FatBytes() && ChainsOk(Table(fat), g, L) && d in L && |alias| == 11
    requires Store(image, lba, g, fat, d, name, alias, data).error == None
    ensures InRange(g, L[d]) && L[d] != [] && |p.image| == |image| && |p.fat| == |fat| && InRange(g, p.chain)
    ensures Detailed(image, lba, g, fat, L[d], d, name, alias, data,
                     Store(image, lba, g, fat, d, name, alias, data).image,
                     p, cs)
  {
    hide *;
    FitsBasics(g, lba, |image|);
    LiveInRange(Table(fat), g, L, d);
    DirChainOf(Table(fat), g, L, d);
    p, cs := StoreUnfold(image, lba, g, fat, d, L[d], name, alias, data);
    PlaceGrows(image, lba, g, fat, L[d], EntryCount(name) + 1);
    GrownChains(image, Table(fat), p.image, Table(p.fat), p.chain, lba, g, L, d);
    var L1, t1 := L[d := p.chain], Table(p.fat);
    TopBound(t1, g, L1);
    LiveInRange(t1, g, L1, d);
    var image2, t2 := PutData(p.image, lba, g, cs, data, |cs|), Link(t1, cs, |cs|, EOF);
    DataFrame(p.image, t1, lba, g, L1, data, cs, d);
    DirSlotsFrame(p.image, image2, lba, g, p.chain);
    var short := ShortEntry(alias, FirstOf(cs), |data|);
    var image3 := WithEntries(image2, lba, g, p.chain, p.start, name, short);
    WithEntriesSlots(image2, lba, g, p.chain, p.start, name, short);
    var fat2 := LinkFat(p.fat, cs, |cs|);
    var image4 := PutFats(image3, lba, g, fat2, g.fatCount);
    FlushBlocks(image3, lba, g, fat2, p.chain);
    DirSlotsFrame(image3, image4, lba, g, p.chain);
    FlushedTable(image3, lba, g, fat2);
    StoredTable(p.fat, g, L1, t1, cs);
    ChainWalked(t2, g, p.chain, d);
    DetailedFrom(image, lba, g, fat, L[d], d, name, alias, data, image4, p, cs);
  }

  lemma {:induction false} ChainWalked(t: seq<nat>, g: Geometry, chain: seq<nat>, d: nat)
    requires IsChain(t, chain, g.Top(), EOF) && chain[0] == d
    ensures g.Top() <= |t| && DirChain(t, g, d) == Ok(chain)
  {
    hide ChainFrom;
    WalkReturnsChain(t, chain, g.Top(), EOF);
  }

  lemma {:induction false} WithEntriesSlots(image: seq<byte>, lba: int, g: Geometry, chain: seq<nat>, start: nat,
                                            name: Name, short: seq<byte>)
    requires Fits(g, lba, |image|) && InRange(g, chain) && Distinct(chain) && EntryCount(name) <= 20 && |short| == 32
    requires start + EntryCount(name) + 1 <= |Offsets(lba, g, chain)|
    ensures var run := Offsets(lba, g, chain)[start..start + EntryCount(name) + 1];
            var slots := DirSlots(image, lba, g, chain);
            DirSlots(WithEntries(image, lba, g, chain, start, name, short), lba, g, chain)
            == slots[..start] + SlotsOf(run, NewEntries(name, short)) + slots[start + |run|..]
  {
    hide Fits, InRange, Distinct, Offsets, PutEntries, NewEntries, DirSlots, SlotsOf, Whole, InImage, Touches;
    OffsetsInImage(lba, g, chain, |image|);
    WholeEntries(name, short);
    WrittenSlots(image, lba, g, chain, start, NewEntries(name, short));
  }

  lemma {:induction false} DetailedFrom(image: seq<byte>, lba: int, g: Geometry, fat: seq<byte>, chain: seq<nat>,
                                        d: nat, name: Name, alias: seq<byte>, data: seq<byte>, image': seq<byte>,
                                        p: Placement, cs: seq<nat>)
    requires Fits(g, lba, |image|) && |image'| == |image| && |fat| == g.FatBytes() && chain != [] && InRange(g, chain)
    requires |p.image| == |image| && |p.fat| == |fat| && InRange(g, p.chain)
    requires p == Place(image, lba, g, fat, chain, EntryCount(name) + 1) && p.ok
    requires g.Top() <= |Table(p.fat)| && Allocate(Table(p.fat), Needed(|data|, g.BlockBytes()), g.Top()) == Some(cs)
    requires 1 <= EntryCount(name) <= 20 && |alias| == 11 && |data| < 0x1_0000_0000
    requires Table(FatImage(image', lba, g)) == Link(Table(p.fat), cs, |cs|, EOF)
    requires g.Top() <= |Table(FatImage(image', lba, g))|
    requires DirChain(Table(FatImage(image', lba, g)), g, d) == Ok(p.chain)
    requires var run, raws := Offsets(lba, g, p.chain)[p.start..p.start + EntryCount(name) + 1],
                              NewEntries(name, ShortEntry(alias, FirstOf(cs), |data|));
             DirSlots(image', lba, g, p.chain)
             == DirSlots(p.image, lba, g, p.chain)[..p.start] + SlotsOf(run, raws)
                + DirSlots(p.image, lba, g, p.chain)[p.start + |run|..]
    ensures Detailed(image, lba, g, fat, chain, d, name, alias, data, image', p, cs)
  {
    hide Fits, InRange, Place, Table, FatImage, Link, DirChain, Offsets, NewEntries, ShortEntry, DirSlots, SlotsOf,
         Allocate, Needed, EntryCount;
  }
}
