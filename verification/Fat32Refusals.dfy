/** What a refused operation leaves behind: it stops half way, before any FAT is written. */
module Fat32Refusals {
  import opened Bytes
  import opened DataBlocks
  import opened Chains
  import opened LongNames
  import opened Directory
  import opened Fat32Volume
  import opened Fat32Layout
  import opened Fat32Slots
  import opened Fat32Files
  import opened Fat32Live
  import opened Fat32Store
  import opened Fat32Inject
  import opened Fat32Replace

  // ----- a refused store only writes to free clusters -----

  /** The clusters a table calls free. */
  function FreeSet(t: seq<nat>, g: Geometry): set<nat>
    requires g.Top() <= |t|
  {
    set c | 2 <= c < g.Top() && t[c] == 0
  }

  lemma {:induction false} ExtendShrinks(fat: seq<byte>, g: Geometry, lba: int, len: nat, last: nat, c: nat)
    requires Fits(g, lba, len) && |fat| == g.FatBytes() && 2 <= last < g.Top() && 2 <= c < g.Top() && c <= EOF
    ensures 4 * last + 4 <= |fat| && 4 * c + 4 <= |fat| && g.Top() <= |Table(fat)|
    ensures g.Top() <= |Table(Extend(fat, last, c))|
    ensures FreeSet(Table(Extend(fat, last, c)), g) <= FreeSet(Table(fat), g)
  {
    FitsBasics(g, lba, len);
    hide Table, Extend, Fits;
    ExtendTable(fat, last, c);
  }

  lemma {:induction false} GrowWithin(image: seq<byte>, lba: int, g: Geometry, fat: seq<byte>, chain: seq<nat>,
                                      have: nat, req: nat)
    requires Fits(g, lba, |image|) && |fat| == g.FatBytes() && chain != [] && InRange(g, chain) && g.Top() <= EOF
    ensures var r := Grow(image, lba, g, fat, chain, have, req);
            && g.Top() <= |Table(fat)| && g.Top() <= |Table(r.fat)|
            && Touches(image, r.image, lba, g, FreeSet(Table(fat), g))
            && FreeSet(Table(r.fat), g) <= FreeSet(Table(fat), g)
    decreases if have < req then req - have else 0
  {
    hide Fits, Table, PutBlock, Extend, Touches, FreeSet, FreeCount;
    FitsBasics(g, lba, |image|);
    SlotsPerBlock(g, lba, |image|, fat);
    TouchesNothing(image, lba, g);
    TouchesMore(image, image, lba, g, {}, FreeSet(Table(fat), g));
    if have < req {
      match Allocate(Table(fat), 1, g.Top())
      case None =>
      case Some(cs) =>
        var last, c := chain[|chain| - 1], cs[0];
        var image1, fat1 := PutBlock(image, lba, g, c, Fill(0, g.BlockBytes())), Extend(fat, last, c);
        PutBlockReads(image, lba, g, c, Fill(0, g.BlockBytes()));
        ExtendShrinks(fat, g, lba, |image|, last, c);
        InFreeSet(Table(fat), g, c);
        TouchesMore(image, image1, lba, g, {c}, FreeSet(Table(fat), g));
        GrowWithin(image1, lba, g, fat1, chain + [c], have + g.BlockSlots(), req);
        var image2 := Grow(image, lba, g, fat, chain, have, req).image;
        TouchesMore(image1, image2, lba, g, FreeSet(Table(fat1), g), FreeSet(Table(fat), g));
        TouchesTwice(image, image1, image2, lba, g, FreeSet(Table(fat), g));
    }
  }

  lemma {:induction false} InFreeSet(t: seq<nat>, g: Geometry, c: nat)
    requires g.Top() <= |t| && 2 <= c < g.Top() && t[c] == 0
    ensures {c} <= FreeSet(t, g)
  {
  }

  lemma {:induction false} TouchesTwice(a: seq<byte>, b: seq<byte>, c: seq<byte>, lba: int, g: Geometry, s: set<nat>)
    requires Fits(g, lba, |a|) && Touches(a, b, lba, g, s) && |b| == |a| && Touches(b, c, lba, g, s)
    ensures Touches(a, c, lba, g, s)
  {
    hide Touches;
    TouchesTrans(a, b, c, lba, g, s, s);
    assert s + s == s;
  }

  lemma {:induction false} PlaceWithin(image: seq<byte>, lba: int, g: Geometry, fat: seq<byte>, chain: seq<nat>,
                                       req: nat)
    requires Fits(g, lba, |image|) && |fat| == g.FatBytes() && chain != [] && InRange(g, chain) && g.Top() <= EOF
    ensures var p := Place(image, lba, g, fat, chain, req);
            && g.Top() <= |Table(fat)| && g.Top() <= |Table(p.fat)|
            && Touches(image, p.image, lba, g, FreeSet(Table(fat), g))
            && FreeSet(Table(p.fat), g) <= FreeSet(Table(fat), g)
  {
    hide Fits, Grow, FirstFit, DirSlots, Trailing, InRange, Touches, FreeSet, Table;
    SlotsPerBlock(g, lba, |image|, fat);
    TouchesNothing(image, lba, g);
    TouchesMore(image, image, lba, g, {}, FreeSet(Table(fat), g));
    GrowWithin(image, lba, g, fat, chain, Trailing(DirSlots(image, lba, g, chain)), req);
  }

  lemma {:induction false} AllocatedFree(t: seq<nat>, g: Geometry, count: nat, cs: seq<nat>)
    requires g.Top() <= |t| && Allocate(t, count, g.Top()) == Some(cs)
    ensures SetOf(cs) <= FreeSet(t, g) && InRange(g, cs)
  {
  }

  /** Whatever stops a store, it has written to free clusters only. */
  lemma {:induction false} StoreWithin(image: seq<byte>, lba: int, g: Geometry, fat: seq<byte>, d: nat, name: Name,
                                       alias: seq<byte>, data: seq<byte>)
    requires Fits(g, lba, |image|) && |fat| == g.FatBytes() && |alias| == 11 && g.Top() <= EOF
    requires Store(image, lba, g, fat, d, name, alias, data).error != None
    ensures g.Top() <= |Table(fat)|
    ensures Touches(image, Store(image, lba, g, fat, d, name, alias, data).image, lba, g, FreeSet(Table(fat), g))
  {
    hide Fits, Place, PutData, LinkFat, PutFats, PutEntries, NewEntries, ShortEntry, DirChain, Table, Decodable,
         Offsets, Needed, Allocate, Storable, Touches, FreeSet, EntryCount, InImage;
    FitsBasics(g, lba, |image|);
    SlotsPerBlock(g, lba, |image|, fat);
    TouchesNothing(image, lba, g);
    TouchesMore(image, image, lba, g, {}, FreeSet(Table(fat), g));
    if Storable(name) && Decodable(name) && DirChain(Table(fat), g, d).Ok? {
      var chain := DirChain(Table(fat), g, d).value;
      var p := Place(image, lba, g, fat, chain, EntryCount(name) + 1);
      PlaceWithin(image, lba, g, fat, chain, EntryCount(name) + 1);
      if p.ok && Allocate(Table(p.fat), Needed(|data|, g.BlockBytes()), g.Top()).Some? {
        NameFits(name);
        var cs := Allocate(Table(p.fat), Needed(|data|, g.BlockBytes()), g.Top()).value;
        AllocatedFree(Table(p.fat), g, Needed(|data|, g.BlockBytes()), cs);
        var filled := PutData(p.image, lba, g, cs, data, |cs|);
        PutDataTouches(p.image, lba, g, cs, data, |cs|);
        TouchesMore(p.image, filled, lba, g, SetOf(cs), FreeSet(Table(fat), g));
        TouchesTwice(image, p.image, filled, lba, g, FreeSet(Table(fat), g));
      }
    }
  }

  // ----- on a well-formed volume -----

  /** Writing to free clusters keeps every live chain. */
  lemma {:induction false} FreeKeeps(image: seq<byte>, image': seq<byte>, lba: int, g: Geometry, t: seq<nat>, L: Layout)
    requires Fits(g, lba, |image|) && ChainsOk(t, g, L) && g.Top() <= |t|
    requires Touches(image, image', lba, g, FreeSet(t, g))
    ensures |image'| == |image| && KeepsLive(image, t, image', t, lba, g, L)
  {
    hide Fits, Touches, ChainsOk, SameBlocks, InRange;
    TouchesLength(image, image', lba, g, FreeSet(t, g));
    forall s | s in L ensures InRange(g, L[s]) && SameBlocks(image, image', lba, g, L[s]) {
      LiveInRange(t, g, L, s);
      forall c | c in L[s] ensures c !in FreeSet(t, g) {
        if c in FreeSet(t, g) { FreeNotLive(t, g, L, c); }
      }
      TouchesSameBlocks(image, image', lba, g, FreeSet(t, g), L[s]);
    }
  }

  lemma {:induction false} TouchesLength(image: seq<byte>, image': seq<byte>, lba: int, g: Geometry, s: set<nat>)
    requires Fits(g, lba, |image|) && Touches(image, image', lba, g, s)
    ensures |image'| == |image| && FatImage(image', lba, g) == FatImage(image, lba, g)
    ensures SameFats(image, image', lba, g) && SameOutside(image, image', lba, g)
  {
    hide Block, FatImage, SameFats, SameOutside;
  }

  /** Every file chain of `M` reads as before. */
  ghost predicate SameReads(image: seq<byte>, image': seq<byte>, lba: int, g: Geometry, t: seq<nat>, M: Layout)
    requires Fits(g, lba, |image|) && |image'| == |image| && g.Top() <= |t|
  {
    forall r: Record :: r.cluster < 2 || r.cluster in M ==>
      ReadRecord(image', lba, g, t, r) == ReadRecord(image, lba, g, t, r)
  }

  lemma {:induction false} KeptReads(image: seq<byte>, image': seq<byte>, lba: int, g: Geometry, t: seq<nat>, L: Layout,
                                     M: Layout)
    requires Fits(g, lba, |image|) && |image'| == |image| && ChainsOk(t, g, L)
    requires forall s :: s in M ==> s in L && InRange(g, L[s]) && SameBlocks(image, image', lba, g, L[s])
    ensures g.Top() <= |t| && SameReads(image, image', lba, g, t, M)
  {
    hide Fits, ChainsOk, SameBlocks, InRange, ReadRecord, Blocks;
    TopBound(t, g, L);
    forall r: Record | r.cluster < 2 || r.cluster in M
      ensures ReadRecord(image', lba, g, t, r) == ReadRecord(image, lba, g, t, r)
    {
      ReadRecordLive(image, lba, g, t, L, r);
      ReadRecordLive(image', lba, g, t, L, r);
      if r.cluster in M { BlocksFrame(image, image', lba, g, L[r.cluster]); }
      if r.cluster in L { LiveHead(t, g, L, r.cluster); }
    }
  }

  /** A refused store keeps the volume, its listing, every file and every FAT copy. */
  lemma {:induction false} RefusedStore(image: seq<byte>, lba: int, g: Geometry, fat: seq<byte>, dirs: set<nat>,
                                        L: Layout, d: nat, name: Name, alias: seq<byte>, data: seq<byte>)
    requires Fits(g, lba, |image|) && |fat| == g.FatBytes() && Live(image, lba, g, Table(fat), dirs, L)
    requires DirsIn(g, dirs, L) && |alias| == 11
    requires Store(image, lba, g, fat, d, name, alias, data).error != None
    ensures var t, image' := Table(fat), Store(image, lba, g, fat, d, name, alias, data).image;
            && Live(image', lba, g, t, dirs, L)
            && ListingOf(image', lba, g, dirs, L) == ListingOf(image, lba, g, dirs, L)
            && g.Top() <= |t| && SameReads(image, image', lba, g, t, L)
            && FatImage(image', lba, g) == FatImage(image, lba, g) && SameFats(image, image', lba, g)
            && (forall s :: s in L ==> InRange(g, L[s]) && SameBlocks(image, image', lba, g, L[s]))
  {
    hide *;
    var t, image' := Table(fat), Store(image, lba, g, fat, d, name, alias, data).image;
    LiveParts(image, lba, g, t, dirs, L);
    TopBound(t, g, L);
    StoreWithin(image, lba, g, fat, d, name, alias, data);
    TouchesLength(image, image', lba, g, FreeSet(t, g));
    FreeKeeps(image, image', lba, g, t, L);
    KeepsLiveParts(image, t, image', t, lba, g, L);
    LiveFrame(image, t, image', t, lba, g, dirs, L);
    KeptReads(image, image', lba, g, t, L, L);
  }

  // ----- a replacement refused after the wipe -----

  lemma {:induction false} RecordOkMore(r: Record, dirs: set<nat>, keys: set<nat>, more: set<nat>)
    requires RecordOk(r, dirs, keys) && keys <= more
    ensures RecordOk(r, dirs, more)
  {
    hide DotEntry;
  }

  lemma {:induction false} OwnersMore(R: Listing, keys: set<nat>, more: set<nat>)
    requires OwnersOk(R, keys) && keys <= more
    ensures OwnersOk(R, more)
  {
    hide RecordOk, Clash, DistinctAliases;
    forall d, k | d in R && 0 <= k < |R[d]| ensures RecordOk(R[d][k], R.Keys, more) {
      RecordOkMore(R[d][k], R.Keys, keys, more);
    }
  }

  /** A volume seen under a table with further chains that no record leads to. */
  lemma {:induction false} LiveWithMore(image: seq<byte>, lba: int, g: Geometry, t: seq<nat>, u: seq<nat>,
                                        dirs: set<nat>, M: Layout, L: Layout)
    requires Fits(g, lba, |image|) && Live(image, lba, g, t, dirs, M) && DirsIn(g, dirs, M) && ChainsOk(u, g, L)
    requires forall s :: s in M ==> s in L && L[s] == M[s]
    ensures DirsIn(g, dirs, L) && Live(image, lba, g, u, dirs, L)
    ensures ListingOf(image, lba, g, dirs, L) == ListingOf(image, lba, g, dirs, M)
  {
    hide *;
    LiveParts(image, lba, g, t, dirs, M);
    DirsInMore(g, dirs, M, L);
    var R: Listing := ListingOf(image, lba, g, dirs, M);
    OwnersMore(R, M.Keys, L.Keys);
    forall d | d in dirs
      ensures InRange(g, L[d]) && TailZero(DirSlots(image, lba, g, L[d]))
      ensures Records(DirSlots(image, lba, g, L[d])) == R[d]
    {
      LiveChain(image, lba, g, t, dirs, M, d);
    }
    LiveFrom(image, lba, g, u, dirs, L, R);
  }

  lemma {:induction false} DirsInMore(g: Geometry, dirs: set<nat>, M: Layout, L: Layout)
    requires DirsIn(g, dirs, M) && forall s :: s in M ==> s in L && L[s] == M[s]
    ensures DirsIn(g, dirs, L) && M.Keys <= L.Keys && forall d :: d in dirs ==> d in L && d in M && L[d] == M[d]
  {
    hide InRange;
  }

  /** What a replacement refused after the wipe leaves: the record is gone and the chain it led to is still allocated;
      everything else is as it was. */
  ghost predicate Lost(image: seq<byte>, t: seq<nat>, lba: int, g: Geometry, dirs: set<nat>, L: Layout, d: nat, k: nat,
                       image': seq<byte>)
    requires Fits(g, lba, |image|) && |image'| == |image| && DirsIn(g, dirs, L) && g.Top() <= |t| && d in dirs
    requires k < |ListingOf(image, lba, g, dirs, L)[d]|
  {
    var R := ListingOf(image, lba, g, dirs, L);
    var rest := dirs - {R[d][k].cluster};
    && Live(image', lba, g, t, rest, L)
    && ListingOf(image', lba, g, rest, L) == Dropped(R, d, k)
    && SameReads(image, image', lba, g, t, L - {R[d][k].cluster} - {d})
    && FatImage(image', lba, g) == FatImage(image, lba, g) && SameFats(image, image', lba, g)
  }

  lemma {:induction false} WipeBehindFats(image: seq<byte>, lba: int, g: Geometry, lo: nat, hi: nat)
    requires Fits(g, lba, |image|) && AreaStart(lba, g) <= lo && hi <= |image|
    ensures FatImage(Wipe(image, lo, hi), lba, g) == FatImage(image, lba, g)
    ensures SameFats(image, Wipe(image, lo, hi), lba, g)
  {
    hide AreaStart, Fits, Splice, FatImage, FatCopy;
    if lo < hi { SpliceBehindFats(image, lba, g, lo, Fill(DELETED, hi - lo)); }
  }

  lemma {:induction false} SameFatsTrans(a: seq<byte>, b: seq<byte>, c: seq<byte>, lba: int, g: Geometry)
    requires Fits(g, lba, |a|) && |b| == |a| && |c| == |a| && SameFats(a, b, lba, g) && SameFats(b, c, lba, g)
    ensures SameFats(a, c, lba, g)
  {
    hide FatCopy, Fits;
  }

  lemma {:induction false} RefusedReplace(image: seq<byte>, lba: int, g: Geometry, fat: seq<byte>, dirs: set<nat>,
                                          L: Layout, d: nat, k: nat, q: Request, a: nat, b: nat)
    requires Fits(g, lba, |image|) && |fat| == g.FatBytes() && Victim(image, lba, g, Table(fat), dirs, L, d, k)
    requires DirsIn(g, dirs, L) && d in L && InRange(g, L[d])
    requires RecordAt(DirSlots(image, lba, g, L[d]), k, a, b)
    requires a <= b < |Offsets(lba, g, L[d])| && Offsets(lba, g, L[d])[b] + 32 <= |image| && g.Top() <= |Table(fat)|
    requires WipeSafe(image, lba, g, L - {ListingOf(image, lba, g, dirs, L)[d][k].cluster}, Offsets(lba, g, L[d]), a, b)
    requires var v := ListingOf(image, lba, g, dirs, L)[d][k];
             |v.alias| == 11 && v.offset + 32 <= |image| && Replace(image, lba, g, fat, d, v, q).error != None
    ensures Lost(image, Table(fat), lba, g, dirs, L, d, k,
                 Replace(image, lba, g, fat, d, ListingOf(image, lba, g, dirs, L)[d][k], q).image)
  {
    hide *;
    FitsBasics(g, lba, |image|);
    var t := Table(fat);
    VictimParts(image, lba, g, t, dirs, L, d, k);
    VictimChain(image, lba, g, t, dirs, L, d, k);
    LiveParts(image, lba, g, t, dirs, L);
    LiveChain(image, lba, g, t, dirs, L, d);
    var R: Listing := ListingOf(image, lba, g, dirs, L);
    var v, offs := R[d][k], Offsets(lba, g, L[d]);
    var ch, rest, M := ChainAt(L, v.cluster), dirs - {v.cluster}, L - {v.cluster};
    VictimOffsets(image, lba, g, L[d], k, a, b);
    ReplaceUnfold(image, lba, g, fat, d, v, q, ch);
    ReleaseFatTable(fat, ch, |ch|);
    var fat1, t1 := ReleaseFat(fat, ch, |ch|), Chains.Release(t, ch, |ch|);
    WipeLive(image, lba, g, t, t1, dirs, L, d, k, a, b);
    var image1 := Wipe(image, offs[a], offs[b] + 32);
    RunInArea(image, lba, g, L[d], a, b);
    WipeBehindFats(image, lba, g, offs[a], offs[b] + 32);
    RemovedParts(image, t, lba, g, dirs, L, d, k, image1, t1, rest, M);
    RemovedBlocks(image, t, lba, g, dirs, L, d, k, image1, t1, rest, M);
    RefusedStore(image1, lba, g, fat1, rest, M, d, q.name, v.alias, q.data);
    var image' := Replace(image, lba, g, fat, d, v, q).image;
    MinusDirs(g, dirs, L, v.cluster);
    LiveWithMore(image', lba, g, t1, t, rest, M, L);
    SameFatsTrans(image, image1, image', lba, g);
    forall s | s in M - {d} ensures s in L && InRange(g, L[s]) && SameBlocks(image, image', lba, g, L[s]) {
      SameBlocksTrans(image, image1, image', lba, g, L[s]);
    }
    KeptReads(image, image', lba, g, t, L, M - {d});
    LostFrom(image, t, lba, g, dirs, L, d, k, image', M - {d});
  }

  lemma {:induction false} LostFrom(image: seq<byte>, t: seq<nat>, lba: int, g: Geometry, dirs: set<nat>, L: Layout,
                                    d: nat, k: nat, image': seq<byte>, M: Layout)
    requires Fits(g, lba, |image|) && |image'| == |image| && DirsIn(g, dirs, L) && g.Top() <= |t| && d in dirs
    requires k < |ListingOf(image, lba, g, dirs, L)[d]|
    requires DirsIn(g, dirs - {ListingOf(image, lba, g, dirs, L)[d][k].cluster}, L)
    requires Live(image', lba, g, t, dirs - {ListingOf(image, lba, g, dirs, L)[d][k].cluster}, L)
    requires ListingOf(image', lba, g, dirs - {ListingOf(image, lba, g, dirs, L)[d][k].cluster}, L)
             == Dropped(ListingOf(image, lba, g, dirs, L), d, k)
    requires M == L - {ListingOf(image, lba, g, dirs, L)[d][k].cluster} - {d} && SameReads(image, image', lba, g, t, M)
    requires FatImage(image', lba, g) == FatImage(image, lba, g) && SameFats(image, image', lba, g)
    ensures Lost(image, t, lba, g, dirs, L, d, k, image')
  {
    hide Live, ListingOf, Dropped, SameReads, FatImage, SameFats, DirsIn, Fits;
  }

  lemma {:induction false} RemovedBlocks(image: seq<byte>, t: seq<nat>, lba: int, g: Geometry, dirs: set<nat>,
                                         L: Layout, d: nat, k: nat, image': seq<byte>, t': seq<nat>, rest: set<nat>,
                                         M: Layout)
    requires Fits(g, lba, |image|) && |image'| == |image| && DirsIn(g, dirs, L) && DirsIn(g, rest, M) && d in dirs
    requires k < |ListingOf(image, lba, g, dirs, L)[d]|
    requires Removed(image, t, lba, g, dirs, L, d, k, image', t', rest, M)
    ensures M == L - {ListingOf(image, lba, g, dirs, L)[d][k].cluster}
    ensures ListingOf(image', lba, g, rest, M) == Dropped(ListingOf(image, lba, g, dirs, L), d, k)
    ensures forall s :: s in M && s != d ==> InRange(g, L[s]) && SameBlocks(image, image', lba, g, L[s])
  {
    hide Live, ListingOf, Dropped, SameBlocks, SameOutside, NoLeaks, FreeCount, ChainAt, InRange;
  }
}
