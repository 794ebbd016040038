/** The injection theorems: a successful store adds one record that reads back, and disturbs nothing else. */
module Fat32Inject {
  import opened Bytes
  import opened DataBlocks
  import opened Chains
  import opened LongNames
  import opened Directory
  import opened Fat32Volume
  import opened Fat32Layout
  import opened Fat32Slots
  import opened Fat32Files
  import opened Fat32Live
  import opened Fat32Store

  lemma {:induction false} SameBlocksTrans(a: seq<byte>, b: seq<byte>, c: seq<byte>, lba: int, g: Geometry,
                                           cs: seq<nat>)
    requires Fits(g, lba, |a|) && |b| == |a| && |c| == |a| && InRange(g, cs)
    requires SameBlocks(a, b, lba, g, cs) && SameBlocks(b, c, lba, g, cs)
    ensures SameBlocks(a, c, lba, g, cs)
  {
    hide Block, Fits;
  }

  // ----- the stages on a live volume -----

  /** After the run is reserved. */
  ghost predicate Reserved(image: seq<byte>, lba: int, g: Geometry, fat: seq<byte>, dirs: set<nat>, L: Layout, d: nat,
                           req: nat, p: Placement)
    requires Fits(g, lba, |image|) && |p.image| == |image| && DirsIn(g, dirs, L) && InRange(g, p.chain)
  {
    && |p.fat| == |fat| && d in L && |L[d]| <= |p.chain|
    && Live(p.image, lba, g, Table(p.fat), dirs, L[d := p.chain])
    && ListingOf(p.image, lba, g, dirs, L[d := p.chain]) == ListingOf(image, lba, g, dirs, L)
    && Ready(DirSlots(p.image, lba, g, p.chain), DirSlots(p.image, lba, g, p.chain), p.start, req)
    && (forall s :: s in L && s != d ==> InRange(g, L[s]) && SameBlocks(image, p.image, lba, g, L[s]))
    && g.Top() <= |Table(fat)| && g.Top() <= |Table(p.fat)|
    && FreeCount(Table(p.fat), g.Top()) == FreeCount(Table(fat), g.Top()) - (|p.chain| - |L[d]|)
    && (NoLeaks(Table(fat), g, L) ==> NoLeaks(Table(p.fat), g, L[d := p.chain]))
    && SameOutside(image, p.image, lba, g)
  }

  lemma {:induction false} GrownFacts(image: seq<byte>, t: seq<nat>, chain: seq<nat>, image': seq<byte>, t': seq<nat>,
                                      chain': seq<nat>, lba: int, g: Geometry)
    requires Fits(g, lba, |image|) && chain != [] && Grown(image, t, chain, image', t', chain', lba, g)
    ensures |chain| <= |chain'| && g.Top() <= |t| && |t'| == |t| && |image'| == |image|
    ensures FreeCount(t', g.Top()) == FreeCount(t, g.Top()) - (|chain'| - |chain|)
    ensures SameOutside(image, image', lba, g)
  {
    hide IsChain, Block, Fits, FreeCount, SameOutside;
  }

  lemma {:induction false} PlacedParts(image: seq<byte>, lba: int, g: Geometry, fat: seq<byte>, chain: seq<nat>,
                                       req: nat, p: Placement)
    requires Fits(g, lba, |image|) && |fat| == g.FatBytes() && chain != [] && InRange(g, chain)
    requires |p.image| == |image| && |p.fat| == |fat| && InRange(g, p.chain) && p.chain != []
    requires PlacedOk(image, lba, g, fat, chain, req, p)
    ensures Grown(image, Table(fat), chain, p.image, Table(p.fat), p.chain, lba, g)
    ensures Ready(DirSlots(image, lba, g, chain), DirSlots(p.image, lba, g, p.chain), p.start, req)
    ensures Ready(DirSlots(p.image, lba, g, p.chain), DirSlots(p.image, lba, g, p.chain), p.start, req)
    ensures TailZero(DirSlots(p.image, lba, g, p.chain))
    ensures Records(DirSlots(p.image, lba, g, p.chain)) == Records(DirSlots(image, lba, g, chain))
  {
    hide Grown, DirSlots, Records, TailZero, Fits, Table, FirstFit, ChainFrom, Trailing, Fit;
  }

  lemma {:induction false} ReserveLive(image: seq<byte>, lba: int, g: Geometry, fat: seq<byte>, dirs: set<nat>,
                                       L: Layout, d: nat, req: nat)
    requires Fits(g, lba, |image|) && |fat| == g.FatBytes() && Live(image, lba, g, Table(fat), dirs, L) && d in dirs
    requires req > 0
    requires d in L && L[d] != [] && InRange(g, L[d]) && Place(image, lba, g, fat, L[d], req).ok
    ensures DirsIn(g, dirs, L) && Reserved(image, lba, g, fat, dirs, L, d, req, Place(image, lba, g, fat, L[d], req))
  {
    hide Live, Place, PlacedOk, DirSlots, Records, TailZero, Ready, Grown, ChainsOk, Fits, InRange, SameBlocks, Table,
         FreeCount, IsChain, SameOutside, DirsIn, ListingOf, NoLeaks;
    var t, p := Table(fat), Place(image, lba, g, fat, L[d], req);
    LiveParts(image, lba, g, t, dirs, L);
    LiveChain(image, lba, g, t, dirs, L, d);
    PlaceCorrect(image, lba, g, fat, L[d], req);
    PlacedParts(image, lba, g, fat, L[d], req, p);
    GrownFacts(image, t, L[d], p.image, Table(p.fat), p.chain, lba, g);
    GrownChains(image, t, p.image, Table(p.fat), p.chain, lba, g, L, d);
    GrownNoLeaks(image, t, p.image, Table(p.fat), p.chain, lba, g, L, d);
    GrownLive(image, t, p.image, Table(p.fat), p.chain, lba, g, dirs, L, d);
  }

  /** After the data clusters are linked and filled. */
  ghost predicate Filled(image: seq<byte>, t: seq<nat>, lba: int, g: Geometry, dirs: set<nat>, L: Layout,
                         data: seq<byte>, cs: seq<nat>, image': seq<byte>, t': seq<nat>)
    requires Fits(g, lba, |image|) && |image'| == |image| && InRange(g, cs) && DirsIn(g, dirs, L)
  {
    && Live(image', lba, g, t', dirs, L)
    && ListingOf(image', lba, g, dirs, L) == ListingOf(image, lba, g, dirs, L)
    && ChainsOk(t', g, AddChain(L, cs))
    && (cs != [] ==> cs[0] !in L && cs[0] >= 2)
    && (forall s :: s in L ==> InRange(g, L[s]) && SameBlocks(image, image', lba, g, L[s]) && Disjoint(cs, L[s]))
    && |Blocks(image', lba, g, cs)| >= |data| && Blocks(image', lba, g, cs)[..|data|] == data
    && g.Top() <= |t| && g.Top() <= |t'| && FreeCount(t', g.Top()) == FreeCount(t, g.Top()) - |cs|
    && (NoLeaks(t, g, L) ==> NoLeaks(t', g, AddChain(L, cs)))
    && SameOutside(image, image', lba, g)
  }

  lemma {:induction false} LinkedFresh(t: seq<nat>, cs: seq<nat>, top: nat)
    requires top <= |t| && top <= EOF && Distinct(cs) && forall i :: 0 <= i < |cs| ==> 2 <= cs[i] < top && t[cs[i]] == 0
    ensures |Link(t, cs, |cs|, EOF)| == |t|
    ensures cs != [] ==> IsChain(Link(t, cs, |cs|, EOF), cs, top, EOF)
    ensures forall c :: 0 <= c < |t| && c !in cs ==> Link(t, cs, |cs|, EOF)[c] == t[c]
    ensures FreeCount(Link(t, cs, |cs|, EOF), top) == FreeCount(t, top) - |cs|
  {
    if cs != [] { LinkMakesChain(t, cs, top, EOF); } else { assert Link(t, cs, 0, EOF) == t; }
    hide FreeCount, IsChain, Link;
  }

  lemma {:induction false} KeepsLiveParts(image: seq<byte>, t: seq<nat>, image': seq<byte>, t': seq<nat>, lba: int,
                                          g: Geometry, L: Layout)
    requires Fits(g, lba, |image|) && ChainsOk(t, g, L) && KeepsLive(image, t, image', t', lba, g, L)
    ensures |image'| == |image| && forall s :: s in L ==> InRange(g, L[s]) && SameBlocks(image, image', lba, g, L[s])
  {
  }

  lemma {:induction false} TouchesOutside(image: seq<byte>, image': seq<byte>, lba: int, g: Geometry, cs: set<nat>)
    requires Fits(g, lba, |image|) && Touches(image, image', lba, g, cs)
    ensures SameOutside(image, image', lba, g) && FatImage(image', lba, g) == FatImage(image, lba, g)
  {
  }

  lemma {:induction false} FillLive(image: seq<byte>, t: seq<nat>, lba: int, g: Geometry, dirs: set<nat>, L: Layout,
                                    data: seq<byte>, cs: seq<nat>)
    requires Fits(g, lba, |image|) && Live(image, lba, g, t, dirs, L) && g.Top() <= |t|
    requires Allocate(t, Needed(|data|, g.BlockBytes()), g.Top()) == Some(cs) && InRange(g, cs)
    ensures DirsIn(g, dirs, L)
    ensures Filled(image, t, lba, g, dirs, L, data, cs, PutData(image, lba, g, cs, data, |cs|), Link(t, cs, |cs|, EOF))
  {
    hide Live, Needed, Allocate, ChainsOk, KeepsLive, Fits, SameBlocks, FreeCount, IsChain, SameOutside, DirsIn,
         ListingOf, PutData, Link, Blocks, Touches, InRange, Distinct, NoLeaks;
    var image', t' := PutData(image, lba, g, cs, data, |cs|), Link(t, cs, |cs|, EOF);
    FitsBasics(g, lba, |image|);
    LiveParts(image, lba, g, t, dirs, L);
    TopBound(t, g, L);
    LinkedFresh(t, cs, g.Top());
    PutDataTouches(image, lba, g, cs, data, |cs|);
    TouchesOutside(image, image', lba, g, SetOf(cs));
    AllFreeIn(t, cs);
    FreshKeeps(image, t, image', t', lba, g, L, cs);
    KeepsLiveParts(image, t, image', t', lba, g, L);
    LiveFrame(image, t, image', t', lba, g, dirs, L);
    LiveParts(image', lba, g, t', dirs, L);
    AddedChain(t', g, L, cs);
    AddedNoLeaks(t, t', g, L, cs);
    FilledReads(image, lba, g, cs, data);
  }

  lemma {:induction false} AllFreeIn(t: seq<nat>, cs: seq<nat>)
    requires forall i :: 0 <= i < |cs| ==> 0 <= cs[i] < |t| && t[cs[i]] == 0
    ensures forall c :: c in cs ==> c < |t| && t[c] == 0
  {
  }

  lemma {:induction false} TopBound(t: seq<nat>, g: Geometry, L: Layout)
    requires ChainsOk(t, g, L)
    ensures g.Top() <= EOF && g.Top() <= |t|
  {
  }

  /** The record a stored file gets. */
  predicate Describes(r: Record, name: Name, alias: seq<byte>, first: nat, size: nat) {
    && |alias| == 11
    && r.name == (if Trim(name) != [] then Trim(name) else ShortName(alias))
    && r.alias == alias && r.cluster == first && r.size == size && r.attributes == ATTR_ARCHIVE && !r.IsDirectory()
  }

  lemma {:induction false} NewRecordDescribes(run: seq<nat>, name: Name, alias: seq<byte>, first: nat, size: nat)
    requires run != [] && |alias| == 11 && alias[0] !in {0, DELETED} && size < 0x1_0000_0000 && first < 0x1_0000_0000
    ensures Describes(NewRecord(run, name, ShortEntry(alias, first, size)), name, alias, first, size)
    ensures Short(Slot(0, ShortEntry(alias, first, size)))
  {
    ShortEntryFields(alias, first, size);
    hide ShortEntry, ShortName, Trim;
  }

  /** After the entries are written. */
  ghost predicate Named(image: seq<byte>, t: seq<nat>, lba: int, g: Geometry, dirs: set<nat>, L: Layout, d: nat,
                        cs: seq<nat>, image': seq<byte>, k: nat, r: Record)
    requires Fits(g, lba, |image|) && |image'| == |image| && DirsIn(g, dirs, L) && DirsIn(g, dirs, AddChain(L, cs))
  {
    && d in dirs && k <= |ListingOf(image, lba, g, dirs, L)[d]|
    && Live(image', lba, g, t, dirs, AddChain(L, cs))
    && ListingOf(image', lba, g, dirs, AddChain(L, cs))
       == ListingOf(image, lba, g, dirs, L)[d := With(ListingOf(image, lba, g, dirs, L)[d], k, r)]
    && (forall s :: s in L && s != d ==> InRange(g, L[s]) && SameBlocks(image, image', lba, g, L[s]))
    && InRange(g, cs) && SameBlocks(image, image', lba, g, cs)
    && SameOutside(image, image', lba, g)
  }

  lemma {:induction false} AddedDirs(g: Geometry, dirs: set<nat>, L: Layout, cs: seq<nat>)
    requires DirsIn(g, dirs, L) && (cs != [] ==> cs[0] !in L)
    ensures DirsIn(g, dirs, AddChain(L, cs)) && forall e :: e in dirs ==> AddChain(L, cs)[e] == L[e]
    ensures AddChain(L, cs).Keys == if cs == [] then L.Keys else L.Keys + {cs[0]}
  {
    hide InRange;
  }

  lemma {:induction false} ApartFrom(t: seq<nat>, g: Geometry, L: Layout, d: nat, s: nat)
    requires ChainsOk(t, g, L) && d in L && s in L && s != d
    ensures InRange(g, L[s]) && forall c :: c in L[s] ==> c !in SetOf(L[d])
  {
    LiveInRange(t, g, L, s);
    assert Disjoint(L[s], L[d]);
  }

  /** Everything is in place for the entries of a new file. */
  ghost predicate NameReady(image: seq<byte>, t: seq<nat>, lba: int, g: Geometry, dirs: set<nat>, L: Layout, d: nat,
                            cs: seq<nat>, start: nat, name: Name, alias: seq<byte>, size: nat)
    requires Fits(g, lba, |image|)
  {
    && Live(image, lba, g, t, dirs, L) && d in dirs && d in L && InRange(g, L[d])
    && ChainsOk(t, g, AddChain(L, cs)) && (cs != [] ==> cs[0] !in L && cs[0] >= 2) && InRange(g, cs)
    && (forall s :: s in L ==> Disjoint(cs, L[s]))
    && 1 <= EntryCount(name) <= 20 && Decodable(name) && |alias| == 11 && alias[0] !in {0, DELETED}
    && Ready(DirSlots(image, lba, g, L[d]), DirSlots(image, lba, g, L[d]), start, EntryCount(name) + 1)
    && size < 0x1_0000_0000 && FirstOf(cs) < 0x1_0000_0000
    && forall i :: 0 <= i < |ListingOf(image, lba, g, dirs, L)[d]| ==>
       ListingOf(image, lba, g, dirs, L)[d][i].alias != alias
  }

  function WithEntries(image: seq<byte>, lba: int, g: Geometry, chain: seq<nat>, start: nat, name: Name,
                       short: seq<byte>): (r: seq<byte>)
    requires Fits(g, lba, |image|) && InRange(g, chain) && EntryCount(name) <= 20 && |short| == 32
    requires start + EntryCount(name) + 1 <= |Offsets(lba, g, chain)|
    ensures |r| == |image|
  {
    OffsetsInImage(lba, g, chain, |image|);
    PutEntries(image, Offsets(lba, g, chain)[start..start + EntryCount(name) + 1], NewEntries(name, short),
               EntryCount(name) + 1)
  }

  lemma {:induction false} NameSlots(image: seq<byte>, t: seq<nat>, lba: int, g: Geometry, dirs: set<nat>, L: Layout,
                                     d: nat, cs: seq<nat>,
                                     start: nat, name: Name, alias: seq<byte>, size: nat) returns (k: nat, r: Record)
    requires Fits(g, lba, |image|) && NameReady(image, t, lba, g, dirs, L, d, cs, start, name, alias, size)
    ensures Describes(r, name, alias, FirstOf(cs), size) && start + EntryCount(name) + 1 <= |Offsets(lba, g, L[d])|
    ensures k <= |Records(DirSlots(image, lba, g, L[d]))|
    ensures start <= |DirSlots(image, lba, g, L[d])| && k == |Records(DirSlots(image, lba, g, L[d])[..start])|
    ensures var image' := WithEntries(image, lba, g, L[d], start, name, ShortEntry(alias, FirstOf(cs), size));
            && Touches(image, image', lba, g, SetOf(L[d]))
            && TailZero(DirSlots(image', lba, g, L[d]))
            && Records(DirSlots(image', lba, g, L[d])) == With(Records(DirSlots(image, lba, g, L[d])), k, r)
  {
    hide Live, DirSlots, Records, TailZero, NoEnd, AllFree, ChainsOk, Fits, InRange, Offsets, PutEntries, NewEntries,
         ShortEntry, Touches, Describes, With, EntryCount, Decodable, InImage, AddChain, ListingOf;
    FitsBasics(g, lba, |image|);
    var n, chain := EntryCount(name) + 1, L[d];
    var short := ShortEntry(alias, FirstOf(cs), size);
    var run := Offsets(lba, g, chain)[start..start + n];
    r := NewRecord(run, name, short);
    NewRecordDescribes(run, name, alias, FirstOf(cs), size);
    LiveChain(image, lba, g, t, dirs, L, d);
    WrittenRecord(image, lba, g, chain, start, name, short);
    k := |Records(DirSlots(image, lba, g, chain)[..start])|;
  }

  lemma {:induction false} NameReadyParts(image: seq<byte>, t: seq<nat>, lba: int, g: Geometry, dirs: set<nat>,
                                          L: Layout, d: nat, cs: seq<nat>, start: nat, name: Name, alias: seq<byte>,
                                          size: nat)
    requires Fits(g, lba, |image|) && NameReady(image, t, lba, g, dirs, L, d, cs, start, name, alias, size)
    ensures Live(image, lba, g, t, dirs, L) && d in dirs && DirsIn(g, dirs, L) && d in L && InRange(g, L[d])
    ensures ChainsOk(t, g, L)
    ensures ChainsOk(t, g, AddChain(L, cs)) && (cs != [] ==> cs[0] !in L && cs[0] >= 2) && InRange(g, cs)
    ensures forall s :: s in L ==> Disjoint(cs, L[s])
    ensures forall i :: 0 <= i < |ListingOf(image, lba, g, dirs, L)[d]| ==>
            ListingOf(image, lba, g, dirs, L)[d][i].alias != alias
    ensures EntryCount(name) <= 20 && |alias| == 11 && size < 0x1_0000_0000
  {
    hide ChainsOk, DirSlots, OwnersOk, DirsClean, Ready, Fits, InRange;
  }

  lemma {:induction false} NameLive(image: seq<byte>, t: seq<nat>, lba: int, g: Geometry, dirs: set<nat>, L: Layout,
                                    d: nat, cs: seq<nat>,
                                    start: nat, name: Name, alias: seq<byte>, size: nat) returns (k: nat, r: Record)
    requires Fits(g, lba, |image|) && NameReady(image, t, lba, g, dirs, L, d, cs, start, name, alias, size)
    ensures DirsIn(g, dirs, L) && DirsIn(g, dirs, AddChain(L, cs)) && Describes(r, name, alias, FirstOf(cs), size)
    ensures EntryCount(name) <= 20 && |alias| == 11 && size < 0x1_0000_0000
    ensures start + EntryCount(name) + 1 <= |Offsets(lba, g, L[d])|
    ensures Named(image, t, lba, g, dirs, L, d, cs,
                  WithEntries(image, lba, g, L[d], start, name, ShortEntry(alias, FirstOf(cs), size)), k, r)
    ensures d in L && InRange(g, L[d]) && start <= |DirSlots(image, lba, g, L[d])|
    ensures k == |Records(DirSlots(image, lba, g, L[d])[..start])|
  {
    hide *;
    FitsBasics(g, lba, |image|);
    NameReadyParts(image, t, lba, g, dirs, L, d, cs, start, name, alias, size);
    k, r := NameSlots(image, t, lba, g, dirs, L, d, cs, start, name, alias, size);
    var chain, L', R := L[d], AddChain(L, cs), ListingOf(image, lba, g, dirs, L);
    var image' := WithEntries(image, lba, g, chain, start, name, ShortEntry(alias, FirstOf(cs), size));
    LiveParts(image, lba, g, t, dirs, L);
    LiveChain(image, lba, g, t, dirs, L, d);
    TouchesOutside(image, image', lba, g, SetOf(chain));
    AddedDirs(g, dirs, L, cs);
    forall s | s in L && s != d ensures InRange(g, L[s]) && SameBlocks(image, image', lba, g, L[s]) {
      ApartFrom(t, g, L, d, s);
      TouchesSameBlocks(image, image', lba, g, SetOf(chain), L[s]);
    }
    DisjointSet(cs, chain);
    TouchesSameBlocks(image, image', lba, g, SetOf(chain), cs);
    var R' := R[d := With(R[d], k, r)];
    NewAdmissible(R, L.Keys, d, r, name, alias, cs, size);
    OwnersInsert(R, L.Keys, d, k, r, L'.Keys);
    assert R'.Keys == dirs;
    forall e | e in dirs
      ensures e in L' && InRange(g, L'[e]) && TailZero(DirSlots(image', lba, g, L'[e]))
      ensures Records(DirSlots(image', lba, g, L'[e])) == R'[e]
    {
      LiveChain(image, lba, g, t, dirs, L, e);
      InRangeOf(g, dirs, L', e);
      if e != d { DirSlotsFrame(image, image', lba, g, L[e]); }
    }
    LiveFrom(image', lba, g, t, dirs, L', R');
    NamedFrom(image, t, lba, g, dirs, L, d, cs, image', k, r);
  }

  lemma {:induction false} InRangeOf(g: Geometry, dirs: set<nat>, L: Layout, e: nat)
    requires DirsIn(g, dirs, L) && e in dirs
    ensures e in L && InRange(g, L[e])
  {
  }

  lemma {:induction false} NamedFrom(image: seq<byte>, t: seq<nat>, lba: int, g: Geometry, dirs: set<nat>, L: Layout,
                                     d: nat, cs: seq<nat>, image': seq<byte>, k: nat, r: Record)
    requires Fits(g, lba, |image|) && |image'| == |image| && DirsIn(g, dirs, L) && DirsIn(g, dirs, AddChain(L, cs))
    requires d in dirs && k <= |ListingOf(image, lba, g, dirs, L)[d]| && Live(image', lba, g, t, dirs, AddChain(L, cs))
    requires ListingOf(image', lba, g, dirs, AddChain(L, cs))
             == ListingOf(image, lba, g, dirs, L)[d := With(ListingOf(image, lba, g, dirs, L)[d], k, r)]
    requires forall s :: s in L && s != d ==> InRange(g, L[s]) && SameBlocks(image, image', lba, g, L[s])
    requires InRange(g, cs) && SameBlocks(image, image', lba, g, cs) && SameOutside(image, image', lba, g)
    ensures Named(image, t, lba, g, dirs, L, d, cs, image', k, r)
  {
    hide Live, ListingOf, With, SameBlocks, SameOutside, InRange, Fits;
  }

  lemma {:induction false} DisjointSet(cs: seq<nat>, chain: seq<nat>)
    requires Disjoint(cs, chain)
    ensures forall c :: c in cs ==> c !in SetOf(chain)
  {
  }

  lemma {:induction false} NewAdmissible(R: Listing, keys: set<nat>, d: nat, r: Record, name: Name, alias: seq<byte>,
                                         cs: seq<nat>, size: nat)
    requires d in R && Describes(r, name, alias, FirstOf(cs), size) && (cs != [] ==> cs[0] !in keys)
    requires forall i :: 0 <= i < |R[d]| ==> R[d][i].alias != alias
    ensures Admissible(R, keys, d, r)
    ensures cs == [] ==> r.cluster < 2
    ensures cs != [] ==> r.cluster == cs[0]
  {
  }

  /** After every FAT copy is written. */
  ghost predicate Flushed(image: seq<byte>, t: seq<nat>, lba: int, g: Geometry, dirs: set<nat>, L: Layout,
                          fat: seq<byte>, image': seq<byte>)
    requires Fits(g, lba, |image|) && |image'| == |image| && DirsIn(g, dirs, L)
  {
    && Live(image', lba, g, t, dirs, L)
    && ListingOf(image', lba, g, dirs, L) == ListingOf(image, lba, g, dirs, L)
    && (forall s :: s in L ==> InRange(g, L[s]) && SameBlocks(image, image', lba, g, L[s]))
    && FatImage(image', lba, g) == fat
    && (forall i :: 0 <= i < g.fatCount ==> FatCopy(image', lba, g, i) == fat)
    && SameOutside(image, image', lba, g)
  }

  lemma {:induction false} FlushBlocks(image: seq<byte>, lba: int, g: Geometry, fat: seq<byte>, cs: seq<nat>)
    requires Fits(g, lba, |image|) && |fat| == g.FatBytes() && InRange(g, cs)
    ensures SameBlocks(image, PutFats(image, lba, g, fat, g.fatCount), lba, g, cs)
  {
    hide Fits, PutFats, Block, AreaStart;
    PutFatsFrame(image, lba, g, fat, g.fatCount);
    forall i | 0 <= i < |cs|
      ensures Block(PutFats(image, lba, g, fat, g.fatCount), lba, g, cs[i]) == Block(image, lba, g, cs[i])
    {
      AreaBlocks(image, PutFats(image, lba, g, fat, g.fatCount), lba, g, cs[i]);
    }
  }

  lemma {:induction false} FirstCopy(image: seq<byte>, lba: int, g: Geometry)
    requires Fits(g, lba, |image|)
    ensures FatImage(image, lba, g) == FatCopy(image, lba, g, 0)
  {
  }

  lemma {:induction false} FlushLive(image: seq<byte>, t: seq<nat>, lba: int, g: Geometry, dirs: set<nat>, L: Layout,
                                     fat: seq<byte>)
    requires Fits(g, lba, |image|) && Live(image, lba, g, t, dirs, L) && |fat| == g.FatBytes()
    ensures DirsIn(g, dirs, L) && Flushed(image, t, lba, g, dirs, L, fat, PutFats(image, lba, g, fat, g.fatCount))
  {
    hide Live, ChainsOk, Fits, InRange, SameBlocks, SameOutside, DirsIn, ListingOf, PutFats, FatImage, FatCopy,
         AreaStart;
    var image' := PutFats(image, lba, g, fat, g.fatCount);
    FitsBasics(g, lba, |image|);
    LiveParts(image, lba, g, t, dirs, L);
    PutFatsFrame(image, lba, g, fat, g.fatCount);
    forall i | 0 <= i < g.fatCount
      ensures FatCopy(image', lba, g, i) == fat
    {
      PutFatsCopies(image, lba, g, fat, g.fatCount, i);
    }
    FirstCopy(image', lba, g);
    forall s | s in L ensures InRange(g, L[s]) && SameBlocks(image, image', lba, g, L[s]) {
      LiveInRange(t, g, L, s);
      FlushBlocks(image, lba, g, fat, L[s]);
    }
    LiveFrame(image, t, image', t, lba, g, dirs, L);
  }

  // ----- the whole store -----

  /** The free clusters the data gets, and the image once everything is written. */
  lemma {:induction false} StoreUnfold(image: seq<byte>, lba: int, g: Geometry, fat: seq<byte>, d: nat, chain: seq<nat>,
                                       name: Name, alias: seq<byte>, data: seq<byte>)
      returns (p: Placement, cs: seq<nat>)
    requires Fits(g, lba, |image|) && |fat| == g.FatBytes() && |alias| == 11 && chain != [] && InRange(g, chain)
    requires DirChain(Table(fat), g, d) == Ok(chain)
    requires Store(image, lba, g, fat, d, name, alias, data).error == None
    ensures 1 <= EntryCount(name) <= 20 && Decodable(name) && |data| < 0x1_0000_0000
    ensures p == Place(image, lba, g, fat, chain, EntryCount(name) + 1) && p.ok
    ensures Allocate(Table(p.fat), Needed(|data|, g.BlockBytes()), g.Top()) == Some(cs) && InRange(g, cs)
    ensures forall i :: 0 <= i < |cs| ==> 4 * cs[i] + 4 <= |p.fat|
    ensures Store(image, lba, g, fat, d, name, alias, data).image
            == PutFats(WithEntries(PutData(p.image, lba, g, cs, data, |cs|), lba, g, p.chain, p.start, name,
                                   ShortEntry(alias, FirstOf(cs), |data|)),
                       lba, g, LinkFat(p.fat, cs, |cs|), g.fatCount)
  {
    hide Place, PutData, LinkFat, PutFats, PutEntries, NewEntries, ShortEntry, DirChain, Table, Decodable, Offsets,
         Needed;
    FitsBasics(g, lba, |image|);
    Utf8AtLeast(name);
    p := Place(image, lba, g, fat, chain, EntryCount(name) + 1);
    cs := Allocate(Table(p.fat), Needed(|data|, g.BlockBytes()), g.Top()).value;
  }

  /** Where in the listing a record for `name` goes, and how many clusters the directory gains. */
  ghost predicate Lands(image: seq<byte>, lba: int, g: Geometry, chain: seq<nat>, name: Name, k: nat, more: int)
    requires Fits(g, lba, |image|) && InRange(g, chain)
  {
    && g.BlockSlots() > 0
    && k == InsertAt(DirSlots(image, lba, g, chain), EntryCount(name) + 1)
    && more == Extension(DirSlots(image, lba, g, chain), EntryCount(name) + 1, g.BlockSlots())
  }

  lemma {:induction false} LandsAt(image: seq<byte>, lba: int, g: Geometry, fat: seq<byte>, chain: seq<nat>, name: Name,
                                   k: nat, image2: seq<byte>)
    requires Fits(g, lba, |image|) && |fat| == g.FatBytes() && chain != [] && InRange(g, chain) && |image2| == |image|
    requires IsChain(Table(fat), chain, g.Top(), EOF) && TailZero(DirSlots(image, lba, g, chain))
    requires Place(image, lba, g, fat, chain, EntryCount(name) + 1).ok
    requires var p := Place(image, lba, g, fat, chain, EntryCount(name) + 1);
             && SameBlocks(p.image, image2, lba, g, p.chain) && p.start <= |DirSlots(image2, lba, g, p.chain)|
             && k == |Records(DirSlots(image2, lba, g, p.chain)[..p.start])|
    ensures Lands(image, lba, g, chain, name, k,
                  |Place(image, lba, g, fat, chain, EntryCount(name) + 1).chain| - |chain|)
  {
    hide Fits, InRange, Place, DirSlots, Records, TailZero, IsChain, Table, SameBlocks, InsertAt, Extension, EntryCount,
         FreeCount;
    var req := EntryCount(name) + 1;
    var p := Place(image, lba, g, fat, chain, req);
    SlotsPerBlock(g, lba, |image|, fat);
    DirSlotsFrame(p.image, image2, lba, g, p.chain);
    PlaceIndex(image, lba, g, fat, chain, req);
    PlaceSucceeds(image, lba, g, fat, chain, req);
  }

  lemma {:induction false} SlotsPerBlock(g: Geometry, lba: int, len: nat, fat: seq<byte>)
    requires Fits(g, lba, len) && |fat| == g.FatBytes()
    ensures g.BlockSlots() > 0 && g.Top() <= |Table(fat)|
  {
    FitsBasics(g, lba, len);
  }

  /** What a successful store of `data` under `alias` in directory `d` leaves behind. */
  ghost predicate Stored(image: seq<byte>, t: seq<nat>, lba: int, g: Geometry, dirs: set<nat>, L: Layout, d: nat,
                         name: Name, alias: seq<byte>, data: seq<byte>, image': seq<byte>, L': Layout, k: nat,
                         r: Record)
    requires Fits(g, lba, |image|) && |image'| == |image| && DirsIn(g, dirs, L) && g.Top() <= |t|
  {
    var t' := Table(FatImage(image', lba, g));
    && Live(image', lba, g, t', dirs, L')
    && d in dirs && k <= |ListingOf(image, lba, g, dirs, L)[d]|
    && ListingOf(image', lba, g, dirs, L')
       == ListingOf(image, lba, g, dirs, L)[d := With(ListingOf(image, lba, g, dirs, L)[d], k, r)]
    && Describes(r, name, alias, r.cluster, |data|)
    && ReadRecord(image', lba, g, t', r) == Ok(data) && (r.cluster < 2 || r.cluster !in L)
    && KeepsFiles(image, image', lba, g, dirs, L, L')
    && (forall i :: 0 <= i < g.fatCount ==> FatCopy(image', lba, g, i) == FatImage(image', lba, g))
    && d in L && d in L' && |L[d]| <= |L'[d]|
    && InRange(g, L[d]) && Lands(image, lba, g, L[d], name, k, |L'[d]| - |L[d]|)
    && FreeCount(t', g.Top()) == FreeCount(t, g.Top()) - Needed(|data|, g.BlockBytes()) - (|L'[d]| - |L[d]|)
    && (NoLeaks(t, g, L) ==> NoLeaks(t', g, L'))
    && SameOutside(image, image', lba, g)
  }

  /** Every file chain that was live is still there with the same bytes. */
  ghost predicate KeepsFiles(image: seq<byte>, image': seq<byte>, lba: int, g: Geometry, dirs: set<nat>, L: Layout,
                             L': Layout)
    requires Fits(g, lba, |image|) && |image'| == |image|
  {
    forall s :: s in L && s !in dirs ==>
      s in L' && L'[s] == L[s] && ChainBytes(image', lba, g, L', s) == ChainBytes(image, lba, g, L, s)
  }

  lemma {:induction false} ReadyMoved(image: seq<byte>, image': seq<byte>, lba: int, g: Geometry, chain: seq<nat>,
                                      start: nat, req: nat)
    requires Fits(g, lba, |image|) && |image'| == |image| && InRange(g, chain)
    requires SameBlocks(image, image', lba, g, chain)
    requires Ready(DirSlots(image, lba, g, chain), DirSlots(image, lba, g, chain), start, req)
    ensures Ready(DirSlots(image', lba, g, chain), DirSlots(image', lba, g, chain), start, req)
  {
    hide *;
    DirSlotsFrame(image, image', lba, g, chain);
  }

  /** The volume between reserving the run and writing the entries. */
  lemma {:induction false} StoreNameReady(image: seq<byte>, lba: int, g: Geometry, fat: seq<byte>, dirs: set<nat>,
                                          L: Layout, d: nat, name: Name, alias: seq<byte>, data: seq<byte>,
                                          p: Placement, cs: seq<nat>, image2: seq<byte>, t2: seq<nat>)
    requires Fits(g, lba, |image|) && |fat| == g.FatBytes() && Live(image, lba, g, Table(fat), dirs, L) && d in dirs
    requires d in L && DirsIn(g, dirs, L)
    requires |p.image| == |image| && InRange(g, p.chain)
    requires Reserved(image, lba, g, fat, dirs, L, d, EntryCount(name) + 1, p)
    requires 1 <= EntryCount(name) <= 20 && Decodable(name) && |data| < 0x1_0000_0000 && |alias| == 11
    requires alias[0] !in {0, DELETED}
    requires InRange(g, cs) && DirsIn(g, dirs, L[d := p.chain]) && |image2| == |image|
    requires Filled(p.image, Table(p.fat), lba, g, dirs, L[d := p.chain], data, cs, image2, t2)
    requires forall i :: 0 <= i < |ListingOf(image, lba, g, dirs, L)[d]| ==>
             ListingOf(image, lba, g, dirs, L)[d][i].alias != alias
    ensures NameReady(image2, t2, lba, g, dirs, L[d := p.chain], d, cs, p.start, name, alias, |data|)
  {
    hide Live, Table, ChainsOk, DirSlots, Ready, InRange, SameBlocks, Blocks, FreeCount, SameOutside, ListingOf, DirsIn,
         Fits, EntryCount, Decodable, NoLeaks;
    var L1 := L[d := p.chain];
    assert L1[d] == p.chain;
    ReadyMoved(p.image, image2, lba, g, p.chain, p.start, EntryCount(name) + 1);
    FirstSmall(t2, g, L1, cs);
  }

  lemma {:induction false} FirstSmall(t: seq<nat>, g: Geometry, L: Layout, cs: seq<nat>)
    requires ChainsOk(t, g, AddChain(L, cs)) && InRange(g, cs)
    ensures FirstOf(cs) < 0x1_0000_0000
  {
  }

  /** Storing in a well-formed directory under an alias nobody there uses. */
  lemma {:induction false} StoreCorrect(image: seq<byte>, lba: int, g: Geometry, fat: seq<byte>, dirs: set<nat>,
                                        L: Layout, d: nat, name: Name,
                                        alias: seq<byte>, data: seq<byte>) returns (L': Layout, k: nat, r: Record)
    requires Fits(g, lba, |image|) && |fat| == g.FatBytes() && Live(image, lba, g, Table(fat), dirs, L) && d in dirs
    requires DirsIn(g, dirs, L)
    requires |alias| == 11 && alias[0] !in {0, DELETED} && g.Top() <= |Table(fat)|
    requires forall i :: 0 <= i < |ListingOf(image, lba, g, dirs, L)[d]| ==>
             ListingOf(image, lba, g, dirs, L)[d][i].alias != alias
    requires Store(image, lba, g, fat, d, name, alias, data).error == None
    ensures Stored(image, Table(fat), lba, g, dirs, L, d, name, alias, data,
                   Store(image, lba, g, fat, d, name, alias, data).image, L', k, r)
  {
    hide *;
    LiveChain(image, lba, g, Table(fat), dirs, L, d);
    var p, cs := StoreUnfold(image, lba, g, fat, d, L[d], name, alias, data);
    ReserveLive(image, lba, g, fat, dirs, L, d, EntryCount(name) + 1);
    ReservedParts(image, lba, g, fat, dirs, L, d, EntryCount(name) + 1, p);
    var L1, t1 := L[d := p.chain], Table(p.fat);
    FillLive(p.image, t1, lba, g, dirs, L1, data, cs);
    var image2, t2 := PutData(p.image, lba, g, cs, data, |cs|), Link(t1, cs, |cs|, EOF);
    StoreNameReady(image, lba, g, fat, dirs, L, d, name, alias, data, p, cs, image2, t2);
    k, r := NameLive(image2, t2, lba, g, dirs, L1, d, cs, p.start, name, alias, |data|);
    var image3 := WithEntries(image2, lba, g, p.chain, p.start, name, ShortEntry(alias, FirstOf(cs), |data|));
    L' := AddChain(L1, cs);
    NamedParts(image2, t2, lba, g, dirs, L1, d, cs, image3, k, r);
    var fat2 := LinkFat(p.fat, cs, |cs|);
    FlushLive(image3, t2, lba, g, dirs, L', fat2);
    var image4 := PutFats(image3, lba, g, fat2, g.fatCount);
    StoredTable(p.fat, g, L1, t1, cs);
    StagesFrom(image, lba, g, fat, dirs, L, d, data, EntryCount(name) + 1, p, cs, image2, t2, image3, fat2, image4, k,
               r);
    FilledDir(p.image, t1, lba, g, dirs, L1, data, cs, image2, t2, d);
    LandsAt(image, lba, g, fat, L[d], name, k, image2);
    StoredFrom(image, lba, g, fat, dirs, L, d, name, alias, data, EntryCount(name) + 1, p, cs, image2, t2, image3,
               fat2, image4, k, r);
  }

  lemma {:induction false} ReservedParts(image: seq<byte>, lba: int, g: Geometry, fat: seq<byte>, dirs: set<nat>,
                                         L: Layout, d: nat, req: nat, p: Placement)
    requires Fits(g, lba, |image|) && |p.image| == |image| && DirsIn(g, dirs, L) && InRange(g, p.chain)
    requires Reserved(image, lba, g, fat, dirs, L, d, req, p)
    ensures Live(p.image, lba, g, Table(p.fat), dirs, L[d := p.chain]) && DirsIn(g, dirs, L[d := p.chain])
    ensures g.Top() <= |Table(p.fat)|
    ensures ChainsOk(Table(p.fat), g, L[d := p.chain])
  {
    hide ChainsOk, DirSlots, Ready, SameBlocks, OwnersOk, DirsClean, Table, NoLeaks;
  }

  lemma {:induction false} FilledDir(image: seq<byte>, t: seq<nat>, lba: int, g: Geometry, dirs: set<nat>, L: Layout,
                                     data: seq<byte>, cs: seq<nat>, image': seq<byte>, t': seq<nat>, d: nat)
    requires Fits(g, lba, |image|) && |image'| == |image| && InRange(g, cs) && DirsIn(g, dirs, L)
    requires Filled(image, t, lba, g, dirs, L, data, cs, image', t') && d in L
    ensures InRange(g, L[d]) && SameBlocks(image, image', lba, g, L[d])
  {
    hide Live, ListingOf, ChainsOk, Blocks, FreeCount, NoLeaks, SameOutside, SameBlocks, InRange, Disjoint;
  }

  lemma {:induction false} NamedParts(image: seq<byte>, t: seq<nat>, lba: int, g: Geometry, dirs: set<nat>, L: Layout,
                                      d: nat, cs: seq<nat>, image': seq<byte>, k: nat, r: Record)
    requires Fits(g, lba, |image|) && |image'| == |image| && DirsIn(g, dirs, L) && DirsIn(g, dirs, AddChain(L, cs))
    requires Named(image, t, lba, g, dirs, L, d, cs, image', k, r)
    ensures Live(image', lba, g, t, dirs, AddChain(L, cs))
  {
  }

  lemma {:induction false} StoredTable(fat: seq<byte>, g: Geometry, L: Layout, t: seq<nat>, cs: seq<nat>)
    requires t == Table(fat) && ChainsOk(t, g, L) && InRange(g, cs) && forall i :: 0 <= i < |cs| ==>
             4 * cs[i] + 4 <= |fat|
    ensures Table(LinkFat(fat, cs, |cs|)) == Link(t, cs, |cs|, EOF)
  {
    hide Table, LinkFat;
    TopBound(t, g, L);
    LinkFatTable(fat, cs, |cs|);
  }

  /** The four stages behind a finished store. */
  ghost predicate Stages(image: seq<byte>, lba: int, g: Geometry, fat: seq<byte>, dirs: set<nat>, L: Layout, d: nat,
                         data: seq<byte>, req: nat, p: Placement, cs: seq<nat>, image2: seq<byte>, t2: seq<nat>,
                         image3: seq<byte>, fat2: seq<byte>, image4: seq<byte>, k: nat, r: Record)
    requires Fits(g, lba, |image|)
  {
    && |p.image| == |image| && |image2| == |image| && |image3| == |image| && |image4| == |image|
    && DirsIn(g, dirs, L) && InRange(g, p.chain) && d in dirs && d in L && InRange(g, cs)
    && DirsIn(g, dirs, L[d := p.chain]) && DirsIn(g, dirs, AddChain(L[d := p.chain], cs))
    && Reserved(image, lba, g, fat, dirs, L, d, req, p)
    && Filled(p.image, Table(p.fat), lba, g, dirs, L[d := p.chain], data, cs, image2, t2)
    && Named(image2, t2, lba, g, dirs, L[d := p.chain], d, cs, image3, k, r)
    && Flushed(image3, t2, lba, g, dirs, AddChain(L[d := p.chain], cs), fat2, image4)
    && Table(fat2) == t2
  }

  lemma {:induction false} StagesFrom(image: seq<byte>, lba: int, g: Geometry, fat: seq<byte>, dirs: set<nat>,
                                      L: Layout, d: nat, data: seq<byte>, req: nat, p: Placement, cs: seq<nat>,
                                      image2: seq<byte>, t2: seq<nat>, image3: seq<byte>, fat2: seq<byte>,
                                      image4: seq<byte>, k: nat, r: Record)
    requires Fits(g, lba, |image|)
    requires |p.image| == |image| && |image2| == |image| && |image3| == |image| && |image4| == |image|
    requires DirsIn(g, dirs, L) && InRange(g, p.chain) && d in dirs && d in L && InRange(g, cs)
    requires DirsIn(g, dirs, L[d := p.chain]) && DirsIn(g, dirs, AddChain(L[d := p.chain], cs))
    requires Reserved(image, lba, g, fat, dirs, L, d, req, p)
    requires Filled(p.image, Table(p.fat), lba, g, dirs, L[d := p.chain], data, cs, image2, t2)
    requires Named(image2, t2, lba, g, dirs, L[d := p.chain], d, cs, image3, k, r)
    requires Flushed(image3, t2, lba, g, dirs, AddChain(L[d := p.chain], cs), fat2, image4)
    requires Table(fat2) == t2
    ensures Stages(image, lba, g, fat, dirs, L, d, data, req, p, cs, image2, t2, image3, fat2, image4, k, r)
  {
    hide Reserved, Filled, Named, Flushed, DirsIn, InRange, Fits, Table;
  }

  lemma {:induction false} StagesKeepFile(image: seq<byte>, lba: int, g: Geometry, fat: seq<byte>, dirs: set<nat>,
                                          L: Layout, d: nat, data: seq<byte>, req: nat, p: Placement, cs: seq<nat>,
                                          image2: seq<byte>, t2: seq<nat>, image3: seq<byte>, fat2: seq<byte>,
                                          image4: seq<byte>, k: nat, r: Record, s: nat)
    requires Fits(g, lba, |image|)
    requires Stages(image, lba, g, fat, dirs, L, d, data, req, p, cs, image2, t2, image3, fat2, image4, k, r)
    requires s in L && s != d
    ensures |image4| == |image| && s in AddChain(L[d := p.chain], cs) && AddChain(L[d := p.chain], cs)[s] == L[s]
    ensures ChainBytes(image4, lba, g, AddChain(L[d := p.chain], cs), s) == ChainBytes(image, lba, g, L, s)
  {
    hide Live, ChainsOk, ListingOf, DirsIn, Table, FreeCount, SameOutside, SameBlocks, InRange, Fits, Blocks, Ready,
         DirSlots, FatImage, FatCopy, With, NoLeaks;
    assert L[d := p.chain][s] == L[s] && AddChain(L[d := p.chain], cs)[s] == L[s];
    SameBlocksTrans(image, p.image, image2, lba, g, L[s]);
    SameBlocksTrans(image, image2, image3, lba, g, L[s]);
    SameBlocksTrans(image, image3, image4, lba, g, L[s]);
    BlocksFrame(image, image4, lba, g, L[s]);
  }

  lemma {:induction false} StagesRead(image: seq<byte>, lba: int, g: Geometry, fat: seq<byte>, dirs: set<nat>,
                                      L: Layout, d: nat, data: seq<byte>, req: nat, p: Placement, cs: seq<nat>,
                                      image2: seq<byte>, t2: seq<nat>, image3: seq<byte>, fat2: seq<byte>,
                                      image4: seq<byte>, k: nat, r: Record)
    requires Fits(g, lba, |image|)
    requires Stages(image, lba, g, fat, dirs, L, d, data, req, p, cs, image2, t2, image3, fat2, image4, k, r)
    requires r.cluster == FirstOf(cs) && r.size == |data| && g.Top() <= |t2|
    ensures ReadRecord(image4, lba, g, t2, r) == Ok(data)
  {
    hide Live, ChainsOk, ListingOf, DirsIn, Table, FreeCount, SameOutside, SameBlocks, InRange, Fits, Ready, DirSlots,
         FatImage, FatCopy, With, ReadRecord, Blocks, NoLeaks;
    var L' := AddChain(L[d := p.chain], cs);
    LiveParts(image4, lba, g, t2, dirs, L');
    ReadRecordLive(image4, lba, g, t2, L', r);
    if cs == [] {
      NoBlocks(image2, lba, g);
      if 0 in L' { LiveHead(t2, g, L', 0); }
    } else {
      assert L'[cs[0]] == cs;
      SameBlocksTrans(image2, image3, image4, lba, g, cs);
      BlocksFrame(image2, image4, lba, g, cs);
    }
  }

  lemma {:induction false} NoBlocks(image: seq<byte>, lba: int, g: Geometry)
    requires Fits(g, lba, |image|)
    ensures InRange(g, []) && Blocks(image, lba, g, []) == []
  {
  }

  lemma {:induction false} StagesOutside(image: seq<byte>, lba: int, g: Geometry, fat: seq<byte>, dirs: set<nat>,
                                         L: Layout, d: nat, data: seq<byte>, req: nat, p: Placement, cs: seq<nat>,
                                         image2: seq<byte>, t2: seq<nat>, image3: seq<byte>, fat2: seq<byte>,
                                         image4: seq<byte>, k: nat, r: Record)
    requires Fits(g, lba, |image|)
    requires Stages(image, lba, g, fat, dirs, L, d, data, req, p, cs, image2, t2, image3, fat2, image4, k, r)
    ensures SameOutside(image, image4, lba, g)
  {
    hide Live, ChainsOk, ListingOf, DirsIn, Table, FreeCount, SameOutside, SameBlocks, InRange, Fits, Ready, DirSlots,
         FatImage, FatCopy, With, Blocks, NoLeaks;
    SameOutsideTrans(image, p.image, image2, lba, g);
    SameOutsideTrans(image, image2, image3, lba, g);
    SameOutsideTrans(image, image3, image4, lba, g);
  }

  lemma {:induction false} StoredFrom(image: seq<byte>, lba: int, g: Geometry, fat: seq<byte>, dirs: set<nat>,
                                      L: Layout, d: nat, name: Name, alias: seq<byte>, data: seq<byte>, req: nat,
                                      p: Placement, cs: seq<nat>, image2: seq<byte>, t2: seq<nat>, image3: seq<byte>,
                                      fat2: seq<byte>, image4: seq<byte>, k: nat, r: Record)
    requires Fits(g, lba, |image|) && DirsIn(g, dirs, L) && g.Top() <= |Table(fat)|
    requires Stages(image, lba, g, fat, dirs, L, d, data, req, p, cs, image2, t2, image3, fat2, image4, k, r)
    requires Describes(r, name, alias, FirstOf(cs), |data|)
    requires |cs| == Needed(|data|, g.BlockBytes())
    requires d in L && InRange(g, L[d]) && Lands(image, lba, g, L[d], name, k, |p.chain| - |L[d]|)
    ensures |image4| == |image|
    ensures Stored(image, Table(fat), lba, g, dirs, L, d, name, alias, data, image4, AddChain(L[d := p.chain], cs), k,
                   r)
  {
    hide Live, ChainsOk, ListingOf, DirsIn, Table, FreeCount, SameOutside, SameBlocks, InRange, Fits, Ready, DirSlots,
         FatImage, FatCopy, With, ReadRecord, Blocks, ShortName, Trim, ChainBytes, Needed, NoLeaks, Lands;
    var L' := AddChain(L[d := p.chain], cs);
    StagesRead(image, lba, g, fat, dirs, L, d, data, req, p, cs, image2, t2, image3, fat2, image4, k, r);
    StagesOutside(image, lba, g, fat, dirs, L, d, data, req, p, cs, image2, t2, image3, fat2, image4, k, r);
    forall s | s in L && s !in dirs
      ensures s in L' && L'[s] == L[s] && ChainBytes(image4, lba, g, L', s) == ChainBytes(image, lba, g, L, s)
    {
      StagesKeepFile(image, lba, g, fat, dirs, L, d, data, req, p, cs, image2, t2, image3, fat2, image4, k, r, s);
    }
  }

  lemma {:induction false} DirChainOf(t: seq<nat>, g: Geometry, M: Layout, d: nat)
    requires ChainsOk(t, g, M) && d in M
    ensures g.Top() <= |t| && DirChain(t, g, d) == Ok(M[d])
  {
    hide ChainsOk, IsChain, ChainFrom;
    TopBound(t, g, M);
    LiveInRange(t, g, M, d);
    WalkReturnsChain(t, M[d], g.Top(), EOF);
  }

  /** A store succeeds exactly when the name can be kept, the size fits its field and the clusters are there. */
  lemma {:induction false} StoreSucceeds(image: seq<byte>, lba: int, g: Geometry, fat: seq<byte>, L: Layout, d: nat,
                                         name: Name, alias: seq<byte>, data: seq<byte>)
    requires Fits(g, lba, |image|) && |fat| == g.FatBytes() && ChainsOk(Table(fat), g, L) && d in L && |alias| == 11
    ensures InRange(g, L[d]) && g.BlockSlots() > 0 && g.Top() <= |Table(fat)|
    ensures Store(image, lba, g, fat, d, name, alias, data).error == None
            <==> && Storable(name) && Decodable(name) && |data| < 0x1_0000_0000
                 && Extension(DirSlots(image, lba, g, L[d]), EntryCount(name) + 1, g.BlockSlots())
                    + Needed(|data|, g.BlockBytes())
                    <= FreeCount(Table(fat), g.Top())
  {
    hide *;
    FitsBasics(g, lba, |image|);
    SlotsPerBlock(g, lba, |image|, fat);
    LiveInRange(Table(fat), g, L, d);
    DirChainOf(Table(fat), g, L, d);
    var req := EntryCount(name) + 1;
    var p := Place(image, lba, g, fat, L[d], req);
    PlaceSucceeds(image, lba, g, fat, L[d], req);
    if p.ok {
      PlaceGrows(image, lba, g, fat, L[d], req);
      GrownFacts(image, Table(fat), L[d], p.image, Table(p.fat), p.chain, lba, g);
      AllocateIff(Table(p.fat), Needed(|data|, g.BlockBytes()), g.Top());
    }
    StoreCases(image, lba, g, fat, d, L[d], name, alias, data);
  }

  lemma {:induction false} AllocateIff(t: seq<nat>, count: nat, top: nat)
    requires top <= |t|
    ensures Allocate(t, count, top).Some? <==> count <= FreeCount(t, top)
  {
  }

  /** The error of a store, stage by stage. */
  lemma {:induction false} StoreCases(image: seq<byte>, lba: int, g: Geometry, fat: seq<byte>, d: nat, chain: seq<nat>,
                                      name: Name, alias: seq<byte>, data: seq<byte>)
    requires Fits(g, lba, |image|) && |fat| == g.FatBytes() && |alias| == 11 && chain != [] && InRange(g, chain)
    requires DirChain(Table(fat), g, d) == Ok(chain)
    ensures var p := Place(image, lba, g, fat, chain, EntryCount(name) + 1);
            g.Top() <= |Table(p.fat)| &&
            (Store(image, lba, g, fat, d, name, alias, data).error == None
             <==> && Storable(name) && Decodable(name) && p.ok
                  && Allocate(Table(p.fat), Needed(|data|, g.BlockBytes()), g.Top()).Some? && |data| < 0x1_0000_0000)
  {
    hide Place, PutData, LinkFat, PutFats, PutEntries, NewEntries, ShortEntry, DirChain, Table, Decodable, Offsets,
         Needed, Allocate, Storable;
    FitsBasics(g, lba, |image|);
    SlotsPerBlock(g, lba, |image|, Place(image, lba, g, fat, chain, EntryCount(name) + 1).fat);
  }
}
