/** What a replacement does beyond its own record: to files its wipe runs over, and to the files of a replaced
    directory. */
module Fat32Gaps {
  import opened Bytes
  import opened DataBlocks
  import opened Chains
  import opened LongNames
  import opened Directory
  import opened Fat32Volume
  import opened Fat32Layout
  import opened Fat32Slots
  import opened Fat32Files
  import opened Fat32Live
  import opened Fat32Store
  import opened Fat32Inject
  import opened Fat32Replace
  import opened Fat32Runs
  import opened Fat32Theorems

  // ----- where a file's bytes are -----

  /** The image position of every byte on a chain. */
  function Homes(lba: int, g: Geometry, cs: seq<nat>): seq<nat>
    requires lba >= 0 && InRange(g, cs)
  {
    if cs == [] then [] else seq(g.BlockBytes(), j => BlockOffset(lba, g, cs[0]) + j) + Homes(lba, g, cs[1..])
  }

  lemma {:induction false} HomesRead(image: seq<byte>, lba: int, g: Geometry, cs: seq<nat>)
    requires Fits(g, lba, |image|) && InRange(g, cs)
    ensures |Homes(lba, g, cs)| == |Blocks(image, lba, g, cs)|
    ensures forall p :: 0 <= p < |Homes(lba, g, cs)| ==>
              Homes(lba, g, cs)[p] < |image| && Blocks(image, lba, g, cs)[p] == image[Homes(lba, g, cs)[p]]
  {
    if cs != [] {
      HomesRead(image, lba, g, cs[1..]);
      BlockBounds(lba, g, |image|, cs[0]);
      hide BlockOffset, Fits, AreaStart, AreaEnd;
    }
  }

  // ----- a store leaves the other chains alone, whatever state its directory is in -----

  /** A chain keeps its links and its bytes. */
  ghost predicate ChainKept(image: seq<byte>, image': seq<byte>, lba: int, g: Geometry, t': seq<nat>, ch: seq<nat>)
    requires Fits(g, lba, |image|) && |image'| == |image|
  {
    InRange(g, ch) && IsChain(t', ch, g.Top(), EOF) && SameBlocks(image, image', lba, g, ch)
  }

  lemma {:induction false} EntriesTouch(image: seq<byte>, lba: int, g: Geometry, chain: seq<nat>, start: nat,
                                        name: Name, short: seq<byte>)
    requires Fits(g, lba, |image|) && InRange(g, chain) && EntryCount(name) <= 20 && |short| == 32
    requires start + EntryCount(name) + 1 <= |Offsets(lba, g, chain)|
    ensures Touches(image, WithEntries(image, lba, g, chain, start, name, short), lba, g, SetOf(chain))
  {
    hide Fits, InRange, Offsets, PutEntries, Touches, NewEntries, Whole, InImage;
    OffsetsInImage(lba, g, chain, |image|);
    WholeEntries(name, short);
    PutEntriesTouches(image, lba, g, chain, start, NewEntries(name, short), EntryCount(name) + 1);
  }

  /** Storing into directory `d` keeps every other chain of a sound table, links and bytes. */
  lemma {:induction false} StoreFrame(image: seq<byte>, lba: int, g: Geometry, fat: seq<byte>, M: Layout, d: nat,
                                      name: Name, alias: seq<byte>, data: seq<byte>, s: nat)
    requires Fits(g, lba, |image|) && |fat| == g.FatBytes() && ChainsOk(Table(fat), g, M) && d in M && |alias| == 11
    requires Store(image, lba, g, fat, d, name, alias, data).error == None && s in M && s != d
    ensures var image' := Store(image, lba, g, fat, d, name, alias, data).image;
            ChainKept(image, image', lba, g, Table(FatImage(image', lba, g)), M[s])
  {
    hide *;
    FitsBasics(g, lba, |image|);
    LiveInRange(Table(fat), g, M, d);
    LiveInRange(Table(fat), g, M, s);
    DirChainOf(Table(fat), g, M, d);
    var p, cs := StoreUnfold(image, lba, g, fat, d, M[d], name, alias, data);
    PlaceGrows(image, lba, g, fat, M[d], EntryCount(name) + 1);
    GrownChains(image, Table(fat), p.image, Table(p.fat), p.chain, lba, g, M, d);
    var M1, t1 := M[d := p.chain], Table(p.fat);
    var image2, t2 := PutData(p.image, lba, g, cs, data, |cs|), Link(t1, cs, |cs|, EOF);
    DataFrame(p.image, t1, lba, g, M1, data, cs, s);
    var image3 := WithEntries(image2, lba, g, p.chain, p.start, name, ShortEntry(alias, FirstOf(cs), |data|));
    EntriesTouch(image2, lba, g, p.chain, p.start, name, ShortEntry(alias, FirstOf(cs), |data|));
    ApartFrom(t1, g, M1, d, s);
    TouchesSameBlocks(image2, image3, lba, g, SetOf(p.chain), M[s]);
    var fat2 := LinkFat(p.fat, cs, |cs|);
    var image4 := PutFats(image3, lba, g, fat2, g.fatCount);
    FlushBlocks(image3, lba, g, fat2, M[s]);
    FlushedTable(image3, lba, g, fat2);
    StoredTable(p.fat, g, M1, t1, cs);
    SameBlocksTrans(image, p.image, image2, lba, g, M[s]);
    SameBlocksTrans(image, image2, image3, lba, g, M[s]);
    SameBlocksTrans(image, image3, image4, lba, g, M[s]);
    ChainKeptFrom(image, image4, lba, g, t2, M[s]);
  }

  lemma {:induction false} ChainKeptFrom(image: seq<byte>, image': seq<byte>, lba: int, g: Geometry, t': seq<nat>,
                                         ch: seq<nat>)
    requires Fits(g, lba, |image|) && |image'| == |image| && InRange(g, ch) && IsChain(t', ch, g.Top(), EOF)
    requires SameBlocks(image, image', lba, g, ch)
    ensures ChainKept(image, image', lba, g, t', ch)
  {
  }

  lemma {:induction false} FlushedTable(image: seq<byte>, lba: int, g: Geometry, fat: seq<byte>)
    requires Fits(g, lba, |image|) && |fat| == g.FatBytes()
    ensures FatImage(PutFats(image, lba, g, fat, g.fatCount), lba, g) == fat
  {
    hide Fits, PutFats, FatImage, FatCopy;
    FitsBasics(g, lba, |image|);
    PutFatsCopies(image, lba, g, fat, g.fatCount, 0);
    FirstCopy(PutFats(image, lba, g, fat, g.fatCount), lba, g);
  }

  /** Filling and linking free clusters keeps every live chain. */
  lemma {:induction false} DataFrame(image: seq<byte>, t: seq<nat>, lba: int, g: Geometry, L: Layout, data: seq<byte>,
                                     cs: seq<nat>, s: nat)
    requires Fits(g, lba, |image|) && ChainsOk(t, g, L) && g.Top() <= |t| && s in L
    requires Allocate(t, Needed(|data|, g.BlockBytes()), g.Top()) == Some(cs) && InRange(g, cs)
    ensures InRange(g, L[s]) && SameBlocks(image, PutData(image, lba, g, cs, data, |cs|), lba, g, L[s])
    ensures IsChain(Link(t, cs, |cs|, EOF), L[s], g.Top(), EOF)
  {
    hide Needed, Allocate, ChainsOk, KeepsLive, Fits, SameBlocks, FreeCount, IsChain, PutData, Link, Touches, InRange,
         Distinct;
    var image', t' := PutData(image, lba, g, cs, data, |cs|), Link(t, cs, |cs|, EOF);
    TopBound(t, g, L);
    LinkedFresh(t, cs, g.Top());
    PutDataTouches(image, lba, g, cs, data, |cs|);
    AllFreeIn(t, cs);
    FreshKeeps(image, t, image', t', lba, g, L, cs);
    KeepsLiveParts(image, t, image', t', lba, g, L);
    LiveInRange(t, g, L, s);
    forall c | c in L[s]
      ensures 0 <= c < |t| && t'[c] == t[c]
    {
      InLive(t, g, L, s, c);
      FreeOffChain(t, g, L, cs, s, c);
    }
    ChainFrame(t, t', L[s], g.Top(), EOF);
  }

  lemma {:induction false} FreeOffChain(t: seq<nat>, g: Geometry, L: Layout, cs: seq<nat>, s: nat, c: nat)
    requires ChainsOk(t, g, L) && s in L && c in L[s] && forall x :: x in cs ==> x < |t| && t[x] == 0
    ensures c !in cs
  {
    if c in cs { FreeNotLive(t, g, L, c); }
  }

  // ----- the other files after a replacement -----

  /** `now` is `was` with the delete mark in every byte whose home lies between `lo` and `hi`. */
  ghost predicate Punched(was: Result<seq<byte>, Error>, now: Result<seq<byte>, Error>, homes: seq<nat>, lo: nat,
                          hi: nat) {
    match was
    case Err(e) => now == was
    case Ok(b) =>
      && now.Ok? && |now.value| == |b| <= |homes|
      && forall p :: 0 <= p < |b| ==> now.value[p] == if lo <= homes[p] < hi then DELETED else b[p]
  }

  lemma {:induction false} ReadChain(image: seq<byte>, lba: int, g: Geometry, t: seq<nat>, ch: seq<nat>, f: Record)
    requires Fits(g, lba, |image|) && InRange(g, ch) && IsChain(t, ch, g.Top(), EOF) && g.Top() <= |t| && g.Top() <= EOF
    requires f.cluster == ch[0]
    ensures ReadRecord(image, lba, g, t, f)
            == if |Blocks(image, lba, g, ch)| < f.size then Err(Incomplete) else Ok(Blocks(image, lba, g, ch)[..f.size])
  {
    hide IsChain, ChainFrom, Blocks;
    WalkReturnsChain(t, ch, g.Top(), EOF);
  }

  lemma {:induction false} PunchedRead(image: seq<byte>, image': seq<byte>, lba: int, g: Geometry, t: seq<nat>,
                                       t': seq<nat>, ch: seq<nat>, lo: nat, hi: nat, f: Record)
    requires Fits(g, lba, |image|) && hi <= |image| && |image'| == |image| && g.Top() <= |t| && g.Top() <= |t'|
    requires g.Top() <= EOF
    requires InRange(g, ch) && IsChain(t, ch, g.Top(), EOF) && f.cluster == ch[0]
    requires ChainKept(Wipe(image, lo, hi), image', lba, g, t', ch)
    ensures Punched(ReadRecord(image, lba, g, t, f), ReadRecord(image', lba, g, t', f), Homes(lba, g, ch), lo, hi)
  {
    hide Fits, InRange, IsChain, ReadRecord, Homes, Blocks, SameBlocks;
    var image1 := Wipe(image, lo, hi);
    ReadChain(image, lba, g, t, ch, f);
    ReadChain(image', lba, g, t', ch, f);
    BlocksFrame(image1, image', lba, g, ch);
    HomesRead(image, lba, g, ch);
    HomesRead(image1, lba, g, ch);
  }

  /** A successful injection that meets record `k` is its replacement. */
  lemma {:induction false} InjectIsReplace(image: seq<byte>, lba: int, g: Geometry, dirs: set<nat>, L: Layout, d: nat,
                                           q: Request, k: nat)
    requires Fits(g, lba, |image|) && Live(image, lba, g, TableOf(image, lba, g), dirs, L) && d in dirs
    requires DirsIn(g, dirs, L)
    requires Met(ListingOf(image, lba, g, dirs, L), d, q) == Some(k) && InjectInto(image, lba, g, d, q).error == None
    ensures k < |ListingOf(image, lba, g, dirs, L)[d]| && |FatImage(image, lba, g)| == g.FatBytes()
    ensures var v := ListingOf(image, lba, g, dirs, L)[d][k];
            && |v.alias| == 11 && v.offset + 32 <= |image| && v.lfnStart <= |image|
            && InjectInto(image, lba, g, d, q) == Replace(image, lba, g, FatImage(image, lba, g), d, v, q)
  {
    hide Live, Fits, Replace, FatImage, DirRecords, Requested, FirstExisting, ListingOf, DirsIn, DirSlots, Records,
         Offsets, RecordAt, InRange, Table, AreaStart, AreaEnd;
    FitsBasics(g, lba, |image|);
    var t := TableOf(image, lba, g);
    LiveChain(image, lba, g, t, dirs, L, d);
    var slots := DirSlots(image, lba, g, L[d]);
    var a, b := FindRecord(slots, k);
    RecordAtRun(slots, k, a, b);
    RunBounds(slots, a, b);
    RunInArea(image, lba, g, L[d], a, b);
    RunInArea(image, lba, g, L[d], a, a);
    VictimAlias(image, lba, g, t, dirs, L, d, k, a, b);
    VictimOffsets(image, lba, g, L[d], k, a, b);
  }

  /** Every other chain after a successful replacement, safe wipe or not: each byte in the wiped range reads as the
      delete mark, every other byte as before. */
  lemma {:induction false} WipedFile(image: seq<byte>, lba: int, g: Geometry, dirs: set<nat>, L: Layout, d: nat,
                                     q: Request, k: nat, f: Record)
    requires Fits(g, lba, |image|) && Victim(image, lba, g, TableOf(image, lba, g), dirs, L, d, k) && DirsIn(g, dirs, L)
    requires Met(ListingOf(image, lba, g, dirs, L), d, q) == Some(k) && InjectInto(image, lba, g, d, q).error == None
    requires f.cluster in L && f.cluster != d && f.cluster != ListingOf(image, lba, g, dirs, L)[d][k].cluster
    ensures InRange(g, L[f.cluster])
    ensures var v := ListingOf(image, lba, g, dirs, L)[d][k];
            var image' := InjectInto(image, lba, g, d, q).image;
            Punched(ReadRecord(image, lba, g, TableOf(image, lba, g), f),
                    ReadRecord(image', lba, g, TableOf(image', lba, g), f),
                    Homes(lba, g, L[f.cluster]), v.lfnStart, v.offset + 32)
  {
    hide *;
    FitsBasics(g, lba, |image|);
    var t, fat, s := TableOf(image, lba, g), FatImage(image, lba, g), f.cluster;
    TableIs(image, lba, g);
    VictimParts(image, lba, g, t, dirs, L, d, k);
    VictimChain(image, lba, g, t, dirs, L, d, k);
    InjectIsReplace(image, lba, g, dirs, L, d, q, k);
    var R: Listing := ListingOf(image, lba, g, dirs, L);
    var v := R[d][k];
    var ch, M := ChainAt(L, v.cluster), L - {v.cluster};
    ReplaceUnfold(image, lba, g, fat, d, v, q, ch);
    ReleaseFatTable(fat, ch, |ch|);
    ReleasedAll(t, g, L, v.cluster);
    MinusDirs(g, dirs, L, v.cluster);
    var image' := InjectInto(image, lba, g, d, q).image;
    StoreFrame(Wipe(image, v.lfnStart, v.offset + 32), lba, g, ReleaseFat(fat, ch, |ch|), M, d, q.name, v.alias,
               q.data, s);
    TableIs(image', lba, g);
    LiveInRange(t, g, L, s);
    TopBound(t, g, L);
    PunchedRead(image, image', lba, g, t, TableOf(image', lba, g), L[s], v.lfnStart, v.offset + 32, f);
  }

  lemma {:induction false} PunchedSame(was: Result<seq<byte>, Error>, now: Result<seq<byte>, Error>, homes: seq<nat>,
                                       lo: nat, hi: nat)
    requires Punched(was, now, homes, lo, hi)
    ensures was.Ok? ==> |was.value| <= |homes|
    ensures now == was <==> (was.Ok? ==> forall p :: 0 <= p < |was.value| && lo <= homes[p] < hi ==>
                             was.value[p] == DELETED)
  {
    if was.Ok? && forall p :: 0 <= p < |was.value| && lo <= homes[p] < hi ==> was.value[p] == DELETED {
      assert now.value == was.value;
    }
  }

  /** Another file survives a replacement exactly when each of its bytes in the wiped range was the delete mark
      already. */
  lemma {:induction false} SurvivesIff(image: seq<byte>, lba: int, g: Geometry, dirs: set<nat>, L: Layout, d: nat,
                                       q: Request, k: nat, f: Record)
    requires Fits(g, lba, |image|) && Victim(image, lba, g, TableOf(image, lba, g), dirs, L, d, k) && DirsIn(g, dirs, L)
    requires Met(ListingOf(image, lba, g, dirs, L), d, q) == Some(k) && InjectInto(image, lba, g, d, q).error == None
    requires f.cluster in L && f.cluster != d && f.cluster != ListingOf(image, lba, g, dirs, L)[d][k].cluster
    ensures InRange(g, L[f.cluster])
    ensures var v, homes := ListingOf(image, lba, g, dirs, L)[d][k], Homes(lba, g, L[f.cluster]);
            var was := ReadRecord(image, lba, g, TableOf(image, lba, g), f);
            var image' := InjectInto(image, lba, g, d, q).image;
            && (was.Ok? ==> |was.value| <= |homes|)
            && (ReadRecord(image', lba, g, TableOf(image', lba, g), f) == was
                <==> (was.Ok? ==> forall p :: 0 <= p < |was.value| && v.lfnStart <= homes[p] < v.offset + 32 ==>
                      was.value[p] == DELETED))
  {
    hide *;
    FitsBasics(g, lba, |image|);
    VictimParts(image, lba, g, TableOf(image, lba, g), dirs, L, d, k);
    WipedFile(image, lba, g, dirs, L, d, q, k, f);
    var v, image' := ListingOf(image, lba, g, dirs, L)[d][k], InjectInto(image, lba, g, d, q).image;
    PunchedSame(ReadRecord(image, lba, g, TableOf(image, lba, g), f),
                ReadRecord(image', lba, g, TableOf(image', lba, g), f),
                Homes(lba, g, L[f.cluster]), v.lfnStart, v.offset + 32);
  }

  lemma {:induction false} GapCovered(lba: int, g: Geometry, c: nat, c': nat, lo: nat, off: nat, x: nat)
    requires lba >= 0 && 2 <= c && c + 1 < c' && InBlock(lba, g, c, lo) && InBlock(lba, g, c', off)
    requires InBlock(lba, g, c + 1, x)
    ensures lo <= x < off + 32
  {
    BlocksApart(lba, g, c, c + 1);
    BlocksApart(lba, g, c + 1, c');
  }

  /** Where the wipe destroys a file: the directory skips a cluster, the replaced record spans the skip, and a live file
      has a byte in the skipped cluster that is not the delete mark. The replacement succeeds and the file reads
      wrong. */
  lemma {:induction false} GapDamages(image: seq<byte>, lba: int, g: Geometry, dirs: set<nat>, L: Layout, d: nat,
                                      q: Request, k: nat, m: nat, e: nat, i: nat, bytes: seq<byte>, p: nat)
    requires Fits(g, lba, |image|) && Volume(image, lba, g, dirs, L) && d in dirs && DirsIn(g, dirs, L) && e in dirs
    requires Met(ListingOf(image, lba, g, dirs, L), d, q) == Some(k) && InjectInto(image, lba, g, d, q).error == None
    requires k < |ListingOf(image, lba, g, dirs, L)[d]| && i < |ListingOf(image, lba, g, dirs, L)[e]|
    requires (e != d || i != k)
    requires d in L && InRange(g, L[d]) && m + 1 < |L[d]| && L[d][m] + 1 < L[d][m + 1]
    requires var v := ListingOf(image, lba, g, dirs, L)[d][k];
             !v.IsDirectory() && InBlock(lba, g, L[d][m], v.lfnStart) && InBlock(lba, g, L[d][m + 1], v.offset)
    requires var f := ListingOf(image, lba, g, dirs, L)[e][i];
             && !f.IsDirectory() && f.cluster in L && InRange(g, L[f.cluster])
             && ReadRecord(image, lba, g, TableOf(image, lba, g), f) == Ok(bytes) && p < |bytes| && bytes[p] != DELETED
             && p < |Homes(lba, g, L[f.cluster])| && InBlock(lba, g, L[d][m] + 1, Homes(lba, g, L[f.cluster])[p])
    ensures var f, image' := ListingOf(image, lba, g, dirs, L)[e][i], InjectInto(image, lba, g, d, q).image;
            var now := ReadRecord(image', lba, g, TableOf(image', lba, g), f);
            now.Ok? && |now.value| == |bytes| && now.value[p] == DELETED && now != Ok(bytes)
  {
    hide *;
    FitsBasics(g, lba, |image|);
    var t := TableOf(image, lba, g);
    var R: Listing := ListingOf(image, lba, g, dirs, L);
    var v, f, image' := R[d][k], R[e][i], InjectInto(image, lba, g, d, q).image;
    VolumeParts(image, lba, g, dirs, L);
    LiveParts(image, lba, g, t, dirs, L);
    VictimFrom(image, lba, g, t, dirs, L, d, k);
    ListedOk(R, L.Keys, e, i);
    NoShare(R, L.Keys, e, i, d, k);
    LiveHead(t, g, L, f.cluster);
    WipedFile(image, lba, g, dirs, L, d, q, k, f);
    InRangeAt(g, L[d], m);
    GapCovered(lba, g, L[d][m], L[d][m + 1], v.lfnStart, v.offset, Homes(lba, g, L[f.cluster])[p]);
    PunchedAt(bytes, ReadRecord(image', lba, g, TableOf(image', lba, g), f), Homes(lba, g, L[f.cluster]), v.lfnStart,
              v.offset + 32, p);
  }

  lemma {:induction false} InRangeAt(g: Geometry, cs: seq<nat>, m: nat)
    requires InRange(g, cs) && m < |cs|
    ensures 2 <= cs[m] < g.Top()
  {
  }

  lemma {:induction false} PunchedAt(was: seq<byte>, now: Result<seq<byte>, Error>, homes: seq<nat>, lo: nat, hi: nat,
                                     p: nat)
    requires Punched(Ok(was), now, homes, lo, hi) && p < |was| && p < |homes| && lo <= homes[p] < hi
    ensures now.Ok? && |now.value| == |was| && now.value[p] == DELETED
  {
  }

  // ----- replacing a directory -----

  /** Nothing in the listing leads to the file chain at `c` any more. */
  ghost predicate Unlisted(R: Listing, c: nat) {
    forall e, i :: e in R && 0 <= i < |R[e]| && !R[e][i].IsDirectory() ==> R[e][i].cluster != c
  }

  /** Replacing a directory nothing else leads to: its record is gone and its chain is freed like a file's; no record
      leads to it any more; but the files it listed keep their clusters and their bytes, with no record left to reach
      them by. */
  lemma {:induction false} ReplaceDirectory(image: seq<byte>, lba: int, g: Geometry, dirs: set<nat>, L: Layout, d: nat,
                                            q: Request, k: nat)
      returns (L': Layout, j: nat, r: Record)
    requires Fits(g, lba, |image|) && Victim(image, lba, g, TableOf(image, lba, g), dirs, L, d, k) && DirsIn(g, dirs, L)
    requires Met(ListingOf(image, lba, g, dirs, L), d, q) == Some(k)
    requires ListingOf(image, lba, g, dirs, L)[d][k].IsDirectory()
    requires d in L && InRange(g, L[d]) && Replaceable(image, lba, g, TableOf(image, lba, g), L[d], k)
    requires InjectInto(image, lba, g, d, q).error == None
    ensures Replaced(image, TableOf(image, lba, g), lba, g, dirs, L, d, k, q.name, q.data,
                     InjectInto(image, lba, g, d, q).image, L', j, r)
    ensures var R, image' := ListingOf(image, lba, g, dirs, L), InjectInto(image, lba, g, d, q).image;
            var c := R[d][k].cluster;
            && c in dirs && c in L && d in L' && DirsIn(g, dirs - {c}, L')
            && FreeClusters(image', lba, g) == FreeClusters(image, lba, g)
               + |L[c]| - Needed(|q.data|, g.BlockBytes()) - (|L'[d]| - |L[d]|)
            && var R' := ListingOf(image', lba, g, dirs - {c}, L');
               && (forall e, i :: e in R' && 0 <= i < |R'[e]| ==> !LeadsTo(R'[e][i], c))
               && forall i :: 0 <= i < |R[c]| && !R[c][i].IsDirectory() && R[c][i].cluster >= 2 ==>
                    Unlisted(R', R[c][i].cluster) && Stranded(image, image', lba, g, L, L', R[c][i])
  {
    hide *;
    var t := TableOf(image, lba, g);
    VictimParts(image, lba, g, t, dirs, L, d, k);
    VictimChain(image, lba, g, t, dirs, L, d, k);
    LiveParts(image, lba, g, t, dirs, L);
    var R: Listing := ListingOf(image, lba, g, dirs, L);
    L', j, r := InjectReplace(image, lba, g, dirs, L, d, q, k);
    var image', c := InjectInto(image, lba, g, d, q).image, R[d][k].cluster;
    ReplacedUnfold(image, lba, g, dirs, L, d, k, q.name, q.data, image', L', j, r);
    VictimListed(R, L.Keys, d, k);
    ChainAtIs(L, c);
    var R': Listing := ListingOf(image', lba, g, dirs - {c}, L');
    forall e, i | e in R' && 0 <= i < |R'[e]| ensures !LeadsTo(R'[e][i], c) { NoWayBack(R, d, k, j, r, e, i); }
    forall i | 0 <= i < |R[c]| && !R[c][i].IsDirectory() && R[c][i].cluster >= 2
      ensures Unlisted(R', R[c][i].cluster) && Stranded(image, image', lba, g, L, L', R[c][i])
    {
      FileStranded(image, lba, g, dirs, L, d, k, q.name, q.data, image', L', j, r, i);
    }
  }

  /** The file keeps its chain and reads as before. */
  ghost predicate Stranded(image: seq<byte>, image': seq<byte>, lba: int, g: Geometry, L: Layout, L': Layout, f: Record)
    requires Fits(g, lba, |image|) && |image'| == |image|
  {
    && f.cluster in L && f.cluster in L' && L'[f.cluster] == L[f.cluster]
    && ReadRecord(image', lba, g, TableOf(image', lba, g), f) == ReadRecord(image, lba, g, TableOf(image, lba, g), f)
  }

  lemma {:induction false} ChainAtIs(L: Layout, c: nat)
    requires c in L
    ensures ChainAt(L, c) == L[c]
  {
  }

  lemma {:induction false} VictimListed(R: Listing, keys: set<nat>, d: nat, k: nat)
    requires OwnersOk(R, keys) && d in R && k < |R[d]| && Removable(R, d, k) && R[d][k].IsDirectory()
    ensures R[d][k].cluster in R.Keys && R.Keys <= keys
  {
    assert RecordOk(R[d][k], R.Keys, keys);
    hide DotEntry;
  }

  lemma {:induction false} NoWayBack(R: Listing, d: nat, k: nat, j: nat, r: Record, e: nat, i: nat)
    requires d in R && k < |R[d]| && Sole(R, d, k) && j <= |Without(R[d], k)| && !r.IsDirectory()
    requires e in Dropped(R, d, k)[d := With(Without(R[d], k), j, r)]
    requires i < |Dropped(R, d, k)[d := With(Without(R[d], k), j, r)][e]|
    ensures !LeadsTo(Dropped(R, d, k)[d := With(Without(R[d], k), j, r)][e][i], R[d][k].cluster)
  {
    hide DotEntry;
    if e == d {
      WithIndex(Without(R[d], k), j, r, i);
      if i != j { WithoutIndex(R[d], k, Shift(j, i)); }
    }
  }

  lemma {:induction false} FileUnlisted(R: Listing, keys: set<nat>, d: nat, k: nat, j: nat, r: Record, i: nat)
    requires OwnersOk(R, keys) && d in R && k < |R[d]| && Removable(R, d, k) && R[d][k].cluster in R
    requires R[d][k].cluster != d
    requires j <= |Without(R[d], k)| && i < |R[R[d][k].cluster]|
    requires var f := R[R[d][k].cluster][i]; !f.IsDirectory() && f.cluster >= 2 && f.cluster != r.cluster
    ensures Unlisted(Dropped(R, d, k)[d := With(Without(R[d], k), j, r)], R[R[d][k].cluster][i].cluster)
  {
    hide OwnersOk, Removable;
    var c := R[d][k].cluster;
    var f := R[c][i];
    var R': Listing := Dropped(R, d, k)[d := With(Without(R[d], k), j, r)];
    forall e, m | e in R' && 0 <= m < |R'[e]| && !R'[e][m].IsDirectory() ensures R'[e][m].cluster != f.cluster {
      if e == d {
        WithIndex(Without(R[d], k), j, r, m);
        if m != j {
          WithoutIndex(R[d], k, Shift(j, m));
          NoShare(R, keys, c, i, d, Unshift(k, Shift(j, m)));
        }
      } else {
        NoShare(R, keys, c, i, e, m);
      }
    }
  }

  lemma {:induction false} FileStranded(image: seq<byte>, lba: int, g: Geometry, dirs: set<nat>, L: Layout, d: nat,
                                        k: nat, name: Name, data: seq<byte>, image': seq<byte>, L': Layout, j: nat,
                                        r: Record, i: nat)
    requires Fits(g, lba, |image|) && |image'| == |image| && Live(image, lba, g, TableOf(image, lba, g), dirs, L)
    requires DirsIn(g, dirs, L) && d in dirs
    requires k < |ListingOf(image, lba, g, dirs, L)[d]| && Removable(ListingOf(image, lba, g, dirs, L), d, k)
    requires Replaced(image, TableOf(image, lba, g), lba, g, dirs, L, d, k, name, data, image', L', j, r)
    requires var c := ListingOf(image, lba, g, dirs, L)[d][k].cluster;
             && c in dirs && c != d && i < |ListingOf(image, lba, g, dirs, L)[c]| && DirsIn(g, dirs - {c}, L')
             && !ListingOf(image, lba, g, dirs, L)[c][i].IsDirectory() &&
                ListingOf(image, lba, g, dirs, L)[c][i].cluster >= 2
    ensures var c := ListingOf(image, lba, g, dirs, L)[d][k].cluster;
            var f := ListingOf(image, lba, g, dirs, L)[c][i];
            Unlisted(ListingOf(image', lba, g, dirs - {c}, L'), f.cluster) && Stranded(image, image', lba, g, L, L', f)
  {
    hide *;
    var t, t' := TableOf(image, lba, g), TableOf(image', lba, g);
    LiveParts(image, lba, g, t, dirs, L);
    var R: Listing := ListingOf(image, lba, g, dirs, L);
    var c := R[d][k].cluster;
    var f := R[c][i];
    ReplacedUnfold(image, lba, g, dirs, L, d, k, name, data, image', L', j, r);
    ListedOk(R, L.Keys, c, i);
    MinusDirs(g, dirs, L, c);
    FileUnlisted(R, L.Keys, d, k, j, r, i);
    ReadKept(image, t, image', t', lba, g, dirs, L, L - {c}, L', f);
    KeptChain(image, image', lba, g, dirs, L - {c}, L', f.cluster);
    StrandedFrom(image, image', lba, g, L, L', f);
  }

  lemma {:induction false} KeptChain(image: seq<byte>, image': seq<byte>, lba: int, g: Geometry, dirs: set<nat>,
                                     M: Layout, L': Layout, s: nat)
    requires Fits(g, lba, |image|) && |image'| == |image| && KeepsFiles(image, image', lba, g, dirs, M, L') && s in M
    requires s !in dirs
    ensures s in L' && L'[s] == M[s]
  {
    hide ChainBytes;
  }

  lemma {:induction false} StrandedFrom(image: seq<byte>, image': seq<byte>, lba: int, g: Geometry, L: Layout,
                                        L': Layout, f: Record)
    requires Fits(g, lba, |image|) && |image'| == |image| && f.cluster in L && f.cluster in L'
    requires L'[f.cluster] == L[f.cluster]
    requires ReadRecord(image', lba, g, TableOf(image', lba, g), f)
             == ReadRecord(image, lba, g, TableOf(image, lba, g), f)
    ensures Stranded(image, image', lba, g, L, L', f)
  {
  }
}
