/** The refinement of the byte-level injection: a listing update on every well-formed volume, over whole paths and
    runs. */
module Fat32Theorems {
  import opened Bytes
  import opened DataBlocks
  import opened Chains
  import opened LongNames
  import opened Directory
  import opened Fat32Volume
  import opened Fat32Layout
  import opened Fat32Slots
  import opened Fat32Files
  import opened Fat32Live
  import opened Fat32Store
  import opened Fat32Inject
  import opened Fat32Replace
  import opened Fat32Refusals
  import opened Fat32Runs

  /** The table an image carries in its first FAT. */
  function TableOf(image: seq<byte>, lba: int, g: Geometry): (t: seq<nat>)
    requires Fits(g, lba, |image|)
    ensures g.Top() <= |t|
  {
    FitsBasics(g, lba, |image|);
    Table(FatImage(image, lba, g))
  }

  // ----- paths -----

  lemma {:induction false} DotAnswers(r: Record, part: Name)
    requires DotEntry(r) && Answers(r, part)
    ensures part == DOT || part == DOTDOT
  {
    hide ShortName;
    var name := if NameEqual(r.name, part) then r.name else ShortName(r.alias);
    assert NameEqual(name, part) && name in {DOT, DOTDOT};
    assert |part| == |name|;
    assert forall i :: 0 <= i < |part| ==> part[i] == 0x2E;
  }

  /** A path through a well-formed volume only meets its directories. */
  lemma {:induction false} ResolveInDirs(image: seq<byte>, lba: int, g: Geometry, t: seq<nat>, dirs: set<nat>,
                                         L: Layout, parts: seq<Name>, c: nat)
    requires Fits(g, lba, |image|) && Live(image, lba, g, t, dirs, L) && c in dirs && g.Top() <= |t|
    ensures match Resolve(image, lba, g, t, parts, c) case Ok(d) => d in dirs case Err(_) => true
    decreases |parts|
  {
    hide Live, DirRecords, Fits, Answers, DotEntry, OwnersOk, ListingOf;
    if parts != [] && parts[0] != [] && parts[0] != DOT && parts[0] != DOTDOT {
      LiveParts(image, lba, g, t, dirs, L);
      LiveChain(image, lba, g, t, dirs, L, c);
      var recs: seq<Record> := ListingOf(image, lba, g, dirs, L)[c];
      match FirstAnswer(recs, parts[0])
      case None =>
      case Some(k) =>
        if recs[k].IsDirectory() {
          ListedOk(ListingOf(image, lba, g, dirs, L), L.Keys, c, k);
          if DotEntry(recs[k]) { DotAnswers(recs[k], parts[0]); }
          ResolveInDirs(image, lba, g, t, dirs, L, parts[1..], recs[k].cluster);
        }
    }
  }

  lemma {:induction false} ListedOk(R: Listing, keys: set<nat>, d: nat, k: nat)
    requires OwnersOk(R, keys) && d in R && k < |R[d]|
    ensures R[d][k].IsDirectory() ==> DotEntry(R[d][k]) || R[d][k].cluster in R.Keys
    ensures !R[d][k].IsDirectory() ==> R[d][k].cluster < 2 || (R[d][k].cluster in keys && R[d][k].cluster !in R.Keys)
  {
    assert RecordOk(R[d][k], R.Keys, keys);
    hide DotEntry;
  }

  // ----- one injection into a directory -----

  /** The record of directory `d` that a request meets, if any. */
  ghost function Met(R: Listing, d: nat, q: Request): Option<nat>
    requires d in R
  {
    FirstExisting(R[d], q.name, Requested(q))
  }

  /** The alias a fresh name gets: the one asked for, or else the first free one. */
  function ChosenAlias(recs: seq<Record>, q: Request): (r: Option<seq<byte>>)
    ensures r.Some? ==> |r.value| == 11
  {
    RequestedGood(q);
    if Requested(q).Some? then Requested(q) else Alias(q.upper(q.name), AliasesOf(recs))
  }

  /** Injecting a name the directory does not hold: exactly one record more, which reads back as the data. */
  lemma {:induction false} InjectFresh(image: seq<byte>, lba: int, g: Geometry, dirs: set<nat>, L: Layout, d: nat,
                                       q: Request)
      returns (alias: seq<byte>, L': Layout, k: nat, r: Record)
    requires Fits(g, lba, |image|) && Live(image, lba, g, TableOf(image, lba, g), dirs, L) && d in dirs
    requires DirsIn(g, dirs, L)
    requires Met(ListingOf(image, lba, g, dirs, L), d, q) == None
    requires InjectInto(image, lba, g, d, q).error == None
    ensures ChosenAlias(ListingOf(image, lba, g, dirs, L)[d], q) == Some(alias)
    ensures Stored(image, TableOf(image, lba, g), lba, g, dirs, L, d, q.name, alias, q.data,
                   InjectInto(image, lba, g, d, q).image, L', k, r)
  {
    hide Live, Fits, Store, Table, FatImage, DirRecords, Requested, Alias, FirstExisting, ListingOf, DirsIn, Stored,
         GoodAlias;
    var fat, recs := FatImage(image, lba, g), ListingOf(image, lba, g, dirs, L)[d];
    LiveChain(image, lba, g, TableOf(image, lba, g), dirs, L, d);
    RequestedGood(q);
    alias := if Requested(q).Some? then Requested(q).value else Alias(q.upper(q.name), AliasesOf(recs)).value;
    GoodStart(alias);
    FreshAlias(recs, q, alias);
    L', k, r := StoreCorrect(image, lba, g, fat, dirs, L, d, q.name, alias, q.data);
  }

  lemma {:induction false} GoodStart(alias: seq<byte>)
    requires GoodAlias(alias)
    ensures |alias| == 11 && alias[0] !in {0, DELETED}
  {
  }

  lemma {:induction false} FreshAlias(recs: seq<Record>, q: Request, alias: seq<byte>)
    requires FirstExisting(recs, q.name, Requested(q)) == None
    requires if Requested(q).Some? then alias == Requested(q).value else alias !in AliasesOf(recs)
    ensures forall i :: 0 <= i < |recs| ==> recs[i].alias != alias
  {
    hide Requested, NameEqual;
    forall i | 0 <= i < |recs| ensures recs[i].alias != alias {
      assert !Matches(recs[i], q.name, Requested(q));
    }
  }

  /** A fresh injection succeeds exactly when an alias can be had, the name can be kept, the size fits its field, and
      the clusters for the data and for a longer directory are free. */
  lemma {:induction false} InjectSucceeds(image: seq<byte>, lba: int, g: Geometry, dirs: set<nat>, L: Layout, d: nat,
                                          q: Request)
    requires Fits(g, lba, |image|) && Live(image, lba, g, TableOf(image, lba, g), dirs, L) && d in dirs
    requires DirsIn(g, dirs, L)
    requires Met(ListingOf(image, lba, g, dirs, L), d, q) == None
    ensures d in L && InRange(g, L[d]) && g.BlockSlots() > 0
    ensures InjectInto(image, lba, g, d, q).error == None
            <==> && AliasOk(q)
                 && ChosenAlias(ListingOf(image, lba, g, dirs, L)[d], q).Some?
                 && Storable(q.name) && Decodable(q.name) && |q.data| < 0x1_0000_0000
                 && Extension(DirSlots(image, lba, g, L[d]), EntryCount(q.name) + 1, g.BlockSlots())
                    + Needed(|q.data|, g.BlockBytes())
                    <= FreeCount(TableOf(image, lba, g), g.Top())
  {
    hide Live, Fits, Store, Table, FatImage, DirRecords, Requested, Alias, FirstExisting, ListingOf, DirsIn, GoodAlias,
         Storable, Decodable, Extension, FreeCount, Needed, EntryCount, DirSlots, InRange, ChainsOk, OwnersOk;
    FitsBasics(g, lba, |image|);
    var fat, recs := FatImage(image, lba, g), ListingOf(image, lba, g, dirs, L)[d];
    LiveChain(image, lba, g, TableOf(image, lba, g), dirs, L, d);
    RequestedGood(q);
    SlotsPerBlock(g, lba, |image|, fat);
    LiveParts(image, lba, g, TableOf(image, lba, g), dirs, L);
    if ChosenAlias(recs, q).Some? {
      StoreSucceeds(image, lba, g, fat, L, d, q.name, ChosenAlias(recs, q).value, q.data);
    }
  }

  /** Replacing a file, or a directory nothing else leads to: its record is exchanged for one that reads back as the
      data. */
  lemma {:induction false} InjectReplace(image: seq<byte>, lba: int, g: Geometry, dirs: set<nat>, L: Layout, d: nat,
                                         q: Request, k: nat)
      returns (L': Layout, j: nat, r: Record)
    requires Fits(g, lba, |image|) && Victim(image, lba, g, TableOf(image, lba, g), dirs, L, d, k) && DirsIn(g, dirs, L)
    requires Met(ListingOf(image, lba, g, dirs, L), d, q) == Some(k) && d in L && InRange(g, L[d])
    requires Replaceable(image, lba, g, TableOf(image, lba, g), L[d], k)
    requires InjectInto(image, lba, g, d, q).error == None
    ensures Replaced(image, TableOf(image, lba, g), lba, g, dirs, L, d, k, q.name, q.data,
                     InjectInto(image, lba, g, d, q).image, L', j, r)
  {
    hide Live, Fits, Replace, Table, FatImage, DirRecords, Requested, FirstExisting, ListingOf, DirsIn, Replaced,
         DirSlots, Records, Offsets, RecordAt, InRange, WipeSafe, SafeRange, OwnChain, Victim, ChainAt, AreaStart,
         AreaEnd, Replaceable;
    FitsBasics(g, lba, |image|);
    var t, fat := TableOf(image, lba, g), FatImage(image, lba, g);
    VictimParts(image, lba, g, t, dirs, L, d, k);
    VictimChain(image, lba, g, t, dirs, L, d, k);
    LiveChain(image, lba, g, t, dirs, L, d);
    var offs, c := Offsets(lba, g, L[d]), ListingOf(image, lba, g, dirs, L)[d][k].cluster;
    OwnChainIs(t, g, L, c);
    var a, b := ReplaceableAt(image, lba, g, t, L[d], k);
    RangeIsSafe(image, lba, g, t, L, c, offs, a, b);
    VictimAlias(image, lba, g, t, dirs, L, d, k, a, b);
    VictimOffsets(image, lba, g, L[d], k, a, b);
    L', j, r := ReplaceCorrect(image, lba, g, fat, dirs, L, d, k, q, a, b);
  }

  /** A replacement succeeds exactly when it is asked for, the name can be kept, the size fits its field, and the
      clusters for the data and for a longer directory are there once the old chain is freed. Whether the wipe is safe
      does not matter, nor whether something else leads to the chain; it must only not be the directory's own. */
  lemma {:induction false} ReplaceSucceeds(image: seq<byte>, lba: int, g: Geometry, dirs: set<nat>, L: Layout, d: nat,
                                           q: Request, k: nat)
    requires Fits(g, lba, |image|) && Live(image, lba, g, TableOf(image, lba, g), dirs, L) && DirsIn(g, dirs, L)
    requires d in dirs && Met(ListingOf(image, lba, g, dirs, L), d, q) == Some(k)
    requires k < |ListingOf(image, lba, g, dirs, L)[d]|
    requires var c := ListingOf(image, lba, g, dirs, L)[d][k].cluster; c != d && (c in L || c < 2)
    ensures d in L && InRange(g, L[d]) && g.BlockSlots() > 0
    ensures var v := ListingOf(image, lba, g, dirs, L)[d][k]; v.offset + 32 <= |image|
    ensures var v := ListingOf(image, lba, g, dirs, L)[d][k];
            InjectInto(image, lba, g, d, q).error == None
            <==> && q.replace && AliasOk(q)
                 && Storable(q.name) && Decodable(q.name) && |q.data| < 0x1_0000_0000
                 && Extension(DirSlots(Wipe(image, v.lfnStart, v.offset + 32), lba, g, L[d]), EntryCount(q.name) + 1,
                              g.BlockSlots())
                    + Needed(|q.data|, g.BlockBytes())
                    <= FreeCount(TableOf(image, lba, g), g.Top()) + |ChainAt(L, v.cluster)|
  {
    hide *;
    FitsBasics(g, lba, |image|);
    var t, fat := TableOf(image, lba, g), FatImage(image, lba, g);
    TableIs(image, lba, g);
    LiveParts(image, lba, g, t, dirs, L);
    LiveChain(image, lba, g, t, dirs, L, d);
    var v := ListingOf(image, lba, g, dirs, L)[d][k];
    var c, ch, M := v.cluster, ChainAt(L, v.cluster), L - {v.cluster};
    ChainOfKey(t, g, L, c);
    MetIs(ListingOf(image, lba, g, dirs, L), d, q);
    InjectMet(image, lba, g, d, q, ListingOf(image, lba, g, dirs, L)[d], k);
    ReplaceUnfold(image, lba, g, fat, d, v, q, ch);
    ReleaseFatTable(fat, ch, |ch|);
    ReleasedAll(t, g, L, c);
    MinusDirs(g, dirs, L, c);
    StoreSucceeds(Wipe(image, v.lfnStart, v.offset + 32), lba, g, ReleaseFat(fat, ch, |ch|), M, d, q.name, v.alias,
                  q.data);
  }

  lemma {:induction false} ChainOfKey(t: seq<nat>, g: Geometry, L: Layout, c: nat)
    requires ChainsOk(t, g, L) && (c in L || c < 2)
    ensures g.Top() <= |t| && FileChain(t, g, c) == Ok(ChainAt(L, c)) && InRange(g, ChainAt(L, c))
  {
    hide ChainsOk, ChainFrom;
    TopBound(t, g, L);
    if c in L {
      LiveInRange(t, g, L, c);
      WalkReturnsChain(t, L[c], g.Top(), EOF);
    } else {
      ShortWalk(t, c, g.Top());
    }
  }

  /** Any alias asked for is a valid one. */
  predicate AliasOk(q: Request) {
    q.fatName == [] || Requested(q).Some?
  }

  /** A refused injection of a new name keeps the volume, its listing, every file and every FAT copy. */
  lemma {:induction false} RefusedFresh(image: seq<byte>, lba: int, g: Geometry, dirs: set<nat>, L: Layout, d: nat,
                                        q: Request)
    requires Fits(g, lba, |image|) && Live(image, lba, g, TableOf(image, lba, g), dirs, L) && d in dirs
    requires DirsIn(g, dirs, L)
    requires Met(ListingOf(image, lba, g, dirs, L), d, q) == None && InjectInto(image, lba, g, d, q).error != None
    ensures var t, image' := TableOf(image, lba, g), InjectInto(image, lba, g, d, q).image;
            && Live(image', lba, g, t, dirs, L)
            && ListingOf(image', lba, g, dirs, L) == ListingOf(image, lba, g, dirs, L)
            && SameReads(image, image', lba, g, t, L)
            && FatImage(image', lba, g) == FatImage(image, lba, g) && SameFats(image, image', lba, g)
  {
    hide Live, Fits, Store, Table, FatImage, DirRecords, Requested, Alias, FirstExisting, ListingOf, DirsIn, GoodAlias,
         SameReads, SameFats, Touches, SameBlocks, InRange;
    FitsBasics(g, lba, |image|);
    var fat, recs := FatImage(image, lba, g), ListingOf(image, lba, g, dirs, L)[d];
    LiveChain(image, lba, g, TableOf(image, lba, g), dirs, L, d);
    RequestedGood(q);
    Untouched(image, lba, g, TableOf(image, lba, g), L);
    if AliasOk(q) && ChosenAlias(recs, q).Some? {
      RefusedStore(image, lba, g, fat, dirs, L, d, q.name, ChosenAlias(recs, q).value, q.data);
    }
  }

  lemma {:induction false} Untouched(image: seq<byte>, lba: int, g: Geometry, t: seq<nat>, L: Layout)
    requires Fits(g, lba, |image|) && g.Top() <= |t|
    ensures SameReads(image, image, lba, g, t, L) && SameFats(image, image, lba, g)
  {
    hide ReadRecord, FatCopy;
  }

  /** A refused replacement leaves the image as it was when it is refused before the wipe; refused after the wipe, it
      has lost the record while its chain stays allocated. */
  lemma {:induction false} RefusedMet(image: seq<byte>, lba: int, g: Geometry, dirs: set<nat>, L: Layout, d: nat,
                                      q: Request, k: nat)
    requires Fits(g, lba, |image|) && Live(image, lba, g, TableOf(image, lba, g), dirs, L) && DirsIn(g, dirs, L)
    requires d in dirs && Met(ListingOf(image, lba, g, dirs, L), d, q) == Some(k)
    requires InjectInto(image, lba, g, d, q).error != None
    ensures k < |ListingOf(image, lba, g, dirs, L)[d]| && d in L && InRange(g, L[d])
    ensures !(q.replace && AliasOk(q)) ==> InjectInto(image, lba, g, d, q).image == image
    ensures q.replace && AliasOk(q) && Victim(image, lba, g, TableOf(image, lba, g), dirs, L, d, k)
            && Replaceable(image, lba, g, TableOf(image, lba, g), L[d], k)
            ==> Lost(image, TableOf(image, lba, g), lba, g, dirs, L, d, k, InjectInto(image, lba, g, d, q).image)
  {
    hide *;
    FitsBasics(g, lba, |image|);
    var t, fat := TableOf(image, lba, g), FatImage(image, lba, g);
    TableIs(image, lba, g);
    LiveChain(image, lba, g, t, dirs, L, d);
    MetIs(ListingOf(image, lba, g, dirs, L), d, q);
    InjectMet(image, lba, g, d, q, ListingOf(image, lba, g, dirs, L)[d], k);
    if q.replace && AliasOk(q) && Victim(image, lba, g, t, dirs, L, d, k) && Replaceable(image, lba, g, t, L[d], k) {
      VictimChain(image, lba, g, t, dirs, L, d, k);
      var offs, c := Offsets(lba, g, L[d]), ListingOf(image, lba, g, dirs, L)[d][k].cluster;
      OwnChainIs(t, g, L, c);
      var a, b := ReplaceableAt(image, lba, g, t, L[d], k);
      RangeIsSafe(image, lba, g, t, L, c, offs, a, b);
      RefusedReplace(image, lba, g, fat, dirs, L, d, k, q, a, b);
    }
  }

  lemma {:induction false} MetIs(R: Listing, d: nat, q: Request)
    requires d in R
    ensures Met(R, d, q) == FirstExisting(R[d], q.name, Requested(q))
  {
  }

  lemma {:induction false} InjectMet(image: seq<byte>, lba: int, g: Geometry, d: nat, q: Request, recs: seq<Record>,
                                     k: nat)
    requires Fits(g, lba, |image|) && DirRecords(image, lba, g, TableOf(image, lba, g), d) == Ok(recs)
    requires FirstExisting(recs, q.name, Requested(q)) == Some(k)
    ensures k < |recs| && |FatImage(image, lba, g)| == g.FatBytes() && |recs[k].alias| == 11
    ensures recs[k].offset + 32 <= |image|
    ensures InjectInto(image, lba, g, d, q).error == None
            <==> && q.replace && AliasOk(q)
                 && Replace(image, lba, g, FatImage(image, lba, g), d, recs[k], q).error == None
    ensures InjectInto(image, lba, g, d, q).image
            == if q.replace && AliasOk(q) then Replace(image, lba, g, FatImage(image, lba, g), d, recs[k], q).image
               else image
  {
    hide Fits, Replace, Table, FatImage, DirRecords, Requested, FirstExisting, AreaStart, AreaEnd;
  }

  lemma {:induction false} ReplaceableAt(image: seq<byte>, lba: int, g: Geometry, t: seq<nat>, chain: seq<nat>, k: nat)
      returns (a: nat, b: nat)
    requires Fits(g, lba, |image|) && InRange(g, chain) && g.Top() <= |t| && Replaceable(image, lba, g, t, chain, k)
    ensures k < |Records(DirSlots(image, lba, g, chain))| && RecordAt(DirSlots(image, lba, g, chain), k, a, b)
    ensures a <= b < |Offsets(lba, g, chain)| && Offsets(lba, g, chain)[b] + 32 <= |image|
    ensures SafeRange(image, lba, g, t, OwnChain(t, g, Records(DirSlots(image, lba, g, chain))[k].cluster),
                      Offsets(lba, g, chain), a, b)
  {
    hide Fits, InRange, IsRun, DirSlots, Records, Offsets, SafeRange, OwnChain;
    FitsBasics(g, lba, |image|);
    var offs := Offsets(lba, g, chain);
    a, b :| RecordAt(DirSlots(image, lba, g, chain), k, a, b) && a <= b < |offs| && offs[b] + 32 <= |image|
            && SafeRange(image, lba, g, t, OwnChain(t, g, Records(DirSlots(image, lba, g, chain))[k].cluster), offs, a,
                         b);
    RecordAtRun(DirSlots(image, lba, g, chain), k, a, b);
  }

  lemma {:induction false} OwnChainIs(t: seq<nat>, g: Geometry, L: Layout, c: nat)
    requires g.Top() <= |t| && FileChain(t, g, c) == Ok(ChainAt(L, c))
    ensures OwnChain(t, g, c) == ChainAt(L, c)
  {
    hide FileChain, ChainAt;
  }

  // ----- what one successful step keeps -----

  /** The invariant of a run: a well-formed volume without lost clusters. */
  ghost predicate Volume(image: seq<byte>, lba: int, g: Geometry, dirs: set<nat>, L: Layout)
    requires Fits(g, lba, |image|)
  {
    Live(image, lba, g, TableOf(image, lba, g), dirs, L) && NoLeaks(TableOf(image, lba, g), g, L)
  }

  ghost predicate Mirrored(image: seq<byte>, lba: int, g: Geometry)
    requires Fits(g, lba, |image|)
  {
    forall i :: 0 <= i < g.fatCount ==> FatCopy(image, lba, g, i) == FatImage(image, lba, g)
  }

  /** Record `r` of directory `e` is listed, and if it is a file, reading it gives `bytes`. */
  ghost predicate Shows(image: seq<byte>, lba: int, g: Geometry, dirs: set<nat>, L: Layout, e: nat, r: Record,
                        bytes: Result<seq<byte>, Error>)
    requires Fits(g, lba, |image|)
  {
    && DirsIn(g, dirs, L) && e in dirs
    && r in ListingOf(image, lba, g, dirs, L)[e]
    && (!r.IsDirectory() ==> ReadRecord(image, lba, g, TableOf(image, lba, g), r) == bytes)
  }

  lemma {:induction false} ReadKept(image: seq<byte>, t: seq<nat>, image': seq<byte>, t': seq<nat>, lba: int,
                                    g: Geometry, dirs: set<nat>, L: Layout, M: Layout, L': Layout, r: Record)
    requires Fits(g, lba, |image|) && |image'| == |image| && ChainsOk(t, g, L) && ChainsOk(t', g, L')
    requires forall s :: s in M ==> s in L && M[s] == L[s]
    requires KeepsFiles(image, image', lba, g, dirs, M, L')
    requires r.cluster < 2 || (r.cluster in M && r.cluster !in dirs)
    ensures g.Top() <= |t| && g.Top() <= |t'| && ReadRecord(image', lba, g, t', r) == ReadRecord(image, lba, g, t, r)
  {
    hide ChainsOk, Blocks, ReadRecord, Fits;
    TopBound(t, g, L);
    TopBound(t', g, L');
    if r.cluster < 2 {
      if r.cluster in L { LiveHead(t, g, L, r.cluster); }
      if r.cluster in L' { LiveHead(t', g, L', r.cluster); }
    }
    ReadRecordLive(image, lba, g, t, L, r);
    ReadRecordLive(image', lba, g, t', L', r);
  }

  lemma {:induction false} InWith(recs: seq<Record>, k: nat, r: Record, x: Record)
    requires k <= |recs| && x in recs
    ensures x in With(recs, k, r)
  {
    var i :| 0 <= i < |recs| && recs[i] == x;
    if i < k { assert With(recs, k, r)[i] == x; } else { assert With(recs, k, r)[i + 1] == x; }
  }

  lemma {:induction false} InWithout(recs: seq<Record>, k: nat, x: Record)
    requires k < |recs| && x in recs && x != recs[k]
    ensures x in Without(recs, k)
  {
    var i :| 0 <= i < |recs| && recs[i] == x;
    if i < k { assert Without(recs, k)[i] == x; } else { assert Without(recs, k)[i - 1] == x; }
  }

  lemma {:induction false} FreshKeepsRecord(image: seq<byte>, lba: int, g: Geometry, dirs: set<nat>, L: Layout, d: nat,
                                            name: Name, alias: seq<byte>, data: seq<byte>, image': seq<byte>,
                                            L': Layout, k: nat, new_: Record, e: nat, r: Record)
    requires Fits(g, lba, |image|) && |image'| == |image| && Live(image, lba, g, TableOf(image, lba, g), dirs, L)
    requires DirsIn(g, dirs, L)
    requires Stored(image, TableOf(image, lba, g), lba, g, dirs, L, d, name, alias, data, image', L', k, new_)
    requires e in dirs && r in ListingOf(image, lba, g, dirs, L)[e]
    ensures Shows(image', lba, g, dirs, L', e, r, ReadRecord(image, lba, g, TableOf(image, lba, g), r))
  {
    hide Live, ListingOf, DirsIn, Table, FatImage, FatCopy, ReadRecord, Describes, KeepsFiles, SameOutside, FreeCount,
         NoLeaks, With, Fits, Needed, ChainsOk, OwnersOk, TableOf;
    var t, t' := TableOf(image, lba, g), TableOf(image', lba, g);
    TableIs(image, lba, g);
    TableIs(image', lba, g);
    LiveParts(image, lba, g, t, dirs, L);
    LiveParts(image', lba, g, t', dirs, L');
    var R: Listing := ListingOf(image, lba, g, dirs, L);
    if e == d { InWith(R[d], k, new_, r); }
    if !r.IsDirectory() {
      var i :| 0 <= i < |R[e]| && R[e][i] == r;
      ListedOk(R, L.Keys, e, i);
      ReadKept(image, t, image', t', lba, g, dirs, L, L, L', r);
    }
  }

  lemma {:induction false} TableIs(image: seq<byte>, lba: int, g: Geometry)
    requires Fits(g, lba, |image|)
    ensures TableOf(image, lba, g) == Table(FatImage(image, lba, g))
  {
  }

  lemma {:induction false} ReplacedUnfold(image: seq<byte>, lba: int, g: Geometry, dirs: set<nat>, L: Layout, d: nat,
                                          k: nat, name: Name, data: seq<byte>, image': seq<byte>, L': Layout, j: nat,
                                          r: Record)
    requires Fits(g, lba, |image|) && |image'| == |image| && DirsIn(g, dirs, L) && d in dirs
    requires k < |ListingOf(image, lba, g, dirs, L)[d]|
    requires Replaced(image, TableOf(image, lba, g), lba, g, dirs, L, d, k, name, data, image', L', j, r)
    ensures var R: Listing := ListingOf(image, lba, g, dirs, L);
            var rest := dirs - {R[d][k].cluster};
            && Live(image', lba, g, TableOf(image', lba, g), rest, L') && DirsIn(g, rest, L') && d in L && d in L'
            && j <= |Without(R[d], k)| && !r.IsDirectory() && (r.cluster < 2 || r.cluster !in L - {R[d][k].cluster})
            && ListingOf(image', lba, g, rest, L') == Dropped(R, d, k)[d := With(Without(R[d], k), j, r)]
            && KeepsFiles(image, image', lba, g, dirs, L - {R[d][k].cluster}, L')
            && OwnersOk(ListingOf(image', lba, g, rest, L'), L'.Keys) && ChainsOk(TableOf(image', lba, g), g, L')
            && FreeClusters(image', lba, g) == FreeClusters(image, lba, g)
               + |ChainAt(L, R[d][k].cluster)| - Needed(|data|, g.BlockBytes()) - (|L'[d]| - |L[d]|)
  {
    hide ListingOf, NoLeaks, SameOutside, ReadRecord, KeepsFiles, FreeCount, Table, FatImage, FatCopy, With, Without,
         Fits, Needed, ChainAt, Dropped, Lands, Wipe, InRange, ChainsOk, OwnersOk, DirsClean, Trim, ShortName;
    TableIs(image', lba, g);
    TableIs(image, lba, g);
  }

  lemma {:induction false} ReplaceKeepsRecord(image: seq<byte>, lba: int, g: Geometry, dirs: set<nat>, L: Layout,
                                              d: nat, k: nat, name: Name, data: seq<byte>, image': seq<byte>,
                                              L': Layout, j: nat, new_: Record, e: nat, r: Record)
    requires Fits(g, lba, |image|) && |image'| == |image|
    requires Victim(image, lba, g, TableOf(image, lba, g), dirs, L, d, k) && DirsIn(g, dirs, L)
    requires Replaced(image, TableOf(image, lba, g), lba, g, dirs, L, d, k, name, data, image', L', j, new_)
    requires e in dirs && e != ListingOf(image, lba, g, dirs, L)[d][k].cluster
    requires r in ListingOf(image, lba, g, dirs, L)[e] && (e != d || r != ListingOf(image, lba, g, dirs, L)[d][k])
    ensures Shows(image', lba, g, dirs - {ListingOf(image, lba, g, dirs, L)[d][k].cluster}, L', e, r,
                  ReadRecord(image, lba, g, TableOf(image, lba, g), r))
  {
    hide *;
    var t, t' := TableOf(image, lba, g), TableOf(image', lba, g);
    VictimParts(image, lba, g, t, dirs, L, d, k);
    LiveParts(image, lba, g, t, dirs, L);
    var R: Listing := ListingOf(image, lba, g, dirs, L);
    var v := R[d][k];
    ReplacedUnfold(image, lba, g, dirs, L, d, k, name, data, image', L', j, new_);
    DroppedAt(R, d, k);
    if e == d { InWithout(R[d], k, r); InWith(Without(R[d], k), j, new_, r); }
    if !r.IsDirectory() {
      var i :| 0 <= i < |R[e]| && R[e][i] == r;
      ListedOk(R, L.Keys, e, i);
      VictimApart(R, L.Keys, e, i, d, k);
      MinusDirs(g, dirs, L, v.cluster);
      ReadKept(image, t, image', t', lba, g, dirs, L, L - {v.cluster}, L', r);
    }
    ShowsFrom(image', lba, g, dirs - {v.cluster}, L', e, r, ReadRecord(image, lba, g, t, r));
  }

  lemma {:induction false} ShowsFrom(image: seq<byte>, lba: int, g: Geometry, dirs: set<nat>, L: Layout, e: nat,
                                     r: Record, bytes: Result<seq<byte>, Error>)
    requires Fits(g, lba, |image|) && DirsIn(g, dirs, L) && e in dirs && r in ListingOf(image, lba, g, dirs, L)[e]
    requires !r.IsDirectory() ==> ReadRecord(image, lba, g, TableOf(image, lba, g), r) == bytes
    ensures Shows(image, lba, g, dirs, L, e, r, bytes)
  {
  }

  /** A file shares no chain with what a replacement removes. */
  lemma {:induction false} VictimApart(R: Listing, keys: set<nat>, e: nat, i: nat, d: nat, k: nat)
    requires OwnersOk(R, keys) && e in R && d in R && i < |R[e]| && k < |R[d]| && (e != d || i != k)
    requires !R[e][i].IsDirectory() && Removable(R, d, k)
    ensures R[e][i].cluster < 2 || R[e][i].cluster != R[d][k].cluster
  {
    assert !Clash(R[e][i], R[d][k]);
    assert RecordOk(R[e][i], R.Keys, keys) && RecordOk(R[d][k], R.Keys, keys);
    hide DotEntry;
  }

  lemma {:induction false} NoShare(R: Listing, keys: set<nat>, e: nat, i: nat, d: nat, k: nat)
    requires OwnersOk(R, keys) && e in R && d in R && i < |R[e]| && k < |R[d]| && (e != d || i != k)
    requires !R[e][i].IsDirectory() && !R[d][k].IsDirectory()
    ensures R[e][i].cluster < 2 || R[e][i].cluster != R[d][k].cluster
  {
    assert !Clash(R[e][i], R[d][k]);
  }

  /** The directory an operation's path leads to. */
  function Target(image: seq<byte>, lba: int, g: Geometry, op: Op): Result<nat, Error>
    requires Fits(g, lba, |image|)
  {
    Resolve(image, lba, g, TableOf(image, lba, g), DirectoryOf(op.path), ROOT)
  }

  /** The record an operation replaces: its index in the target directory. */
  function Meets(image: seq<byte>, lba: int, g: Geometry, op: Op): Option<(nat, nat)>
    requires Fits(g, lba, |image|)
  {
    match Target(image, lba, g, op)
    case Err(_) => None
    case Ok(d) =>
      match DirRecords(image, lba, g, TableOf(image, lba, g), d)
      case Err(_) => None
      case Ok(recs) =>
        match FirstExisting(recs, op.q.name, Requested(op.q))
        case None => None
        case Some(k) => Some((d, k))
  }

  /** The record an operation replaces. */
  function MetRecord(image: seq<byte>, lba: int, g: Geometry, op: Op): Option<Record>
    requires Fits(g, lba, |image|)
  {
    match Meets(image, lba, g, op)
    case None => None
    case Some((d, k)) => Some(DirRecords(image, lba, g, TableOf(image, lba, g), d).value[k])
  }

  /** The chain of the directory an operation works on; empty when there is none. */
  function TargetChain(image: seq<byte>, lba: int, g: Geometry, op: Op): (r: seq<nat>)
    requires Fits(g, lba, |image|)
    ensures InRange(g, r)
  {
    match Target(image, lba, g, op)
    case Err(_) => []
    case Ok(d) => match DirChain(TableOf(image, lba, g), g, d) case Err(_) => [] case Ok(chain) => chain
  }

  /** The entries of that directory when the new ones are placed: any replaced record is wiped. */
  function OpenSlots(image: seq<byte>, lba: int, g: Geometry, op: Op): (r: seq<Slot>)
    requires Fits(g, lba, |image|)
    ensures Shaped(r)
  {
    match MetRecord(image, lba, g, op)
    case None => DirSlots(image, lba, g, TargetChain(image, lba, g, op))
    case Some(v) => DirSlots(if v.offset + 32 <= |image| then Wipe(image, v.lfnStart, v.offset + 32) else image, lba,
                             g, TargetChain(image, lba, g, op))
  }

  /** The clusters an operation frees, and those its directory gains. */
  function Freed(image: seq<byte>, lba: int, g: Geometry, op: Op): nat
    requires Fits(g, lba, |image|)
  {
    match MetRecord(image, lba, g, op) case None => 0 case Some(v) => |OwnChain(TableOf(image, lba, g), g, v.cluster)|
  }

  function Gained(image: seq<byte>, lba: int, g: Geometry, op: Op): nat
    requires Fits(g, lba, |image|)
  {
    if g.BlockSlots() == 0 then 0
      else Extension(OpenSlots(image, lba, g, op), EntryCount(op.q.name) + 1, g.BlockSlots())
  }

  /** By how much an operation changes the number of free clusters, told from the image it meets. */
  function Balance(image: seq<byte>, lba: int, g: Geometry, op: Op): int
    requires Fits(g, lba, |image|) && WellPosed(op)
  {
    if Apply(image, lba, op).error != None then 0
    else Freed(image, lba, g, op) - Needed(|op.q.data|, g.BlockBytes()) - Gained(image, lba, g, op)
  }

  function FreeClusters(image: seq<byte>, lba: int, g: Geometry): nat
    requires Fits(g, lba, |image|)
  {
    FreeCount(TableOf(image, lba, g), g.Top())
  }

  /** The listing of the directories `dirs`, read off the image. */
  ghost function ListingAt(image: seq<byte>, lba: int, g: Geometry, dirs: set<nat>): Listing
    requires Fits(g, lba, |image|)
  {
    map d | d in dirs && DirRecords(image, lba, g, TableOf(image, lba, g), d).Ok? ::
      DirRecords(image, lba, g, TableOf(image, lba, g), d).value
  }

  lemma {:induction false} ListingAtLive(image: seq<byte>, lba: int, g: Geometry, dirs: set<nat>, L: Layout)
    requires Fits(g, lba, |image|) && Live(image, lba, g, TableOf(image, lba, g), dirs, L) && DirsIn(g, dirs, L)
    ensures ListingAt(image, lba, g, dirs) == ListingOf(image, lba, g, dirs, L)
  {
    hide Live, ListingOf, DirRecords, TableOf, DirsIn, Fits;
    forall d | d in dirs
      ensures DirRecords(image, lba, g, TableOf(image, lba, g), d) == Ok(ListingOf(image, lba, g, dirs, L)[d])
    {
      LiveChain(image, lba, g, TableOf(image, lba, g), dirs, L, d);
    }
  }

  /** The path ends in a name, so the operation gets as far as its directory. */
  predicate PathNamed(op: Op) {
    op.path != [] && op.path[|op.path| - 1] !in {SLASH, BACKSLASH}
  }

  /** The step wipes the record it meets, whether it succeeds in the end or not. */
  predicate Wipes(image: seq<byte>, lba: int, g: Geometry, op: Op)
    requires Fits(g, lba, |image|)
  {
    PathNamed(op) && Meets(image, lba, g, op).Some? && op.q.replace && AliasOk(op.q)
  }

  /** A step that, if it replaces, replaces a file or a directory nothing else leads to, wiping it without harm. It may
      be refused. */
  ghost predicate GoodStep(image: seq<byte>, lba: int, g: Geometry, dirs: set<nat>, op: Op)
    requires Fits(g, lba, |image|)
  {
    && WellPosed(op)
    && match Meets(image, lba, g, op)
       case None => true
       case Some((d, k)) =>
         Wipes(image, lba, g, op) ==>
           && GoodVictim(ListingAt(image, lba, g, dirs), d, k)
           && Replaceable(image, lba, g, TableOf(image, lba, g), TargetChain(image, lba, g, op), k)
  }

  ghost predicate GoodVictim(R: Listing, d: nat, k: nat) {
    d in R && k < |R[d]| && (R[d][k].IsDirectory() ==> Sole(R, d, k))
  }

  /** The directories left after a step: all but one whose record it wiped. */
  function DirsAfter(image: seq<byte>, lba: int, g: Geometry, dirs: set<nat>, op: Op): set<nat>
    requires Fits(g, lba, |image|)
  {
    match MetRecord(image, lba, g, op)
    case None => dirs
    case Some(v) => if Wipes(image, lba, g, op) && v.IsDirectory() then dirs - {v.cluster} else dirs
  }

  /** The step wipes record `r` of directory `e`, or the record of the directory `e` itself. */
  ghost predicate Removes(image: seq<byte>, lba: int, g: Geometry, op: Op, e: nat, r: Record)
    requires Fits(g, lba, |image|)
  {
    match Meets(image, lba, g, op)
    case None => false
    case Some((d, k)) =>
      var v := DirRecords(image, lba, g, TableOf(image, lba, g), d).value[k];
      Wipes(image, lba, g, op) && ((d == e && v == r) || (v.IsDirectory() && v.cluster == e))
  }

  /** An operation that does not reach a directory is refused and changes nothing. */
  lemma {:induction false} ApplyCases(image: seq<byte>, lba: int, g: Geometry, op: Op)
    requires ReadGeometry(image, lba) == Ok(g) && WellPosed(op)
    ensures PathNamed(op) && Target(image, lba, g, op).Ok?
            ==> Apply(image, lba, op) == InjectInto(image, lba, g, Target(image, lba, g, op).value, op.q)
    ensures !(PathNamed(op) && Target(image, lba, g, op).Ok?)
            ==> Apply(image, lba, op).image == image && Apply(image, lba, op).error != None
  {
    hide ReadGeometry, Fits, InjectInto, Table, FatImage, Resolve, DirectoryOf, FileNameOf;
  }

  lemma {:induction false} ApplyTarget(image: seq<byte>, lba: int, g: Geometry, dirs: set<nat>, L: Layout, op: Op)
      returns (d: nat)
    requires ReadGeometry(image, lba) == Ok(g) && Live(image, lba, g, TableOf(image, lba, g), dirs, L) && WellPosed(op)
    requires Apply(image, lba, op).error == None || (PathNamed(op) && Target(image, lba, g, op).Ok?)
    ensures PathNamed(op) && d in dirs && DirsIn(g, dirs, L) && d in L && InRange(g, L[d])
    ensures Apply(image, lba, op) == InjectInto(image, lba, g, d, op.q) && Target(image, lba, g, op) == Ok(d)
    ensures DirRecords(image, lba, g, TableOf(image, lba, g), d) == Ok(ListingOf(image, lba, g, dirs, L)[d])
    ensures DirChain(TableOf(image, lba, g), g, d) == Ok(L[d])
    ensures ListingOf(image, lba, g, dirs, L)[d] == Records(DirSlots(image, lba, g, L[d]))
    ensures Meets(image, lba, g, op)
            == match Met(ListingOf(image, lba, g, dirs, L), d, op.q) case None => None case Some(k) => Some((d, k))
  {
    hide ReadGeometry, Live, Fits, InjectInto, Table, FatImage, Resolve, DirectoryOf, FileNameOf, DirRecords, DirChain,
         ListingOf, DirsIn, InRange, FirstExisting, Requested, Apply, PathNamed;
    var t := TableOf(image, lba, g);
    ApplyCases(image, lba, g, op);
    LiveParts(image, lba, g, t, dirs, L);
    ResolveInDirs(image, lba, g, t, dirs, L, DirectoryOf(op.path), ROOT);
    d := Resolve(image, lba, g, t, DirectoryOf(op.path), ROOT).value;
    LiveChain(image, lba, g, t, dirs, L, d);
  }

  // ----- an injection as an update of the listing -----

  /** One change of a listing: none; a record wiped by a step refused afterwards; or record `new_` put at place `at` of
      directory `dir`, in exchange for record `victim` if there is one. A directory takes its own records along. */
  datatype Update =
    | Unchanged
    | Wiped(dir: nat, record: nat)
    | Written(dir: nat, victim: Option<nat>, at: nat, new_: Record)

  /** What is left of a directory before the new record goes in. */
  function Left(recs: seq<Record>, victim: Option<nat>): seq<Record> {
    if victim.Some? && victim.value < |recs| then Without(recs, victim.value) else recs
  }

  predicate Applies(R: Listing, u: Update) {
    match u
    case Unchanged => true
    case Wiped(d, k) => d in R && k < |R[d]|
    case Written(d, victim, at, _) =>
      d in R && (victim.Some? ==> victim.value < |R[d]|) && at <= |Left(R[d], victim)|
  }

  /** The directory that goes with its record. */
  function Gone(recs: seq<Record>, victim: Option<nat>): set<nat> {
    if victim.Some? && victim.value < |recs| && recs[victim.value].IsDirectory() then {recs[victim.value].cluster}
      else {}
  }

  function Updated(R: Listing, u: Update): Listing {
    if !Applies(R, u) then R
    else match u
      case Unchanged => R
      case Wiped(d, k) => (R - Gone(R[d], Some(k)))[d := Without(R[d], k)]
      case Written(d, victim, at, new_) => (R - Gone(R[d], victim))[d := With(Left(R[d], victim), at, new_)]
  }

  function UpdatedAll(R: Listing, us: seq<Update>): Listing {
    if us == [] then R else Updated(UpdatedAll(R, us[..|us| - 1]), us[|us| - 1])
  }

  /** The update an operation makes, told from the image it meets; only the new record's place on the volume is open. */
  ghost predicate Performs(image: seq<byte>, lba: int, g: Geometry, op: Op, u: Update)
    requires Fits(g, lba, |image|) && WellPosed(op)
  {
    if Apply(image, lba, op).error == None then u.Written? && Writes(image, lba, g, op, u)
    else if Wipes(image, lba, g, op) then u == Wiped(Meets(image, lba, g, op).value.0, Meets(image, lba, g, op).value.1)
    else u == Unchanged
  }

  /** The update an accepted operation makes. */
  ghost predicate Writes(image: seq<byte>, lba: int, g: Geometry, op: Op, u: Update)
    requires Fits(g, lba, |image|) && u.Written?
  {
    && Target(image, lba, g, op) == Ok(u.dir)
    && Meets(image, lba, g, op) == (match u.victim case None => None case Some(k) => Some((u.dir, k)))
    && u.at == InsertAt(OpenSlots(image, lba, g, op), EntryCount(op.q.name) + 1)
    && Describes(u.new_, op.q.name, u.new_.alias, u.new_.cluster, |op.q.data|)
    && match MetRecord(image, lba, g, op)
       case Some(v) => u.new_.alias == v.alias
       case None => DirRecords(image, lba, g, TableOf(image, lba, g), u.dir).Ok?
                    && ChosenAlias(DirRecords(image, lba, g, TableOf(image, lba, g), u.dir).value, op.q)
                       == Some(u.new_.alias)
  }

  /** What a good step does, accepted or refused: the volume stays well formed, the listing is updated, a new record
      reads as the data, FAT copies stay equal and are equal after an accepted step, and the free clusters change by the
      balance. */
  ghost predicate Stepped(image: seq<byte>, image': seq<byte>, lba: int, g: Geometry, dirs: set<nat>, L: Layout,
                          L': Layout, op: Op, u: Update)
    requires Fits(g, lba, |image|) && |image'| == |image| && WellPosed(op)
  {
    var left := DirsAfter(image, lba, g, dirs, op);
    && DirsIn(g, dirs, L)
    && Live(image', lba, g, TableOf(image', lba, g), left, L')
    && (u.Written? || Mirrored(image, lba, g) ==> Mirrored(image', lba, g))
    && (NoLeaks(TableOf(image, lba, g), g, L) ==> NoLeaks(TableOf(image', lba, g), g, L'))
    && Performs(image, lba, g, op, u) && Applies(ListingOf(image, lba, g, dirs, L), u)
    && ListingOf(image', lba, g, left, L') == Updated(ListingOf(image, lba, g, dirs, L), u)
    && (u.Written? ==> ReadRecord(image', lba, g, TableOf(image', lba, g), u.new_) == Ok(op.q.data))
    && FreeClusters(image', lba, g) == FreeClusters(image, lba, g) + Balance(image, lba, g, op)
  }

  lemma {:induction false} StepFresh(image: seq<byte>, image': seq<byte>, lba: int, g: Geometry, dirs: set<nat>,
                                     L: Layout, op: Op, d: nat, alias: seq<byte>, L': Layout, k: nat, r: Record)
    requires Fits(g, lba, |image|) && |image'| == |image| && DirsIn(g, dirs, L) && d in dirs && d in L
    requires InRange(g, L[d])
    requires Target(image, lba, g, op) == Ok(d) && Meets(image, lba, g, op) == None
    requires WellPosed(op) && Apply(image, lba, op).error == None
    requires DirChain(TableOf(image, lba, g), g, d) == Ok(L[d])
    requires DirRecords(image, lba, g, TableOf(image, lba, g), d) == Ok(ListingOf(image, lba, g, dirs, L)[d])
    requires ChosenAlias(ListingOf(image, lba, g, dirs, L)[d], op.q) == Some(alias)
    requires Stored(image, TableOf(image, lba, g), lba, g, dirs, L, d, op.q.name, alias, op.q.data, image', L', k, r)
    ensures Stepped(image, image', lba, g, dirs, L, L', op, Written(d, None, k, r))
  {
    hide Live, ListingOf, NoLeaks, SameOutside, ReadRecord, KeepsFiles, FreeCount, Table, FatImage, FatCopy, DirsIn,
         With, Fits, Needed, Target, Meets, DirChain, DirRecords, ChosenAlias, InRange, DirSlots, InsertAt, Extension,
         EntryCount, Trim, ShortName, Apply, Wipes;
    TableIs(image', lba, g);
    TableIs(image, lba, g);
    var R: Listing := ListingOf(image, lba, g, dirs, L);
    assert R - {} == R;
  }

  lemma {:induction false} StepReplaced(image: seq<byte>, image': seq<byte>, lba: int, g: Geometry, dirs: set<nat>,
                                        L: Layout, op: Op, d: nat, k: nat, L': Layout, j: nat, r: Record)
    requires Fits(g, lba, |image|) && |image'| == |image| && DirsIn(g, dirs, L) && d in dirs && d in L
    requires InRange(g, L[d])
    requires Target(image, lba, g, op) == Ok(d) && Meets(image, lba, g, op) == Some((d, k))
    requires WellPosed(op) && Apply(image, lba, op).error == None && Wipes(image, lba, g, op)
    requires DirChain(TableOf(image, lba, g), g, d) == Ok(L[d])
    requires DirRecords(image, lba, g, TableOf(image, lba, g), d) == Ok(ListingOf(image, lba, g, dirs, L)[d])
    requires k < |ListingOf(image, lba, g, dirs, L)[d]|
    requires var v := ListingOf(image, lba, g, dirs, L)[d][k];
             (v.IsDirectory() || v.cluster !in dirs) && v.cluster != d &&
                 OwnChain(TableOf(image, lba, g), g, v.cluster) == ChainAt(L, v.cluster)
    requires Replaced(image, TableOf(image, lba, g), lba, g, dirs, L, d, k, op.q.name, op.q.data, image', L', j, r)
    ensures Stepped(image, image', lba, g, dirs, L, L', op, Written(d, Some(k), j, r))
  {
    hide Live, ListingOf, NoLeaks, SameOutside, ReadRecord, KeepsFiles, FreeCount, Table, FatImage, FatCopy, DirsIn,
         With, Fits, Needed, Target, Meets, DirChain, DirRecords, ChosenAlias, InRange, DirSlots, InsertAt, Extension,
         EntryCount, Without, OwnChain, ChainAt, Dropped, Wipe, Trim, ShortName, Apply, Wipes;
    TableIs(image', lba, g);
    TableIs(image, lba, g);
    var R: Listing := ListingOf(image, lba, g, dirs, L);
    DroppedIs(R, d, k, With(Without(R[d], k), j, r));
    assert R[d][k].cluster !in dirs ==> dirs - {R[d][k].cluster} == dirs;
  }

  lemma {:induction false} DroppedIs(R: Listing, d: nat, k: nat, recs: seq<Record>)
    requires d in R && k < |R[d]| && (R[d][k].IsDirectory() || R[d][k].cluster !in R.Keys)
    ensures Dropped(R, d, k)[d := recs] == (R - Gone(R[d], Some(k)))[d := recs]
  {
    hide Without;
    var c := R[d][k].cluster;
    assert (R - {c})[d := Without(R[d], k)][d := recs] == (R - {c})[d := recs];
    if !R[d][k].IsDirectory() { assert R - {c} == R == R - {}; }
  }

  /** Every record a step does not remove is still listed and reads the same. */
  ghost predicate KeepsRecords(image: seq<byte>, image': seq<byte>, lba: int, g: Geometry, dirs: set<nat>, L: Layout,
                               L': Layout, op: Op)
    requires Fits(g, lba, |image|) && |image'| == |image| && DirsIn(g, dirs, L)
  {
    forall e, r :: e in dirs && r in ListingOf(image, lba, g, dirs, L)[e] && !Removes(image, lba, g, op, e, r) ==>
      Shows(image', lba, g, DirsAfter(image, lba, g, dirs, op), L', e, r,
            ReadRecord(image, lba, g, TableOf(image, lba, g), r))
  }

  lemma {:induction false} StepAccepted(image: seq<byte>, lba: int, g: Geometry, dirs: set<nat>, L: Layout, op: Op)
      returns (L': Layout, u: Update)
    requires ReadGeometry(image, lba) == Ok(g) && Live(image, lba, g, TableOf(image, lba, g), dirs, L)
    requires GoodStep(image, lba, g, dirs, op) && WellPosed(op) && Apply(image, lba, op).error == None
    ensures |Apply(image, lba, op).image| == |image| && DirsIn(g, dirs, L)
    ensures Stepped(image, Apply(image, lba, op).image, lba, g, dirs, L, L', op, u)
    ensures KeepsRecords(image, Apply(image, lba, op).image, lba, g, dirs, L, L', op)
  {
    hide *;
    var d := ApplyTarget(image, lba, g, dirs, L, op);
    InjectOutside(image, lba, op);
    var image', t, R: Listing := Apply(image, lba, op).image, TableOf(image, lba, g), ListingOf(image, lba, g, dirs, L);
    match Met(R, d, op.q)
    case None =>
      var alias, L1, k, new_ := InjectFresh(image, lba, g, dirs, L, d, op.q);
      L', u := L1, Written(d, None, k, new_);
      StepFresh(image, image', lba, g, dirs, L, op, d, alias, L', k, new_);
      DirsStay(image, lba, g, dirs, op);
      forall e, r | e in dirs && r in R[e]
        ensures Shows(image', lba, g, DirsAfter(image, lba, g, dirs, op), L', e, r, ReadRecord(image, lba, g, t, r))
      {
        FreshKeepsRecord(image, lba, g, dirs, L, d, op.q.name, alias, op.q.data, image', L', k, new_, e, r);
      }
      KeepsFrom(image, image', lba, g, dirs, L, L', op);
    case Some(k) =>
      MetIs(R, d, op.q);
      InjectMet(image, lba, g, d, op.q, R[d], k);
      WipesWhen(image, lba, g, op);
      StepVictim(image, lba, g, dirs, L, op, d, k);
      var L1, j, new_ := InjectReplace(image, lba, g, dirs, L, d, op.q, k);
      L', u := L1, Written(d, Some(k), j, new_);
      StepReplaced(image, image', lba, g, dirs, L, op, d, k, L', j, new_);
      forall e, r | e in dirs && r in R[e] && !Removes(image, lba, g, op, e, r)
        ensures Shows(image', lba, g, DirsAfter(image, lba, g, dirs, op), L', e, r, ReadRecord(image, lba, g, t, r))
      {
        NotRemoved(image, lba, g, dirs, R, op, d, k, e, r);
        ReplaceKeepsRecord(image, lba, g, dirs, L, d, k, op.q.name, op.q.data, image', L', j, new_, e, r);
      }
      KeepsFrom(image, image', lba, g, dirs, L, L', op);
  }

  lemma {:induction false} KeepsFrom(image: seq<byte>, image': seq<byte>, lba: int, g: Geometry, dirs: set<nat>,
                                     L: Layout, L': Layout, op: Op)
    requires Fits(g, lba, |image|) && |image'| == |image| && DirsIn(g, dirs, L)
    requires forall e, r ::
      e in dirs && r in ListingOf(image, lba, g, dirs, L)[e] && !Removes(image, lba, g, op, e, r) ==>
               Shows(image', lba, g, DirsAfter(image, lba, g, dirs, op), L', e, r,
                     ReadRecord(image, lba, g, TableOf(image, lba, g), r))
    ensures KeepsRecords(image, image', lba, g, dirs, L, L', op)
  {
    hide Removes, Shows, DirsAfter, ReadRecord, TableOf, ListingOf, Fits, DirsIn;
  }

  lemma {:induction false} WipesWhen(image: seq<byte>, lba: int, g: Geometry, op: Op)
    requires Fits(g, lba, |image|) && PathNamed(op) && Meets(image, lba, g, op).Some?
    ensures Wipes(image, lba, g, op) <==> op.q.replace && AliasOk(op.q)
  {
    hide Meets, AliasOk, PathNamed;
  }

  /** An accepted step has wiped whatever record it met. */
  lemma {:induction false} AcceptedWipes(image: seq<byte>, lba: int, g: Geometry, dirs: set<nat>, L: Layout, op: Op)
    requires ReadGeometry(image, lba) == Ok(g) && Live(image, lba, g, TableOf(image, lba, g), dirs, L) && WellPosed(op)
    requires Apply(image, lba, op).error == None
    ensures Meets(image, lba, g, op).Some? ==> Wipes(image, lba, g, op)
  {
    hide *;
    var d := ApplyTarget(image, lba, g, dirs, L, op);
    var R: Listing := ListingOf(image, lba, g, dirs, L);
    match Met(R, d, op.q)
    case None =>
    case Some(k) =>
      MetIs(R, d, op.q);
      InjectMet(image, lba, g, d, op.q, R[d], k);
      WipesWhen(image, lba, g, op);
  }

  // ----- refused steps -----

  /** A step that changes neither the listing nor any file nor any FAT. */
  lemma {:induction false} StepUnchanged(image: seq<byte>, image': seq<byte>, lba: int, g: Geometry, dirs: set<nat>,
                                         L: Layout, op: Op)
    requires Fits(g, lba, |image|) && |image'| == |image| && WellPosed(op) && DirsIn(g, dirs, L)
    requires Live(image, lba, g, TableOf(image, lba, g), dirs, L)
    requires Apply(image, lba, op).error != None && !Wipes(image, lba, g, op)
    requires Live(image', lba, g, TableOf(image, lba, g), dirs, L)
    requires ListingOf(image', lba, g, dirs, L) == ListingOf(image, lba, g, dirs, L)
    requires SameReads(image, image', lba, g, TableOf(image, lba, g), L)
    requires FatImage(image', lba, g) == FatImage(image, lba, g) && SameFats(image, image', lba, g)
    ensures Stepped(image, image', lba, g, dirs, L, L, op, Unchanged)
    ensures KeepsRecords(image, image', lba, g, dirs, L, L, op)
  {
    hide Live, ListingOf, DirsIn, NoLeaks, ReadRecord, Fits, Apply, Wipes, FatImage, FatCopy, Table, Meets, FreeCount,
         DirRecords, OwnersOk, ChainsOk;
    var R: Listing := ListingOf(image, lba, g, dirs, L);
    LiveParts(image, lba, g, TableOf(image, lba, g), dirs, L);
    forall e, r | e in dirs && r in R[e]
      ensures !r.IsDirectory() ==> r.cluster < 2 || r.cluster in L
    {
      var i :| 0 <= i < |R[e]| && R[e][i] == r;
      ListedOk(R, L.Keys, e, i);
    }
  }

  /** A step refused after it wiped the record it met. */
  lemma {:induction false} StepWiped(image: seq<byte>, image': seq<byte>, lba: int, g: Geometry, dirs: set<nat>,
                                     L: Layout, op: Op, d: nat, k: nat)
    requires Fits(g, lba, |image|) && |image'| == |image| && WellPosed(op) && DirsIn(g, dirs, L) && d in dirs
    requires Victim(image, lba, g, TableOf(image, lba, g), dirs, L, d, k) && k < |ListingOf(image, lba, g, dirs, L)[d]|
    requires Apply(image, lba, op).error != None && Wipes(image, lba, g, op) && Meets(image, lba, g, op) == Some((d, k))
    requires DirRecords(image, lba, g, TableOf(image, lba, g), d) == Ok(ListingOf(image, lba, g, dirs, L)[d])
    requires var v := ListingOf(image, lba, g, dirs, L)[d][k];
             && (v.IsDirectory() || v.cluster !in dirs) && DirsAfter(image, lba, g, dirs, op) == dirs - {v.cluster}
    requires Lost(image, TableOf(image, lba, g), lba, g, dirs, L, d, k, image')
    ensures Stepped(image, image', lba, g, dirs, L, L, op, Wiped(d, k))
    ensures KeepsRecords(image, image', lba, g, dirs, L, L, op)
  {
    hide *;
    var R, t: seq<nat> := ListingOf(image, lba, g, dirs, L), TableOf(image, lba, g);
    VictimParts(image, lba, g, t, dirs, L, d, k);
    LiveParts(image, lba, g, t, dirs, L);
    LostUnfold(image, lba, g, dirs, L, d, k, image');
    DroppedIs(R, d, k, Without(R[d], k));
    DroppedAt(R, d, k);
    forall e, r | e in dirs && r in R[e] && !Removes(image, lba, g, op, e, r)
      ensures Shows(image', lba, g, DirsAfter(image, lba, g, dirs, op), L, e, r, ReadRecord(image, lba, g, t, r))
    {
      NotRemoved(image, lba, g, dirs, R, op, d, k, e, r);
      if e == d { InWithout(R[d], k, r); }
      if !r.IsDirectory() {
        var i :| 0 <= i < |R[e]| && R[e][i] == r;
        ListedOk(R, L.Keys, e, i);
        VictimApart(R, L.Keys, e, i, d, k);
        SameReadsAt(image, image', lba, g, t, L, R[d][k].cluster, d, r);
      }
      ShowsFrom(image', lba, g, dirs - {R[d][k].cluster}, L, e, r, ReadRecord(image, lba, g, t, r));
    }
    KeepsFrom(image, image', lba, g, dirs, L, L, op);
    StepWipedFrom(image, image', lba, g, dirs, L, op, d, k);
  }

  lemma {:induction false} SameReadsAt(image: seq<byte>, image': seq<byte>, lba: int, g: Geometry, t: seq<nat>,
                                       L: Layout, c: nat, d: nat, r: Record)
    requires Fits(g, lba, |image|) && |image'| == |image| && g.Top() <= |t|
    requires SameReads(image, image', lba, g, t, L - {c} - {d})
    requires r.cluster < 2 || (r.cluster in L && r.cluster != c && r.cluster != d)
    ensures ReadRecord(image', lba, g, t, r) == ReadRecord(image, lba, g, t, r)
  {
    hide ReadRecord;
  }

  lemma {:induction false} LostUnfold(image: seq<byte>, lba: int, g: Geometry, dirs: set<nat>, L: Layout, d: nat,
                                      k: nat, image': seq<byte>)
    requires Fits(g, lba, |image|) && |image'| == |image| && DirsIn(g, dirs, L) && d in dirs
    requires k < |ListingOf(image, lba, g, dirs, L)[d]|
    requires Lost(image, TableOf(image, lba, g), lba, g, dirs, L, d, k, image')
    ensures var R: Listing := ListingOf(image, lba, g, dirs, L);
            var rest := dirs - {R[d][k].cluster};
            && TableOf(image', lba, g) == TableOf(image, lba, g) && DirsIn(g, rest, L)
            && Live(image', lba, g, TableOf(image', lba, g), rest, L)
            && ListingOf(image', lba, g, rest, L) == Dropped(R, d, k)
            && SameReads(image, image', lba, g, TableOf(image, lba, g), L - {R[d][k].cluster} - {d})
            && (Mirrored(image, lba, g) ==> Mirrored(image', lba, g))
            && FreeClusters(image', lba, g) == FreeClusters(image, lba, g)
  {
    hide ChainsOk, OwnersOk, DirsClean, ListingOf, Dropped, SameReads, FatImage, FatCopy, Table, Fits, FreeCount,
         InRange;
  }

  lemma {:induction false} StepWipedFrom(image: seq<byte>, image': seq<byte>, lba: int, g: Geometry, dirs: set<nat>,
                                         L: Layout, op: Op, d: nat, k: nat)
    requires Fits(g, lba, |image|) && |image'| == |image| && WellPosed(op) && DirsIn(g, dirs, L) && d in dirs
    requires k < |ListingOf(image, lba, g, dirs, L)[d]|
    requires Apply(image, lba, op).error != None && Wipes(image, lba, g, op) && Meets(image, lba, g, op) == Some((d, k))
    requires DirsIn(g, DirsAfter(image, lba, g, dirs, op), L) && TableOf(image', lba, g) == TableOf(image, lba, g)
    requires Live(image', lba, g, TableOf(image', lba, g), DirsAfter(image, lba, g, dirs, op), L)
    requires var R: Listing := ListingOf(image, lba, g, dirs, L);
             ListingOf(image', lba, g, DirsAfter(image, lba, g, dirs, op), L)
             == (R - Gone(R[d], Some(k)))[d := Without(R[d], k)]
    requires Mirrored(image, lba, g) ==> Mirrored(image', lba, g)
    requires FreeClusters(image', lba, g) == FreeClusters(image, lba, g)
    ensures Stepped(image, image', lba, g, dirs, L, L, op, Wiped(d, k))
  {
    hide Live, ListingOf, DirsIn, NoLeaks, Fits, Apply, Wipes, Mirrored, Meets, FreeClusters, DirsAfter, TableOf, Gone,
         Without;
  }

  lemma {:induction false} StepRefused(image: seq<byte>, lba: int, g: Geometry, dirs: set<nat>, L: Layout, op: Op)
      returns (u: Update)
    requires ReadGeometry(image, lba) == Ok(g) && Live(image, lba, g, TableOf(image, lba, g), dirs, L)
    requires GoodStep(image, lba, g, dirs, op) && WellPosed(op) && Apply(image, lba, op).error != None
    ensures |Apply(image, lba, op).image| == |image| && DirsIn(g, dirs, L)
    ensures Stepped(image, Apply(image, lba, op).image, lba, g, dirs, L, L, op, u)
    ensures KeepsRecords(image, Apply(image, lba, op).image, lba, g, dirs, L, L, op)
  {
    hide *;
    InjectOutside(image, lba, op);
    ApplyCases(image, lba, g, op);
    var image', t := Apply(image, lba, op).image, TableOf(image, lba, g);
    LiveParts(image, lba, g, t, dirs, L);
    Untouched(image, lba, g, t, L);
    u := Unchanged;
    if PathNamed(op) && Target(image, lba, g, op).Ok? {
      var d := ApplyTarget(image, lba, g, dirs, L, op);
      var R: Listing := ListingOf(image, lba, g, dirs, L);
      match Met(R, d, op.q)
      case None =>
        RefusedFresh(image, lba, g, dirs, L, d, op.q);
        NothingMet(image, lba, g, op);
        StepUnchanged(image, image', lba, g, dirs, L, op);
      case Some(k) =>
        RefusedMet(image, lba, g, dirs, L, d, op.q, k);
        WipesWhen(image, lba, g, op);
        if Wipes(image, lba, g, op) {
          u := Wiped(d, k);
          StepVictim(image, lba, g, dirs, L, op, d, k);
          StepWiped(image, image', lba, g, dirs, L, op, d, k);
        } else {
          StepUnchanged(image, image', lba, g, dirs, L, op);
        }
    } else {
      NotReached(image, lba, g, op);
      StepUnchanged(image, image', lba, g, dirs, L, op);
    }
  }

  lemma {:induction false} NothingMet(image: seq<byte>, lba: int, g: Geometry, op: Op)
    requires Fits(g, lba, |image|) && Meets(image, lba, g, op) == None
    ensures !Wipes(image, lba, g, op)
  {
    hide Meets;
  }

  lemma {:induction false} NotReached(image: seq<byte>, lba: int, g: Geometry, op: Op)
    requires Fits(g, lba, |image|) && !(PathNamed(op) && Target(image, lba, g, op).Ok?)
    ensures !Wipes(image, lba, g, op)
  {
    hide Target, DirRecords, Requested, PathNamed;
  }

  /** One good step, accepted or refused, is an update of the listing by at most one record that keeps the volume and
      every record it does not remove, contents included. */
  lemma {:induction false} StepKeeps(image: seq<byte>, lba: int, g: Geometry, dirs: set<nat>, L: Layout, op: Op)
      returns (L': Layout, u: Update)
    requires ReadGeometry(image, lba) == Ok(g) && Live(image, lba, g, TableOf(image, lba, g), dirs, L) && WellPosed(op)
    requires GoodStep(image, lba, g, dirs, op)
    ensures |Apply(image, lba, op).image| == |image| && ReadGeometry(Apply(image, lba, op).image, lba) == Ok(g)
    ensures DirsIn(g, dirs, L)
    ensures Stepped(image, Apply(image, lba, op).image, lba, g, dirs, L, L', op, u)
    ensures KeepsRecords(image, Apply(image, lba, op).image, lba, g, dirs, L, L', op)
  {
    hide *;
    InjectOutside(image, lba, op);
    if Apply(image, lba, op).error == None {
      L', u := StepAccepted(image, lba, g, dirs, L, op);
    } else {
      L' := L;
      u := StepRefused(image, lba, g, dirs, L, op);
    }
  }

  lemma {:induction false} GoodParts(image: seq<byte>, lba: int, g: Geometry, dirs: set<nat>, op: Op)
    requires Fits(g, lba, |image|) && GoodStep(image, lba, g, dirs, op)
    ensures WellPosed(op)
  {
    hide Replaceable, Meets, ListingAt, GoodVictim, Wipes;
  }

  lemma {:induction false} DirsStay(image: seq<byte>, lba: int, g: Geometry, dirs: set<nat>, op: Op)
    requires Fits(g, lba, |image|) && Meets(image, lba, g, op) == None
    ensures DirsAfter(image, lba, g, dirs, op) == dirs
  {
    hide Meets;
  }

  /** What a good step replaces is a fit victim. */
  lemma {:induction false} StepVictim(image: seq<byte>, lba: int, g: Geometry, dirs: set<nat>, L: Layout, op: Op,
                                      d: nat, k: nat)
    requires Fits(g, lba, |image|) && Live(image, lba, g, TableOf(image, lba, g), dirs, L) && DirsIn(g, dirs, L)
    requires d in dirs && d in L && InRange(g, L[d])
    requires GoodStep(image, lba, g, dirs, op) && Meets(image, lba, g, op) == Some((d, k)) && Wipes(image, lba, g, op)
    requires Target(image, lba, g, op) == Ok(d)
    requires DirChain(TableOf(image, lba, g), g, d) == Ok(L[d])
    requires DirRecords(image, lba, g, TableOf(image, lba, g), d) == Ok(ListingOf(image, lba, g, dirs, L)[d])
    ensures Victim(image, lba, g, TableOf(image, lba, g), dirs, L, d, k)
    ensures Replaceable(image, lba, g, TableOf(image, lba, g), L[d], k)
    ensures k < |ListingOf(image, lba, g, dirs, L)[d]|
    ensures var v := ListingOf(image, lba, g, dirs, L)[d][k];
            && (v.IsDirectory() || v.cluster !in dirs) && v.cluster != d &&
               OwnChain(TableOf(image, lba, g), g, v.cluster) == ChainAt(L, v.cluster)
            && DirsAfter(image, lba, g, dirs, op) == dirs - {v.cluster}
  {
    hide Live, Fits, Replaceable, DirRecords, DirChain, TableOf, ListingOf, DirsIn, InRange, Apply, ListingAt, Sole,
         OwnChain, ChainAt, Meets, Target, Wipes;
    var t := TableOf(image, lba, g);
    ListingAtLive(image, lba, g, dirs, L);
    var v := ListingOf(image, lba, g, dirs, L)[d][k];
    if !v.IsDirectory() { VictimFrom(image, lba, g, t, dirs, L, d, k); }
    VictimChain(image, lba, g, t, dirs, L, d, k);
    OwnChainIs(t, g, L, v.cluster);
    assert v.cluster !in dirs ==> dirs - {v.cluster} == dirs;
  }

  lemma {:induction false} NotRemoved(image: seq<byte>, lba: int, g: Geometry, dirs: set<nat>, R: Listing, op: Op,
                                      d: nat, k: nat, e: nat, r: Record)
    requires Fits(g, lba, |image|) && Meets(image, lba, g, op) == Some((d, k)) && d in R && R.Keys == dirs && k < |R[d]|
    requires DirRecords(image, lba, g, TableOf(image, lba, g), d) == Ok(R[d])
    requires (R[d][k].IsDirectory() || R[d][k].cluster !in dirs) && Wipes(image, lba, g, op)
    requires e in dirs && !Removes(image, lba, g, op, e, r)
    ensures e != R[d][k].cluster && (e != d || r != R[d][k])
  {
    hide Meets, DirRecords, Wipes;
  }

  // ----- runs -----

  /** The directories left after a run. */
  function RunDirs(image: seq<byte>, lba: int, g: Geometry, dirs: set<nat>, ops: seq<Op>): set<nat>
    requires Fits(g, lba, |image|) && AllWellPosed(ops)
    decreases |ops|
  {
    if ops == [] then dirs
    else
      var init, last := ops[..|ops| - 1], ops[|ops| - 1];
      DirsAfter(RunAll(image, lba, init), lba, g, RunDirs(image, lba, g, dirs, init), last)
  }

  /** Every step of the run is good at the image and the directories it meets. */
  ghost predicate GoodRun(image: seq<byte>, lba: int, g: Geometry, dirs: set<nat>, ops: seq<Op>)
    requires Fits(g, lba, |image|) && AllWellPosed(ops)
  {
    forall i :: 0 <= i < |ops| ==>
        GoodStep(RunAll(image, lba, ops[..i]), lba, g, RunDirs(image, lba, g, dirs, ops[..i]), ops[i])
  }

  /** No step of the run from step `n` on replaces record `r` of directory `e`, or that directory. */
  ghost predicate Spared(image: seq<byte>, lba: int, g: Geometry, ops: seq<Op>, n: nat, e: nat, r: Record)
    requires Fits(g, lba, |image|) && AllWellPosed(ops)
  {
    forall i :: n <= i < |ops| ==> !Removes(RunAll(image, lba, ops[..i]), lba, g, ops[i], e, r)
  }

  /** Step `i` wrote a record, and no later step removes it. */
  ghost predicate Lasts(image: seq<byte>, lba: int, g: Geometry, ops: seq<Op>, us: seq<Update>, i: nat)
    requires Fits(g, lba, |image|) && AllWellPosed(ops)
  {
    i < |us| && us[i].Written? && Spared(image, lba, g, ops, i + 1, us[i].dir, us[i].new_)
  }

  predicate SomeWritten(us: seq<Update>) {
    exists i :: 0 <= i < |us| && us[i].Written?
  }

  /** The balance of a whole run: that of each step at the image it meets. */
  function RunBalance(image: seq<byte>, lba: int, g: Geometry, ops: seq<Op>): int
    requires Fits(g, lba, |image|) && AllWellPosed(ops)
    decreases |ops|
  {
    if ops == [] then 0
    else
      var init, last := ops[..|ops| - 1], ops[|ops| - 1];
      RunBalance(image, lba, g, init) + Balance(RunAll(image, lba, init), lba, g, last)
  }

  /** Each update is the one its step makes, and it applies to the listing it meets. */
  ghost predicate Follows(image: seq<byte>, lba: int, g: Geometry, R: Listing, ops: seq<Op>, us: seq<Update>)
    requires Fits(g, lba, |image|) && AllWellPosed(ops)
  {
    && |us| == |ops|
    && forall i :: 0 <= i < |ops| ==>
       Performs(RunAll(image, lba, ops[..i]), lba, g, ops[i], us[i]) && Applies(UpdatedAll(R, us[..i]), us[i])
  }

  lemma {:induction false} RunPrefix(image: seq<byte>, lba: int, g: Geometry, dirs: set<nat>, ops: seq<Op>)
    requires Fits(g, lba, |image|) && AllWellPosed(ops) && ops != []
    ensures AllWellPosed(ops[..|ops| - 1])
    ensures RunAll(image, lba, ops) == Apply(RunAll(image, lba, ops[..|ops| - 1]), lba, ops[|ops| - 1]).image
    ensures RunDirs(image, lba, g, dirs, ops)
            == DirsAfter(RunAll(image, lba, ops[..|ops| - 1]), lba, g, RunDirs(image, lba, g, dirs, ops[..|ops| - 1]),
                         ops[|ops| - 1])
    ensures GoodRun(image, lba, g, dirs, ops) ==>
              && GoodRun(image, lba, g, dirs, ops[..|ops| - 1])
              && GoodStep(RunAll(image, lba, ops[..|ops| - 1]), lba, g, RunDirs(image, lba, g, dirs, ops[..|ops| - 1]),
                          ops[|ops| - 1])
    ensures forall n: nat, e, r :: n < |ops| && Spared(image, lba, g, ops, n, e, r) ==>
              Spared(image, lba, g, ops[..|ops| - 1], n, e, r) &&
                  !Removes(RunAll(image, lba, ops[..|ops| - 1]), lba, g, ops[|ops| - 1], e, r)
    ensures RunBalance(image, lba, g, ops)
            == RunBalance(image, lba, g, ops[..|ops| - 1])
                + Balance(RunAll(image, lba, ops[..|ops| - 1]), lba, g, ops[|ops| - 1])
  {
    hide GoodStep, Removes, Apply, Fits, Balance, DirsAfter;
    var init := ops[..|ops| - 1];
    assert forall i :: 0 <= i < |init| ==> init[..i] == ops[..i] && init[i] == ops[i];
  }

  lemma {:induction false} FollowsAt(image: seq<byte>, lba: int, g: Geometry, R: Listing, ops: seq<Op>, us: seq<Update>,
                                     u: Update, i: nat)
    requires Fits(g, lba, |image|) && AllWellPosed(ops) && ops != [] && AllWellPosed(ops[..|ops| - 1])
    requires Follows(image, lba, g, R, ops[..|ops| - 1], us) && i < |ops| - 1
    ensures |us| == |ops| - 1 && AllWellPosed(ops[..i])
    ensures Performs(RunAll(image, lba, ops[..i]), lba, g, ops[i], (us + [u])[i])
    ensures Applies(UpdatedAll(R, (us + [u])[..i]), (us + [u])[i])
  {
    hide Performs, Applies, UpdatedAll, Fits, RunAll, WellPosed;
    var init, all := ops[..|ops| - 1], us + [u];
    assert init[..i] == ops[..i] && init[i] == ops[i] && all[..i] == us[..i] && all[i] == us[i];
  }

  lemma {:induction false} FollowsMore(image: seq<byte>, lba: int, g: Geometry, R: Listing, ops: seq<Op>,
                                       us: seq<Update>, u: Update)
    requires Fits(g, lba, |image|) && AllWellPosed(ops) && ops != [] && AllWellPosed(ops[..|ops| - 1])
    requires Follows(image, lba, g, R, ops[..|ops| - 1], us)
    requires Performs(RunAll(image, lba, ops[..|ops| - 1]), lba, g, ops[|ops| - 1], u) && Applies(UpdatedAll(R, us), u)
    ensures Follows(image, lba, g, R, ops, us + [u]) && UpdatedAll(R, us + [u]) == Updated(UpdatedAll(R, us), u)
  {
    hide Performs, Applies, Updated, Fits, RunAll, WellPosed;
    var all := us + [u];
    assert |us| == |ops| - 1 && all[..|us|] == us && all[|us|] == u;
    forall i | 0 <= i < |ops|
      ensures Performs(RunAll(image, lba, ops[..i]), lba, g, ops[i], all[i]) && Applies(UpdatedAll(R, all[..i]), all[i])
    {
      if i < |ops| - 1 { FollowsAt(image, lba, g, R, ops, us, u, i); }
    }
  }

  /** What a run of good steps, accepted or refused, does to the listing `R`: it is a run of updates of it, the volume
      stays well formed with no cluster lost, the free clusters change by the balance of the steps, and every record a
      step wrote and no later one removed reads as that step's data. */
  ghost predicate Ran(image: seq<byte>, lba: int, g: Geometry, dirs: set<nat>, R: Listing, ops: seq<Op>, L': Layout,
                      us: seq<Update>)
    requires Fits(g, lba, |image|) && AllWellPosed(ops)
  {
    var image', left := RunAll(image, lba, ops), RunDirs(image, lba, g, dirs, ops);
    && Volume(image', lba, g, left, L') && DirsIn(g, left, L')
    && Follows(image, lba, g, R, ops, us)
    && ListingOf(image', lba, g, left, L') == UpdatedAll(R, us)
    && FreeClusters(image', lba, g) == FreeClusters(image, lba, g) + RunBalance(image, lba, g, ops)
    && forall i :: 0 <= i < |ops| && Lasts(image, lba, g, ops, us, i) ==>
         Shows(image', lba, g, left, L', us[i].dir, us[i].new_, Ok(ops[i].q.data))
  }

  lemma {:induction false} RanParts(image: seq<byte>, lba: int, g: Geometry, dirs: set<nat>, R: Listing, ops: seq<Op>,
                                    L': Layout, us: seq<Update>)
    requires Fits(g, lba, |image|) && AllWellPosed(ops) && Ran(image, lba, g, dirs, R, ops, L', us)
    ensures var image', left := RunAll(image, lba, ops), RunDirs(image, lba, g, dirs, ops);
            && Volume(image', lba, g, left, L') && DirsIn(g, left, L') && |us| == |ops|
            && Follows(image, lba, g, R, ops, us) && ListingOf(image', lba, g, left, L') == UpdatedAll(R, us)
            && FreeClusters(image', lba, g) == FreeClusters(image, lba, g) + RunBalance(image, lba, g, ops)
            && forall i :: 0 <= i < |ops| && Lasts(image, lba, g, ops, us, i) ==>
                 Shows(image', lba, g, left, L', us[i].dir, us[i].new_, Ok(ops[i].q.data))
  {
    hide Volume, DirsIn, ListingOf, UpdatedAll, FreeClusters, RunBalance, Lasts, Shows, Fits, RunAll, Performs, Applies,
         RunDirs;
  }

  lemma {:induction false} RanFrom(image: seq<byte>, lba: int, g: Geometry, dirs: set<nat>, R: Listing, ops: seq<Op>,
                                   L': Layout, us: seq<Update>, image': seq<byte>, left: set<nat>)
    requires Fits(g, lba, |image|) && AllWellPosed(ops) && image' == RunAll(image, lba, ops)
    requires left == RunDirs(image, lba, g, dirs, ops)
    requires Volume(image', lba, g, left, L') && DirsIn(g, left, L') && |us| == |ops|
    requires Follows(image, lba, g, R, ops, us) && ListingOf(image', lba, g, left, L') == UpdatedAll(R, us)
    requires FreeClusters(image', lba, g) == FreeClusters(image, lba, g) + RunBalance(image, lba, g, ops)
    requires forall i :: 0 <= i < |ops| && Lasts(image, lba, g, ops, us, i) ==>
               Shows(image', lba, g, left, L', us[i].dir, us[i].new_, Ok(ops[i].q.data))
    ensures Ran(image, lba, g, dirs, R, ops, L', us)
  {
    hide Volume, DirsIn, ListingOf, UpdatedAll, FreeClusters, RunBalance, Shows, Fits, RunAll, Follows, RunDirs, Lasts;
  }

  /** Any run of good steps, accepted or refused, is a run of updates of the listing; FAT copies stay equal, and are
      equal once a step is accepted; and every record that was there and that no step removed, alone or with its
      directory, is still listed, unchanged, and reads the same. */
  lemma {:induction false} RunKeeps(image: seq<byte>, lba: int, g: Geometry, dirs: set<nat>, L: Layout, ops: seq<Op>)
      returns (L': Layout, us: seq<Update>)
    requires ReadGeometry(image, lba) == Ok(g) && Volume(image, lba, g, dirs, L) && AllWellPosed(ops)
    requires GoodRun(image, lba, g, dirs, ops)
    ensures ReadGeometry(RunAll(image, lba, ops), lba) == Ok(g) && DirsIn(g, dirs, L)
    ensures Ran(image, lba, g, dirs, ListingOf(image, lba, g, dirs, L), ops, L', us)
    ensures SomeWritten(us) || Mirrored(image, lba, g) ==> Mirrored(RunAll(image, lba, ops), lba, g)
    ensures forall e, r ::
      e in dirs && r in ListingOf(image, lba, g, dirs, L)[e] && Spared(image, lba, g, ops, 0, e, r) ==>
              Shows(RunAll(image, lba, ops), lba, g, RunDirs(image, lba, g, dirs, ops), L', e, r,
                    ReadRecord(image, lba, g, TableOf(image, lba, g), r))
    decreases |ops|
  {
    hide *;
    VolumeParts(image, lba, g, dirs, L);
    var R: Listing := ListingOf(image, lba, g, dirs, L);
    var t := TableOf(image, lba, g);
    if ops == [] {
      L', us := L, [];
      RunNone(image, lba, g, dirs, R);
      NoneWritten();
      NoneLast(image, lba, g, us);
      RanFrom(image, lba, g, dirs, R, ops, L', us, image, dirs);
      forall e, r | e in dirs && r in R[e]
        ensures Shows(image, lba, g, dirs, L', e, r, ReadRecord(image, lba, g, t, r))
      {
        ShowsSame(image, lba, g, dirs, L, e, r);
      }
    } else {
      var init, op := ops[..|ops| - 1], ops[|ops| - 1];
      RunPrefix(image, lba, g, dirs, ops);
      var L1, us1 := RunKeeps(image, lba, g, dirs, L, init);
      RanParts(image, lba, g, dirs, R, init, L1, us1);
      var mid, dirs1 := RunAll(image, lba, init), RunDirs(image, lba, g, dirs, init);
      GoodParts(mid, lba, g, dirs1, op);
      VolumeParts(mid, lba, g, dirs1, L1);
      var u;
      L', u := StepKeeps(mid, lba, g, dirs1, L1, op);
      us := us1 + [u];
      var image', left := Apply(mid, lba, op).image, DirsAfter(mid, lba, g, dirs1, op);
      SteppedParts(mid, image', lba, g, dirs1, L1, L', op, u);
      FollowsMore(image, lba, g, R, ops, us1, u);
      FollowsLength(image, lba, g, R, ops, us);
      forall e, r | e in dirs && r in R[e] && Spared(image, lba, g, ops, 0, e, r)
        ensures Shows(image', lba, g, left, L', e, r, ReadRecord(image, lba, g, t, r))
      {
        KeepsAt(mid, image', lba, g, dirs1, L1, L', op, e, r);
        ShowsStep(mid, image', lba, g, dirs1, left, L1, L', e, r, ReadRecord(image, lba, g, t, r));
      }
      LastWritten(us1, u);
      forall i | 0 <= i < |ops| && Lasts(image, lba, g, ops, us, i)
        ensures us[i].Written? && Shows(image', lba, g, left, L', us[i].dir, us[i].new_, Ok(ops[i].q.data))
      {
        LastsParts(image, lba, g, ops, us, i);
        if i < |init| {
          assert us[i] == us1[i] && init[i] == ops[i];
          LastsFrom(image, lba, g, init, us1, i);
          KeepsAt(mid, image', lba, g, dirs1, L1, L', op, us[i].dir, us[i].new_);
          ShowsStep(mid, image', lba, g, dirs1, left, L1, L', us[i].dir, us[i].new_, Ok(ops[i].q.data));
        }
      }
      RanFrom(image, lba, g, dirs, R, ops, L', us, image', left);
    }
  }

  lemma {:induction false} KeepsAt(image: seq<byte>, image': seq<byte>, lba: int, g: Geometry, dirs: set<nat>,
                                   L: Layout, L': Layout, op: Op, e: nat, r: Record)
    requires Fits(g, lba, |image|) && |image'| == |image| && DirsIn(g, dirs, L) && !Removes(image, lba, g, op, e, r)
    requires KeepsRecords(image, image', lba, g, dirs, L, L', op)
    ensures e in dirs && r in ListingOf(image, lba, g, dirs, L)[e] ==>
              Shows(image', lba, g, DirsAfter(image, lba, g, dirs, op), L', e, r,
                    ReadRecord(image, lba, g, TableOf(image, lba, g), r))
  {
    hide Removes, Shows, DirsAfter, ReadRecord, TableOf, ListingOf, Fits, DirsIn;
  }

  lemma {:induction false} NoneWritten()
    ensures !SomeWritten([])
  {
  }

  lemma {:induction false} NoneLast(image: seq<byte>, lba: int, g: Geometry, us: seq<Update>)
    requires Fits(g, lba, |image|) && us == []
    ensures AllWellPosed([]) && forall i: nat :: !Lasts(image, lba, g, [], us, i)
  {
  }

  lemma {:induction false} LastWritten(us: seq<Update>, u: Update)
    ensures SomeWritten(us + [u]) <==> SomeWritten(us) || u.Written?
  {
    if SomeWritten(us) {
      var i :| 0 <= i < |us| && us[i].Written?;
      assert (us + [u])[i] == us[i];
    }
    assert (us + [u])[|us|] == u;
  }

  lemma {:induction false} LastsParts(image: seq<byte>, lba: int, g: Geometry, ops: seq<Op>, us: seq<Update>, i: nat)
    requires Fits(g, lba, |image|) && AllWellPosed(ops) && Lasts(image, lba, g, ops, us, i)
    ensures i < |us| && us[i].Written? && Spared(image, lba, g, ops, i + 1, us[i].dir, us[i].new_)
  {
  }

  lemma {:induction false} LastsFrom(image: seq<byte>, lba: int, g: Geometry, ops: seq<Op>, us: seq<Update>, i: nat)
    requires Fits(g, lba, |image|) && AllWellPosed(ops) && i < |us| && us[i].Written?
    requires Spared(image, lba, g, ops, i + 1, us[i].dir, us[i].new_)
    ensures Lasts(image, lba, g, ops, us, i)
  {
  }

  lemma {:induction false} FollowsLength(image: seq<byte>, lba: int, g: Geometry, R: Listing, ops: seq<Op>,
                                         us: seq<Update>)
    requires Fits(g, lba, |image|) && AllWellPosed(ops) && Follows(image, lba, g, R, ops, us)
    ensures |us| == |ops|
  {
  }

  lemma {:induction false} SteppedParts(image: seq<byte>, image': seq<byte>, lba: int, g: Geometry, dirs: set<nat>,
                                        L: Layout, L': Layout, op: Op, u: Update)
    requires Fits(g, lba, |image|) && |image'| == |image| && Volume(image, lba, g, dirs, L) && WellPosed(op)
    requires Stepped(image, image', lba, g, dirs, L, L', op, u)
    ensures var left := DirsAfter(image, lba, g, dirs, op);
            && Volume(image', lba, g, left, L') && DirsIn(g, dirs, L) && DirsIn(g, left, L')
            && (u.Written? || Mirrored(image, lba, g) ==> Mirrored(image', lba, g))
            && Performs(image, lba, g, op, u) && Applies(ListingOf(image, lba, g, dirs, L), u)
            && ListingOf(image', lba, g, left, L') == Updated(ListingOf(image, lba, g, dirs, L), u)
            && FreeClusters(image', lba, g) == FreeClusters(image, lba, g) + Balance(image, lba, g, op)
            && (u.Written? ==> Shows(image', lba, g, left, L', u.dir, u.new_, Ok(op.q.data)))
  {
    hide ChainsOk, DirsClean, OwnersOk, ListingOf, NoLeaks, ReadRecord, TableOf, FreeClusters, Balance, Performs,
         Mirrored, Fits, InRange, Left, DirsAfter, Gone;
    if u.Written? { UpdatedHolds(ListingOf(image, lba, g, dirs, L), u); }
  }

  lemma {:induction false} UpdatedHolds(R: Listing, u: Update)
    requires u.Written? && Applies(R, u)
    ensures u.dir in Updated(R, u) && u.new_ in Updated(R, u)[u.dir]
  {
    hide Left, Gone;
    WithIndex(Left(R[u.dir], u.victim), u.at, u.new_, u.at);
  }

  lemma {:induction false} VolumeParts(image: seq<byte>, lba: int, g: Geometry, dirs: set<nat>, L: Layout)
    requires Fits(g, lba, |image|) && Volume(image, lba, g, dirs, L)
    ensures DirsIn(g, dirs, L) && Live(image, lba, g, TableOf(image, lba, g), dirs, L)
  {
  }

  lemma {:induction false} RunNone(image: seq<byte>, lba: int, g: Geometry, dirs: set<nat>, R: Listing)
    requires Fits(g, lba, |image|)
    ensures AllWellPosed([]) && RunAll(image, lba, []) == image && RunBalance(image, lba, g, []) == 0
    ensures RunDirs(image, lba, g, dirs, []) == dirs
    ensures Follows(image, lba, g, R, [], []) && UpdatedAll(R, []) == R
  {
  }

  lemma {:induction false} ShowsSame(image: seq<byte>, lba: int, g: Geometry, dirs: set<nat>, L: Layout, e: nat,
                                     r: Record)
    requires Fits(g, lba, |image|) && DirsIn(g, dirs, L) && e in dirs && r in ListingOf(image, lba, g, dirs, L)[e]
    ensures Shows(image, lba, g, dirs, L, e, r, ReadRecord(image, lba, g, TableOf(image, lba, g), r))
  {
  }

  lemma {:induction false} ShowsStep(mid: seq<byte>, image': seq<byte>, lba: int, g: Geometry, dirs: set<nat>,
                                     left: set<nat>, L1: Layout, L': Layout, e: nat, r: Record,
                                     bytes: Result<seq<byte>, Error>)
    requires Fits(g, lba, |mid|) && |image'| == |mid| && Shows(mid, lba, g, dirs, L1, e, r, bytes)
    requires DirsIn(g, dirs, L1) && e in dirs && r in ListingOf(mid, lba, g, dirs, L1)[e] ==>
               Shows(image', lba, g, left, L', e, r, ReadRecord(mid, lba, g, TableOf(mid, lba, g), r))
    ensures Shows(image', lba, g, left, L', e, r, bytes)
  {
  }
}
