/** Inputs at which a read goes wrong, built from a newly formatted volume by plain injections. */
module Fat32Witness {
  import opened Bytes
  import opened DataBlocks
  import opened Splitting
  import opened Chains
  import opened LongNames
  import opened Directory
  import opened Fat32Volume
  import opened Fat32Layout
  import opened Fat32Slots
  import opened Fat32Files
  import opened Fat32Live
  import opened Fat32Store
  import opened Fat32Inject
  import opened Fat32Replace
  import opened Fat32Runs
  import opened Fat32Theorems
  import opened Fat32ReadBack
  import opened Fat32Gaps
  import opened Fat32Packed
  import Formatting = Fat32Format

  // ----- plain injections into the root -----

  /** Stores `data` in the root under `name`, with a generated alias. */
  function Put(name: Name, data: seq<byte>, replace: bool, upper: Name -> Name): Op {
    Op(name, Request(name, [], data, replace, upper))
  }

  /** A name without separators that is stored and read back as it is. */
  predicate Plain(name: Name) {
    Storable(name) && Decodable(name) && Trim(name) == name
  }

  lemma {:induction false} NormalPlain(name: Name)
    requires SLASH !in name && BACKSLASH !in name
    ensures Normalize(name) == name
  {
    assert seq(|name|, i requires 0 <= i < |name| => if name[i] == BACKSLASH then SLASH else name[i]) == name;
    assert name != [] ==> name[0] != SLASH && name[|name| - 1] != SLASH;
  }

  lemma {:induction false} PlainPath(name: Name)
    requires name != [] && SLASH !in name && BACKSLASH !in name
    ensures FileNameOf(name) == name && DirectoryOf(name) == [] && name[|name| - 1] !in {SLASH, BACKSLASH}
  {
    hide Normalize;
    NormalPlain(name);
    NormalPlain([]);
    SplitUnfold(name, SLASH);
    assert [name][..0] == [];
    assert name[|name| - 1] in name;
  }

  lemma {:induction false} PutPosed(name: Name, data: seq<byte>, replace: bool, upper: Name -> Name)
    requires Plain(name)
    ensures var op := Put(name, data, replace, upper);
            && WellPosed(op) && PathNamed(op) && DirectoryOf(op.path) == [] && AliasOk(op.q) && Requested(op.q) == None
            && op.q.fatName == [] && op.path == name
  {
    hide FileNameOf, DirectoryOf, Decodable, Trim, Utf8Length;
    PlainPath(name);
  }

  // ----- an alias can always be had among few -----

  lemma {:induction false} NumberAt(stem: Name, extension: Name, n: nat)
    requires stem != [] && AllStem(stem) && |extension| <= 3 && AllStem(extension) && 1 <= n < 10
    ensures var i := if |stem| <= 6 then |stem| + 1 else 7; NumberedAlias(stem, extension, n)[i] == 0x30 + n
  {
  }

  lemma {:induction false} FewAliases(recs: seq<Record>, q: Request)
    requires |recs| <= 3 && q.fatName == []
    ensures ChosenAlias(recs, q).Some?
  {
    hide NumberedAlias, StemOf, ExtensionOf, AllStem;
    var stem, extension := StemOf(q.upper(q.name)), ExtensionOf(q.upper(q.name));
    NumberAt(stem, extension, 1);
    NumberAt(stem, extension, 2);
    NumberAt(stem, extension, 3);
    NumberAt(stem, extension, 4);
    var a, b, c, d := NumberedAlias(stem, extension, 1), NumberedAlias(stem, extension, 2),
                      NumberedAlias(stem, extension, 3), NumberedAlias(stem, extension, 4);
    FourOfThree(recs, a, b, c, d);
    hide Alias;
  }

  lemma {:induction false} FourOfThree(recs: seq<Record>, a: seq<byte>, b: seq<byte>, c: seq<byte>, d: seq<byte>)
    requires |recs| <= 3 && a != b && a != c && a != d && b != c && b != d && c != d
    ensures a !in AliasesOf(recs) || b !in AliasesOf(recs) || c !in AliasesOf(recs) || d !in AliasesOf(recs)
  {
    var x := if |recs| > 0 then recs[0].alias else a;
    var y := if |recs| > 1 then recs[1].alias else x;
    var z := if |recs| > 2 then recs[2].alias else x;
    assert forall e :: e in AliasesOf(recs) ==> e == x || e == y || e == z;
  }

  // ----- a root filled from the front -----

  /** A volume with no other directory than the root, which is filled from the front. */
  ghost predicate Shelf(image: seq<byte>, lba: int, g: Geometry, L: Layout, recs: seq<Record>, n: nat) {
    && ReadGeometry(image, lba) == Ok(g) && g.spc == 4
    && Volume(image, lba, g, {ROOT}, L)
    && ListingOf(image, lba, g, {ROOT}, L)[ROOT] == recs
    && Packed(DirSlots(image, lba, g, L[ROOT]), n)
  }

  lemma {:induction false} ShelfParts(image: seq<byte>, lba: int, g: Geometry, L: Layout, recs: seq<Record>, n: nat)
    requires Shelf(image, lba, g, L, recs, n)
    ensures ReadGeometry(image, lba) == Ok(g) && Fits(g, lba, |image|) && g.BlockSlots() == 64 && g.BlockBytes() == 2048
    ensures Volume(image, lba, g, {ROOT}, L) && Live(image, lba, g, TableOf(image, lba, g), {ROOT}, L)
    ensures DirsIn(g, {ROOT}, L) && ROOT in L && InRange(g, L[ROOT]) && L[ROOT] != []
    ensures ChainsOk(TableOf(image, lba, g), g, L)
    ensures IsChain(TableOf(image, lba, g), L[ROOT], g.Top(), EOF) && g.Top() <= EOF
    ensures ListingOf(image, lba, g, {ROOT}, L)[ROOT] == recs && Packed(DirSlots(image, lba, g, L[ROOT]), n)
    ensures DirRecords(image, lba, g, TableOf(image, lba, g), ROOT) == Ok(recs)
    ensures DirChain(TableOf(image, lba, g), g, ROOT) == Ok(L[ROOT])
    ensures TailZero(DirSlots(image, lba, g, L[ROOT])) && Records(DirSlots(image, lba, g, L[ROOT])) == recs
  {
    hide ReadGeometry, Live, ListingOf, Packed, DirSlots, NoLeaks, ChainsOk, DirRecords, DirChain, TailZero, Records,
         InRange, IsChain, TableOf;
    VolumeParts(image, lba, g, {ROOT}, L);
    LiveChain(image, lba, g, TableOf(image, lba, g), {ROOT}, L, ROOT);
    LiveParts(image, lba, g, TableOf(image, lba, g), {ROOT}, L);
    TopBound(TableOf(image, lba, g), g, L);
  }

  lemma {:induction false} ExtensionSmall(slots: seq<Slot>, req: nat, per: nat)
    requires Shaped(slots) && req <= per && per > 0
    ensures Extension(slots, req, per) <= 1
  {
    hide FirstFit, Trailing;
    assert Rounds(Trailing(slots) + per, req, per) == 0;
  }

  lemma {:induction false} NobodyMatches(recs: seq<Record>, q: Request)
    requires Requested(q) == None && forall i :: 0 <= i < |recs| ==> !NameEqual(recs[i].name, q.name)
    ensures FirstExisting(recs, q.name, Requested(q)) == None
  {
    hide NameEqual, Requested;
  }

  /** Into a shelf with few records a new plain name with at most a cluster of data is always accepted. */
  lemma {:induction false} ShelfAccepts(image: seq<byte>, lba: int, g: Geometry, L: Layout, recs: seq<Record>, n: nat,
                                        op: Op)
    requires Shelf(image, lba, g, L, recs, n) && Fits(g, lba, |image|) && |recs| <= 3
    requires FreeClusters(image, lba, g) >= 2
    requires op == Put(op.q.name, op.q.data, op.q.replace, op.q.upper) && Plain(op.q.name) && |op.q.data| <= 2048
    requires forall i :: 0 <= i < |recs| ==> !NameEqual(recs[i].name, op.q.name)
    ensures WellPosed(op) && Apply(image, lba, op).error == None && Meets(image, lba, g, op) == None
    ensures Target(image, lba, g, op) == Ok(ROOT) && DirsIn(g, {ROOT}, L)
    ensures Met(ListingOf(image, lba, g, {ROOT}, L), ROOT, op.q) == None
    ensures Apply(image, lba, op) == InjectInto(image, lba, g, ROOT, op.q)
    ensures 1 <= EntryCount(op.q.name) <= 20
  {
    hide *;
    var q := op.q;
    ShelfParts(image, lba, g, L, recs, n);
    PutPosed(q.name, q.data, q.replace, q.upper);
    Formatting.ApplyAtRoot(image, lba, g, op);
    ApplyCases(image, lba, g, op);
    NobodyMatches(recs, q);
    MetIs(ListingOf(image, lba, g, {ROOT}, L), ROOT, q);
    FewAliases(recs, q);
    InjectSucceeds(image, lba, g, {ROOT}, L, ROOT, q);
    PlainParts(q.name);
    NameFits(q.name);
    ExtensionSmall(DirSlots(image, lba, g, L[ROOT]), EntryCount(q.name) + 1, g.BlockSlots());
    NeededOne(q.data, g);
    Formatting.FreeIs(image, lba, g);
    MeetsNobody(image, lba, g, op, recs);
  }

  lemma {:induction false} PlainParts(name: Name)
    requires Plain(name)
    ensures Storable(name) && Decodable(name) && Trim(name) == name && name != []
  {
    hide Decodable, Trim;
  }

  lemma {:induction false} NeededOne(data: seq<byte>, g: Geometry)
    requires g.BlockBytes() == 2048 && |data| <= 2048
    ensures Needed(|data|, g.BlockBytes()) <= 1 && (data == [] ==> Needed(|data|, g.BlockBytes()) == 0)
    ensures data != [] ==> Needed(|data|, g.BlockBytes()) == 1
  {
  }

  lemma {:induction false} MeetsNobody(image: seq<byte>, lba: int, g: Geometry, op: Op, recs: seq<Record>)
    requires Fits(g, lba, |image|) && Target(image, lba, g, op) == Ok(ROOT)
    requires DirRecords(image, lba, g, TableOf(image, lba, g), ROOT) == Ok(recs)
    requires FirstExisting(recs, op.q.name, Requested(op.q)) == None
    ensures Meets(image, lba, g, op) == None
  {
    hide Target, DirRecords, Requested;
  }

  /** A fresh injection is a store under the chosen alias. */
  lemma {:induction false} FreshIsStore(image: seq<byte>, lba: int, g: Geometry, d: nat, q: Request, recs: seq<Record>,
                                        alias: seq<byte>)
    requires Fits(g, lba, |image|) && DirRecords(image, lba, g, TableOf(image, lba, g), d) == Ok(recs) && AliasOk(q)
    requires FirstExisting(recs, q.name, Requested(q)) == None && ChosenAlias(recs, q) == Some(alias)
    ensures |FatImage(image, lba, g)| == g.FatBytes() && alias[0] !in {0, DELETED}
    ensures InjectInto(image, lba, g, d, q) == Store(image, lba, g, FatImage(image, lba, g), d, q.name, alias, q.data)
  {
    hide Fits, Store, Table, FatImage, DirRecords, Requested, Alias, FirstExisting, GoodAlias;
    RequestedGood(q);
    GoodStart(alias);
  }

  /** The listing after the entries are written. */
  lemma {:induction false} PackedRecords(slots: seq<Slot>, news: seq<Slot>, n: nat, run: seq<nat>, name: Name,
                                         short: seq<byte>)
    requires Shaped(slots) && Packed(slots, n) && 1 <= EntryCount(name) <= 20 && |short| == 32 && Decodable(name)
    requires Short(Slot(0, short)) && |run| == EntryCount(name) + 1 && n + |run| <= |slots|
    requires AllFree(slots[n..n + |run|]) && NoEnd(slots[..n]) && TailZero(slots)
    requires news == slots[..n] + SlotsOf(run, NewEntries(name, short)) + slots[n + |run|..]
    ensures Shaped(news) && Records(news) == Records(slots) + [NewRecord(run, name, short)]
  {
    hide Packed, Records, AllFree, NoEnd, TailZero, NewEntries, SlotsOf, NewRecord, EntryCount, Decodable, Trailing,
         Free;
    var pre, mid, post := slots[..n], slots[n..n + |run|], slots[n + |run|..];
    assert slots == pre + mid + post;
    ShapedParts(slots, n, n + |run|);
    InsertRecord(pre, mid, post, run, name, short);
    PackedFit(slots, n, |run|);
    RecordsBeforeTrailing(slots);
  }

  /** What one accepted plain injection does to a shelf: the record `r` comes last. */
  ghost predicate Shelved(image: seq<byte>, lba: int, g: Geometry, recs: seq<Record>, n: nat, op: Op, image': seq<byte>,
                          L': Layout, r: Record)
    requires Fits(g, lba, |image|) && |image'| == |image|
  {
    var t, t' := TableOf(image, lba, g), TableOf(image', lba, g);
    && Shelf(image', lba, g, L', recs + [r], n + EntryCount(op.q.name) + 1)
    && Describes(r, op.q.name, r.alias, r.cluster, |op.q.data|) && ChosenAlias(recs, op.q) == Some(r.alias)
    && ReadRecord(image', lba, g, t', r) == Ok(op.q.data)
    && (forall i :: 0 <= i < |recs| && !recs[i].IsDirectory() ==>
          ReadRecord(image', lba, g, t', recs[i]) == ReadRecord(image, lba, g, t, recs[i]))
    && FreeClusters(image', lba, g) >= FreeClusters(image, lba, g) - 2
  }

  /** The new record lies at entries `n` and on; table and chain are those of the placement `p` and the clusters
      `cs`. */
  ghost predicate Taken(image: seq<byte>, lba: int, g: Geometry, fat: seq<byte>, chain: seq<nat>, n: nat, op: Op,
                        t': seq<nat>, chain': seq<nat>, r: Record, p: Placement, cs: seq<nat>)
    requires Fits(g, lba, |image|) && |fat| == g.FatBytes() && chain != [] && InRange(g, chain) && g.BlockBytes() > 0
    requires InRange(g, p.chain) && |p.fat| == |fat| && g.Top() <= |Table(p.fat)|
  {
    && chain' == p.chain && p.ok && p.start == n
    && p == Place(image, lba, g, fat, chain, EntryCount(op.q.name) + 1)
    && Allocate(Table(p.fat), Needed(|op.q.data|, g.BlockBytes()), g.Top()) == Some(cs)
    && t' == Link(Table(p.fat), cs, |cs|, EOF)
    && r.cluster == FirstOf(cs) && n + EntryCount(op.q.name) < |Offsets(lba, g, p.chain)|
    && r.lfnStart == Offsets(lba, g, p.chain)[n] && r.offset == Offsets(lba, g, p.chain)[n + EntryCount(op.q.name)]
  }

  lemma {:induction false} NewRecordPlace(run: seq<nat>, name: Name, alias: seq<byte>, first: nat, size: nat)
    requires run != [] && |alias| == 11 && alias[0] !in {0, DELETED} && size < 0x1_0000_0000 && first < 0x1_0000_0000
    requires Trim(name) == name && name != []
    ensures var r := NewRecord(run, name, ShortEntry(alias, first, size));
            r.lfnStart == run[0] && r.offset == run[|run| - 1] && r.cluster == first && r.alias == alias
    ensures Short(Slot(0, ShortEntry(alias, first, size))) && ShortEntry(alias, first, size)[0] !in {0, DELETED}
  {
    ShortEntryFields(alias, first, size);
    hide ShortEntry, ShortName, Trim;
  }

  /** A plain injection into a shelf of at most three records. */
  lemma {:induction false} ShelfStep(image: seq<byte>, lba: int, g: Geometry, L: Layout, recs: seq<Record>, n: nat,
                                     op: Op)
      returns (L': Layout, r: Record, p: Placement, cs: seq<nat>)
    requires Shelf(image, lba, g, L, recs, n) && Fits(g, lba, |image|) && |recs| <= 3
    requires FreeClusters(image, lba, g) >= 2
    requires op == Put(op.q.name, op.q.data, op.q.replace, op.q.upper) && Plain(op.q.name) && |op.q.data| <= 2048
    requires forall i :: 0 <= i < |recs| ==> !NameEqual(recs[i].name, op.q.name)
    ensures WellPosed(op) && Apply(image, lba, op).error == None && |Apply(image, lba, op).image| == |image|
    ensures Shelved(image, lba, g, recs, n, op, Apply(image, lba, op).image, L', r)
    ensures ROOT in L && InRange(g, L[ROOT]) && L[ROOT] != [] && |FatImage(image, lba, g)| == g.FatBytes()
    ensures ROOT in L' && g.BlockBytes() > 0 && InRange(g, p.chain) && |p.fat| == g.FatBytes()
    ensures g.Top() <= |Table(p.fat)|
    ensures Taken(image, lba, g, FatImage(image, lba, g), L[ROOT], n, op, TableOf(Apply(image, lba, op).image, lba, g),
                  L'[ROOT], r, p, cs)
  {
    hide *;
    FitsBasics(g, lba, |image|);
    ShelfParts(image, lba, g, L, recs, n);
    ShelfAccepts(image, lba, g, L, recs, n, op);
    InjectOutside(image, lba, op);
    var image', q, t, fat := Apply(image, lba, op).image, op.q, TableOf(image, lba, g), FatImage(image, lba, g);
    TableIs(image, lba, g);
    TableIs(image', lba, g);
    FreshStep(image, lba, g, {ROOT}, op);
    var u;
    L', u := StepAccepted(image, lba, g, {ROOT}, L, op);
    DirsStay(image, lba, g, {ROOT}, op);
    SteppedFacts(image, image', lba, g, {ROOT}, L, L', op, u, ROOT);
    SteppedParts(image, image', lba, g, {ROOT}, L, L', op, u);
    FreshViews(image, lba, g, op, L[ROOT], recs);
    r := u.new_;
    PackedInsert(DirSlots(image, lba, g, L[ROOT]), n, EntryCount(q.name) + 1);
    WithLast(recs, r);
    BalanceSmall(image, lba, g, op, L[ROOT], recs);
    PutPosed(q.name, q.data, q.replace, q.upper);
    MetIs(ListingOf(image, lba, g, {ROOT}, L), ROOT, q);
    FreshIsStore(image, lba, g, ROOT, q, recs, r.alias);
    p, cs := StoreDetails(image, lba, g, fat, L, ROOT, q.name, r.alias, q.data);
    DetailedParts(image, lba, g, fat, L[ROOT], ROOT, q.name, r.alias, q.data, image', p, cs);
    LiveChain(image', lba, g, TableOf(image', lba, g), {ROOT}, L', ROOT);
    PlainParts(q.name);
    SlotsWritten(image, lba, g, fat, L[ROOT], q.name, r.alias, q.data, image', p, cs, recs, n);
    var run := Offsets(lba, g, p.chain)[n..n + EntryCount(q.name) + 1];
    LastIs(recs, r, NewRecord(run, q.name, ShortEntry(r.alias, FirstOf(cs), |q.data|)));
    forall i | 0 <= i < |recs| && !recs[i].IsDirectory()
      ensures ReadRecord(image', lba, g, TableOf(image', lba, g), recs[i]) == ReadRecord(image, lba, g, t, recs[i])
    {
      RemovesNothing(image, lba, g, op, ROOT, recs[i]);
      KeepsAt(image, image', lba, g, {ROOT}, L, L', op, ROOT, recs[i]);
      ShowsReads(image', lba, g, {ROOT}, L', ROOT, recs[i], ReadRecord(image, lba, g, t, recs[i]));
    }
    ShelfShape(image, lba, g, L, recs, n);
    ShelfFrom(image', lba, g, L', recs + [r], n + EntryCount(q.name) + 1);
    ShelvedFrom(image, lba, g, recs, n, op, image', L', r);
    TakenFrom(image, lba, g, fat, L[ROOT], n, op, TableOf(image', lba, g), L'[ROOT], r, p, cs);
  }

  lemma {:induction false} FreshStep(image: seq<byte>, lba: int, g: Geometry, dirs: set<nat>, op: Op)
    requires Fits(g, lba, |image|) && WellPosed(op) && Meets(image, lba, g, op) == None
    ensures GoodStep(image, lba, g, dirs, op)
  {
    hide Meets;
  }

  lemma {:induction false} FreshViews(image: seq<byte>, lba: int, g: Geometry, op: Op, chain: seq<nat>,
                                      recs: seq<Record>)
    requires Fits(g, lba, |image|) && Meets(image, lba, g, op) == None && Target(image, lba, g, op) == Ok(ROOT)
    requires DirChain(TableOf(image, lba, g), g, ROOT) == Ok(chain) && InRange(g, chain)
    requires DirRecords(image, lba, g, TableOf(image, lba, g), ROOT) == Ok(recs)
    ensures OpenSlots(image, lba, g, op) == DirSlots(image, lba, g, chain) && OtherRecords(image, lba, g, op) == recs
    ensures NewAlias(image, lba, g, op) == ChosenAlias(recs, op.q) && Freed(image, lba, g, op) == 0
  {
    hide Meets, Target, DirChain, DirRecords, DirSlots, ChosenAlias, TableOf;
  }

  lemma {:induction false} WithLast(recs: seq<Record>, r: Record)
    ensures With(recs, |recs|, r) == recs + [r]
  {
  }

  lemma {:induction false} BalanceSmall(image: seq<byte>, lba: int, g: Geometry, op: Op, chain: seq<nat>,
                                        recs: seq<Record>)
    requires Fits(g, lba, |image|) && WellPosed(op) && g.BlockSlots() == 64 && g.BlockBytes() == 2048
    requires EntryCount(op.q.name) <= 20 && |op.q.data| <= 2048 && Freed(image, lba, g, op) == 0
    ensures Balance(image, lba, g, op) >= -2
  {
    hide Freed, OpenSlots, Extension, Apply, EntryCount;
    ExtensionSmall(OpenSlots(image, lba, g, op), EntryCount(op.q.name) + 1, g.BlockSlots());
    NeededOne(op.q.data, g);
  }

  lemma {:induction false} DetailedParts(image: seq<byte>, lba: int, g: Geometry, fat: seq<byte>, chain: seq<nat>,
                                         d: nat, name: Name, alias: seq<byte>, data: seq<byte>, image': seq<byte>,
                                         p: Placement, cs: seq<nat>)
    requires Fits(g, lba, |image|) && |image'| == |image| && |fat| == g.FatBytes() && chain != [] && InRange(g, chain)
    requires |p.image| == |image| && |p.fat| == |fat| && InRange(g, p.chain)
    requires Detailed(image, lba, g, fat, chain, d, name, alias, data, image', p, cs)
    ensures p == Place(image, lba, g, fat, chain, EntryCount(name) + 1) && p.ok
    ensures g.Top() <= |Table(p.fat)| && Allocate(Table(p.fat), Needed(|data|, g.BlockBytes()), g.Top()) == Some(cs)
    ensures 1 <= EntryCount(name) <= 20 && |alias| == 11 && |data| < 0x1_0000_0000
    ensures Table(FatImage(image', lba, g)) == Link(Table(p.fat), cs, |cs|, EOF)
    ensures g.Top() <= |Table(FatImage(image', lba, g))|
    ensures DirChain(Table(FatImage(image', lba, g)), g, d) == Ok(p.chain)
    ensures var run, raws := Offsets(lba, g, p.chain)[p.start..p.start + EntryCount(name) + 1],
                             NewEntries(name, ShortEntry(alias, FirstOf(cs), |data|));
            DirSlots(image', lba, g, p.chain)
            == DirSlots(p.image, lba, g, p.chain)[..p.start] + SlotsOf(run, raws)
               + DirSlots(p.image, lba, g, p.chain)[p.start + |run|..]
  {
    hide Fits, InRange, Place, Table, FatImage, Link, DirChain, Offsets, NewEntries, ShortEntry, DirSlots, SlotsOf,
         Allocate, Needed, EntryCount;
  }

  /** The entries written, the records they make, and where the new one lies. */
  lemma {:induction false} SlotsWritten(image: seq<byte>, lba: int, g: Geometry, fat: seq<byte>, chain: seq<nat>,
                                        name: Name, alias: seq<byte>, data: seq<byte>, image': seq<byte>, p: Placement,
                                        cs: seq<nat>, recs: seq<Record>, n: nat)
    requires Fits(g, lba, |image|) && |image'| == |image| && |fat| == g.FatBytes() && chain != [] && InRange(g, chain)
    requires |p.image| == |image| && |p.fat| == |fat| && InRange(g, p.chain) && g.Top() <= EOF
    requires IsChain(Table(fat), chain, g.Top(), EOF) && TailZero(DirSlots(image, lba, g, chain))
    requires Records(DirSlots(image, lba, g, chain)) == recs && Packed(DirSlots(image, lba, g, chain), n)
    requires Detailed(image, lba, g, fat, chain, ROOT, name, alias, data, image', p, cs) && g.BlockSlots() == 64
    requires Decodable(name) && Trim(name) == name && name != [] && |alias| == 11 && alias[0] !in {0, DELETED}
    ensures 1 <= EntryCount(name) <= 20 && |data| < 0x1_0000_0000 && p.start == n && p.ok
    ensures n + EntryCount(name) + 1 <= |Offsets(lba, g, p.chain)|
    ensures var run, short := Offsets(lba, g, p.chain)[n..n + EntryCount(name) + 1],
                              ShortEntry(alias, FirstOf(cs), |data|);
            && Packed(DirSlots(image', lba, g, p.chain), n + EntryCount(name) + 1)
            && Records(DirSlots(image', lba, g, p.chain)) == recs + [NewRecord(run, name, short)]
            && NewRecord(run, name, short).lfnStart == Offsets(lba, g, p.chain)[n]
            && NewRecord(run, name, short).offset == Offsets(lba, g, p.chain)[n + EntryCount(name)]
            && NewRecord(run, name, short).cluster == FirstOf(cs)
  {
    hide *;
    FitsBasics(g, lba, |image|);
    DetailedParts(image, lba, g, fat, chain, ROOT, name, alias, data, image', p, cs);
    var req := EntryCount(name) + 1;
    PlacePacked(image, lba, g, fat, chain, req, n);
    PlaceCorrect(image, lba, g, fat, chain, req);
    PlacedParts(image, lba, g, fat, chain, req, p);
    var slots, news := DirSlots(p.image, lba, g, p.chain), DirSlots(image', lba, g, p.chain);
    ReadyParts(slots, n, req);
    FirstInRange(Table(p.fat), g, Needed(|data|, g.BlockBytes()), cs);
    var run, short := Offsets(lba, g, p.chain)[n..n + req], ShortEntry(alias, FirstOf(cs), |data|);
    NewRecordPlace(run, name, alias, FirstOf(cs), |data|);
    PackedWritten(slots, news, n, run, name, short);
    PackedRecords(slots, news, n, run, name, short);
  }

  lemma {:induction false} ReadyParts(slots: seq<Slot>, start: nat, req: nat)
    requires Shaped(slots) && Ready(slots, slots, start, req)
    ensures start + req <= |slots| && AllFree(slots[start..start + req]) && NoEnd(slots[..start]) && TailZero(slots)
  {
  }

  lemma {:induction false} FirstInRange(t: seq<nat>, g: Geometry, count: nat, cs: seq<nat>)
    requires g.Top() <= |t| && g.Top() <= EOF && Allocate(t, count, g.Top()) == Some(cs)
    ensures FirstOf(cs) < 0x1_0000_0000
  {
  }

  lemma {:induction false} LastIs(recs: seq<Record>, r: Record, x: Record)
    requires recs + [r] == recs + [x]
    ensures r == x
  {
    assert (recs + [r])[|recs|] == (recs + [x])[|recs|];
  }

  lemma {:induction false} RemovesNothing(image: seq<byte>, lba: int, g: Geometry, op: Op, e: nat, r: Record)
    requires Fits(g, lba, |image|) && Meets(image, lba, g, op) == None
    ensures !Removes(image, lba, g, op, e, r)
  {
    hide Meets;
  }

  lemma {:induction false} ShelfShape(image: seq<byte>, lba: int, g: Geometry, L: Layout, recs: seq<Record>, n: nat)
    requires Shelf(image, lba, g, L, recs, n)
    ensures g.spc == 4
  {
    hide Volume, ListingOf, Packed, ReadGeometry;
  }

  lemma {:induction false} ShelfFrom(image: seq<byte>, lba: int, g: Geometry, L: Layout, recs: seq<Record>, n: nat)
    requires ReadGeometry(image, lba) == Ok(g) && g.spc == 4 && Volume(image, lba, g, {ROOT}, L) && DirsIn(g, {ROOT}, L)
    requires ListingOf(image, lba, g, {ROOT}, L)[ROOT] == recs && InRange(g, L[ROOT])
    requires Packed(DirSlots(image, lba, g, L[ROOT]), n)
    ensures Shelf(image, lba, g, L, recs, n)
  {
    hide Volume, ListingOf, Packed, ReadGeometry, DirSlots;
  }

  lemma {:induction false} ShelvedFrom(image: seq<byte>, lba: int, g: Geometry, recs: seq<Record>, n: nat, op: Op,
                                       image': seq<byte>, L': Layout, r: Record)
    requires Fits(g, lba, |image|) && |image'| == |image|
    requires Shelf(image', lba, g, L', recs + [r], n + EntryCount(op.q.name) + 1)
    requires Describes(r, op.q.name, r.alias, r.cluster, |op.q.data|) && ChosenAlias(recs, op.q) == Some(r.alias)
    requires ReadRecord(image', lba, g, TableOf(image', lba, g), r) == Ok(op.q.data)
    requires forall i :: 0 <= i < |recs| && !recs[i].IsDirectory() ==>
               ReadRecord(image', lba, g, TableOf(image', lba, g), recs[i])
               == ReadRecord(image, lba, g, TableOf(image, lba, g), recs[i])
    requires FreeClusters(image', lba, g) >= FreeClusters(image, lba, g) - 2
    ensures Shelved(image, lba, g, recs, n, op, image', L', r)
  {
    hide Shelf, Describes, ChosenAlias, ReadRecord, TableOf, FreeClusters, Fits, EntryCount;
  }

  lemma {:induction false} TakenFrom(image: seq<byte>, lba: int, g: Geometry, fat: seq<byte>, chain: seq<nat>, n: nat,
                                     op: Op, t': seq<nat>, chain': seq<nat>, r: Record, p: Placement, cs: seq<nat>)
    requires Fits(g, lba, |image|) && |fat| == g.FatBytes() && chain != [] && InRange(g, chain) && g.BlockBytes() > 0
    requires InRange(g, p.chain) && |p.fat| == |fat| && g.Top() <= |Table(p.fat)|
    requires chain' == p.chain && p.ok && p.start == n
    requires p == Place(image, lba, g, fat, chain, EntryCount(op.q.name) + 1)
    requires Allocate(Table(p.fat), Needed(|op.q.data|, g.BlockBytes()), g.Top()) == Some(cs)
    requires t' == Link(Table(p.fat), cs, |cs|, EOF)
    requires r.cluster == FirstOf(cs) && n + EntryCount(op.q.name) < |Offsets(lba, g, p.chain)|
    requires r.lfnStart == Offsets(lba, g, p.chain)[n]
    requires r.offset == Offsets(lba, g, p.chain)[n + EntryCount(op.q.name)]
    ensures Taken(image, lba, g, fat, chain, n, op, t', chain', r, p, cs)
  {
    hide Fits, InRange, Place, Table, Allocate, Needed, Link, Offsets, EntryCount;
  }

  // ----- a captured name -----

  /** LONGFILENAME.TXT, the upper-cased long name. */
  const LONG_STEM: Name := [0x4C, 0x4F, 0x4E, 0x47, 0x46, 0x49, 0x4C, 0x45, 0x4E, 0x41, 0x4D, 0x45]
  const TXT: Name := [0x54, 0x58, 0x54]
  const LONG_FILE_UPPER: Name := LONG_STEM + [0x2E] + TXT

  lemma {:induction false} KeepAll(s: Name)
    requires AllStem(s)
    ensures Keep(s) == s
  {
    if s != [] {
      assert AllStem(s[1..]);
      KeepAll(s[1..]);
    }
  }

  lemma {:induction false} LastDotAt(stem: Name, extension: Name)
    requires 0x2E !in extension
    ensures LastDot(stem + [0x2E] + extension) == |stem|
    decreases |extension|
  {
    var s := stem + [0x2E] + extension;
    if extension != [] {
      var front := extension[..|extension| - 1];
      assert s[|s| - 1] == extension[|extension| - 1] && s[..|s| - 1] == stem + [0x2E] + front;
      LastDotAt(stem, front);
    }
  }

  lemma {:induction false} UpperParts(upper: Name)
    requires upper == LONG_FILE_UPPER
    ensures StemOf(upper) == LONG_STEM && ExtensionOf(upper) == TXT && NameTo83(upper) == None
  {
    hide LastDot, Keep;
    LastDotAt(LONG_STEM, TXT);
    assert |LONG_STEM| == 12 && upper[..12] == LONG_STEM && upper[13..] == TXT;
    KeepAll(LONG_STEM);
    KeepAll(TXT);
  }

  lemma {:induction false} LongAlias(q: Request)
    requires q.fatName == [] && q.upper(q.name) == LONG_FILE_UPPER
    ensures ChosenAlias([], q) == Some(LONG_FILE_ALIAS)
  {
    UpperParts(LONG_FILE_UPPER);
    FirstNumber(LONG_STEM, TXT);
    hide LastDot, Keep, NameTo83, NumberedAlias, StemOf, ExtensionOf, FirstFree, LONG_STEM, TXT, LONG_FILE_ALIAS,
         LONG_FILE_UPPER;
    assert AliasesOf([]) == {};
  }

  lemma {:induction false} FirstNumber(stem: Name, extension: Name)
    requires stem == LONG_STEM && extension == TXT
    ensures FirstFree(stem, extension, {}, 1) == Some(LONG_FILE_ALIAS)
  {
    assert stem[..6] == [0x4C, 0x4F, 0x4E, 0x47, 0x46, 0x49];
    assert NumberedAlias(stem, extension, 1) == LONG_FILE_ALIAS;
  }

  lemma {:induction false} AsciiPlain(name: Name)
    requires forall i :: 0 <= i < |name| ==> 0 < name[i] < 0x80
    ensures Utf8Length(name) == |name| && Decodable(name) && Trim(name) == name
    decreases |name|
  {
    if name != [] { AsciiPlain(name[1..]); }
    assert name != [] ==> name[|name| - 1] !in {0, 0xFFFF};
  }

  lemma {:induction false} PlainName(name: Name)
    requires 1 <= |name| <= 255 && forall i :: 0 <= i < |name| ==> 0 < name[i] < 0x80 && name[i] !in {SLASH, BACKSLASH}
    ensures Plain(name)
  {
    hide Utf8Length, Decodable, Trim;
    AsciiPlain(name);
  }

  /** A newly formatted volume is a shelf with one entry, its label, in use. */
  lemma {:induction false} BlankShelf(image: seq<byte>, p: Formatting.Plan, blank: seq<byte>, g: Geometry)
    requires Formatting.Blank(image, p, blank, g)
    ensures Fits(g, p.lba, |blank|) && Shelf(blank, p.lba, g, Formatting.ROOT_ONLY, [], 1)
    ensures FreeClusters(blank, p.lba, g) >= 65000 && Formatting.ROOT_ONLY[ROOT] == [ROOT]
  {
    hide Volume, ReadGeometry, DirSlots, Fits, Formatting.Blank, ListingOf, DirsIn, FreeClusters;
    Formatting.BlankVolume(image, p, blank, g);
    ManyClusters(image, p, blank, g);
    assert Packed(DirSlots(blank, p.lba, g, [ROOT]), 1);
    hide Formatting.LabelOnly, Packed;
    ShelfFrom(blank, p.lba, g, Formatting.ROOT_ONLY, [], 1);
  }

  lemma {:induction false} ManyClusters(image: seq<byte>, p: Formatting.Plan, blank: seq<byte>, g: Geometry)
    requires Formatting.Blank(image, p, blank, g)
    ensures p.Clusters() >= 65525
  {
    hide Formatting.Format, ReadGeometry, Formatting.ClearRoot;
  }

  /** Reading a name in the root. */
  lemma {:induction false} RootReads(image: seq<byte>, lba: int, g: Geometry, recs: seq<Record>, name: Name, i: nat)
    requires ReadGeometry(image, lba) == Ok(g) && Fits(g, lba, |image|) && Plain(name)
    requires DirRecords(image, lba, g, TableOf(image, lba, g), ROOT) == Ok(recs)
    requires i < |recs| && Answers(recs[i], name) && (forall j :: 0 <= j < i ==> !Answers(recs[j], name))
    requires !recs[i].IsDirectory()
    ensures ReadFile(image, lba, name) == ReadRecord(image, lba, g, TableOf(image, lba, g), recs[i])
  {
    hide *;
    PutPosed(name, [], false, x => x);
    PlainParts(name);
    PlainNoSlash(name);
    PlainPath(name);
    RootResolves(image, lba, g);
    ReadFileUnfold(image, lba, g, name, ROOT);
    ReadInAmong(image, lba, g, TableOf(image, lba, g), ROOT, recs, name);
    AmongAt(image, lba, g, TableOf(image, lba, g), recs, name, i);
  }

  lemma {:induction false} PlainNoSlash(name: Name)
    requires Plain(name)
    ensures name != [] && SLASH !in name && BACKSLASH !in name
  {
    hide Decodable, Trim, Utf8Length;
  }

  lemma {:induction false} RootResolves(image: seq<byte>, lba: int, g: Geometry)
    requires Fits(g, lba, |image|)
    ensures Resolve(image, lba, g, TableOf(image, lba, g), [], ROOT) == Ok(ROOT)
  {
  }

  lemma {:induction false} OneRun(image: seq<byte>, lba: int, a: Op)
    requires WellPosed(a)
    ensures AllWellPosed([a]) && RunAll(image, lba, [a]) == Apply(image, lba, a).image
  {
    hide Apply, WellPosed;
    assert [a][..0] == [] && [a][0] == a;
    assert RunAll(image, lba, []) == image;
  }

  lemma {:induction false} TwoRun(image: seq<byte>, lba: int, a: Op, b: Op)
    requires WellPosed(a) && WellPosed(b)
    ensures AllWellPosed([a, b]) && RunAll(image, lba, [a, b]) == Apply(Apply(image, lba, a).image, lba, b).image
  {
    hide Apply, WellPosed;
    OneRun(image, lba, a);
    assert [a, b][..1] == [a] && [a, b][1] == b;
  }

  lemma {:induction false} CapturedNames(r: Record)
    requires r.name == LONG_FILE_NAME && r.alias == LONG_FILE_ALIAS
    ensures !NameEqual(r.name, ALIAS_AS_NAME) && Answers(r, ALIAS_AS_NAME)
  {
    AliasAnswers(r, Request(ALIAS_AS_NAME, [], [], false, x => x));
  }

  /** A captured name, from a new volume on: longfilename.txt and then LONGFI~1.TXT are injected, both are accepted as
      new names, and reading LONGFI~1.TXT gives the first file. */
  lemma {:induction false} CaptureHappens(image: seq<byte>, p: Formatting.Plan, blank: seq<byte>, g: Geometry,
                                          upper: Name -> Name, a: byte, b: byte)
    requires Formatting.Blank(image, p, blank, g) && upper(LONG_FILE_NAME) == LONG_FILE_UPPER
    ensures var first, second := Put(LONG_FILE_NAME, [a], false, upper), Put(ALIAS_AS_NAME, [b], false, upper);
            && WellPosed(first) && WellPosed(second) && AllWellPosed([first, second])
            && Apply(blank, p.lba, first).error == None
            && Apply(Apply(blank, p.lba, first).image, p.lba, second).error == None
            && ReadFile(RunAll(blank, p.lba, [first, second]), p.lba, ALIAS_AS_NAME) == Ok([a])
  {
    hide *;
    CaptureNames();
    PutIs(LONG_FILE_NAME, [a], false, upper);
    PutIs(ALIAS_AS_NAME, [b], false, upper);
    var lba := p.lba;
    var first, second := Put(LONG_FILE_NAME, [a], false, upper), Put(ALIAS_AS_NAME, [b], false, upper);
    LongAlias(first.q);
    BlankShelf(image, p, blank, g);
    var L1, r1, p1, cs1 := ShelfStep(blank, lba, g, Formatting.ROOT_ONLY, [], 1, first);
    var image1 := Apply(blank, lba, first).image;
    ShelvedParts(blank, lba, g, [], 1, first, image1, L1, r1);
    DescribedPlain(r1, LONG_FILE_NAME, r1.alias, r1.cluster, 1);
    CapturedNames(r1);
    var n1 := 1 + EntryCount(LONG_FILE_NAME) + 1;
    assert [] + [r1] == [r1];
    var L2, r2, p2, cs2 := ShelfStep(image1, lba, g, L1, [r1], n1, second);
    var image2 := Apply(image1, lba, second).image;
    ShelvedParts(image1, lba, g, [r1], n1, second, image2, L2, r2);
    TwoRun(blank, lba, first, second);
    assert ([r1] + [r2])[0] == r1;
    ShelfParts(image2, lba, g, L2, [r1] + [r2], n1 + EntryCount(ALIAS_AS_NAME) + 1);
    RootReads(image2, lba, g, [r1] + [r2], ALIAS_AS_NAME, 0);
  }

  lemma {:induction false} CaptureNames()
    ensures Plain(LONG_FILE_NAME) && Plain(ALIAS_AS_NAME)
  {
    hide Plain;
    PlainName(LONG_FILE_NAME);
    PlainName(ALIAS_AS_NAME);
  }

  lemma {:induction false} PutIs(name: Name, data: seq<byte>, replace: bool, upper: Name -> Name)
    ensures var op := Put(name, data, replace, upper);
            && op.q.name == name && op.q.data == data && op.q.replace == replace && op.q.upper == upper
            && op.q.fatName == [] && op.path == name && op == Put(op.q.name, op.q.data, op.q.replace, op.q.upper)
  {
  }

  lemma {:induction false} DescribedPlain(r: Record, name: Name, alias: seq<byte>, first: nat, size: nat)
    requires Describes(r, name, alias, first, size) && Plain(name)
    ensures r.name == name && !r.IsDirectory()
  {
    hide Decodable, Utf8Length, ShortName;
  }

  lemma {:induction false} ShelvedParts(image: seq<byte>, lba: int, g: Geometry, recs: seq<Record>, n: nat, op: Op,
                                        image': seq<byte>, L': Layout, r: Record)
    requires Fits(g, lba, |image|) && |image'| == |image| && Shelved(image, lba, g, recs, n, op, image', L', r)
    ensures Shelf(image', lba, g, L', recs + [r], n + EntryCount(op.q.name) + 1)
    ensures Describes(r, op.q.name, r.alias, r.cluster, |op.q.data|) && ChosenAlias(recs, op.q) == Some(r.alias)
    ensures ReadRecord(image', lba, g, TableOf(image', lba, g), r) == Ok(op.q.data)
    ensures forall i :: 0 <= i < |recs| && !recs[i].IsDirectory() ==>
              ReadRecord(image', lba, g, TableOf(image', lba, g), recs[i])
              == ReadRecord(image, lba, g, TableOf(image, lba, g), recs[i])
    ensures FreeClusters(image', lba, g) >= FreeClusters(image, lba, g) - 2
  {
    hide Shelf, Describes, ChosenAlias, ReadRecord, TableOf, FreeClusters, Fits, EntryCount;
  }

  // ----- a file in a gap -----

  /** A name of 255 equal units. */
  function Long(u: Unit): Name {
    seq(255, _ => u)
  }

  lemma {:induction false} LongPlain(u: Unit)
    requires 0x61 <= u <= 0x7A
    ensures Plain(Long(u)) && EntryCount(Long(u)) == 20
  {
    hide Plain;
    PlainName(Long(u));
  }

  lemma {:induction false} LongDiffer(u: Unit, v: Unit, short: Name)
    requires 0x61 <= u <= 0x7A && 0x61 <= v <= 0x7A && u != v && |short| == 1
    ensures !NameEqual(Long(u), Long(v)) && !NameEqual(short, Long(u)) && NameEqual(Long(u), Long(u))
  {
    assert Long(u)[0] == u && Long(v)[0] == v;
  }

  lemma {:induction false} LowestFree(t: seq<nat>, c: nat, top: nat)
    requires 2 <= c < top <= |t| && t[c] == 0 && (c > 2 ==> t[2] != 0) && (c > 3 ==> t[3] != 0) && c <= 4
    ensures Allocate(t, 1, top) == Some([c])
  {
    assert FreeFrom(t, c, top) == [c] + FreeFrom(t, c + 1, top);
    if c > 2 { assert FreeFrom(t, 2, top) == FreeFrom(t, 3, top); }
    if c > 3 { assert FreeFrom(t, 3, top) == FreeFrom(t, 4, top); }
  }

  lemma {:induction false} NoneTaken(t: seq<nat>, top: nat, cs: seq<nat>)
    requires top <= |t| && Allocate(t, 0, top) == Some(cs)
    ensures cs == [] && Link(t, cs, |cs|, EOF) == t
  {
  }

  lemma {:induction false} OneTaken(t: seq<nat>, c: nat)
    requires c < |t|
    ensures Link(t, [c], 1, EOF) == t[c := EOF]
  {
    assert Link(t, [c], 0, EOF) == t;
  }

  /** While the entries suffice, table and chain change by the data clusters only. */
  lemma {:induction false} TakenStays(image: seq<byte>, lba: int, g: Geometry, fat: seq<byte>, n: nat, op: Op,
                                      t': seq<nat>, chain': seq<nat>, r: Record, p: Placement, cs: seq<nat>)
    requires Fits(g, lba, |image|) && |fat| == g.FatBytes() && InRange(g, [ROOT]) && g.BlockBytes() == 2048
    requires g.BlockSlots() == 64 && g.Top() <= EOF && IsChain(Table(fat), [ROOT], g.Top(), EOF)
    requires Packed(DirSlots(image, lba, g, [ROOT]), n) && |DirSlots(image, lba, g, [ROOT])| == 64
    requires InRange(g, p.chain) && |p.fat| == |fat| && g.Top() <= |Table(p.fat)|
    requires Taken(image, lba, g, fat, [ROOT], n, op, t', chain', r, p, cs)
    requires EntryCount(op.q.name) <= 20 && n + EntryCount(op.q.name) + 1 <= 64
    ensures chain' == [ROOT] && p.fat == fat && r.cluster == FirstOf(cs)
    ensures Allocate(Table(p.fat), Needed(|op.q.data|, g.BlockBytes()), g.Top()) == Some(cs)
    ensures t' == Link(Table(p.fat), cs, |cs|, EOF)
  {
    hide *;
    TakenParts(image, lba, g, fat, [ROOT], n, op, t', chain', r, p, cs);
    PlacePacked(image, lba, g, fat, [ROOT], EntryCount(op.q.name) + 1, n);
  }

  lemma {:induction false} TakenParts(image: seq<byte>, lba: int, g: Geometry, fat: seq<byte>, chain: seq<nat>, n: nat,
                                      op: Op, t': seq<nat>, chain': seq<nat>, r: Record, p: Placement, cs: seq<nat>)
    requires Fits(g, lba, |image|) && |fat| == g.FatBytes() && chain != [] && InRange(g, chain) && g.BlockBytes() > 0
    requires InRange(g, p.chain) && |p.fat| == |fat| && g.Top() <= |Table(p.fat)|
    requires Taken(image, lba, g, fat, chain, n, op, t', chain', r, p, cs)
    ensures chain' == p.chain && p.ok && p.start == n
    ensures p == Place(image, lba, g, fat, chain, EntryCount(op.q.name) + 1)
    ensures Allocate(Table(p.fat), Needed(|op.q.data|, g.BlockBytes()), g.Top()) == Some(cs)
    ensures t' == Link(Table(p.fat), cs, |cs|, EOF)
    ensures r.cluster == FirstOf(cs) && lba >= 0 && n + EntryCount(op.q.name) < |Offsets(lba, g, p.chain)|
    ensures r.lfnStart == Offsets(lba, g, p.chain)[n] && r.offset == Offsets(lba, g, p.chain)[n + EntryCount(op.q.name)]
  {
    hide Fits, InRange, Place, Table, Allocate, Needed, Link, Offsets, EntryCount;
    FitsBasics(g, lba, |image|);
  }

  /** An empty file with a long name, while the entries suffice: one record more on the same chains. */
  lemma {:induction false} EmptyPut(image: seq<byte>, lba: int, g: Geometry, L: Layout, recs: seq<Record>, n: nat,
                                    u: Unit, upper: Name -> Name) returns (L': Layout, r: Record)
    requires Shelf(image, lba, g, L, recs, n) && Fits(g, lba, |image|) && |recs| <= 3
    requires FreeClusters(image, lba, g) >= 2
    requires ROOT in L && L[ROOT] == [ROOT] && n + 21 <= 64 && 0x61 <= u <= 0x7A
    requires forall i :: 0 <= i < |recs| ==> !NameEqual(recs[i].name, Long(u))
    ensures var op := Put(Long(u), [], false, upper);
            && WellPosed(op) && Apply(image, lba, op).error == None && |Apply(image, lba, op).image| == |image|
            && var image' := Apply(image, lba, op).image;
            && Shelf(image', lba, g, L', recs + [r], n + 21) && ROOT in L' && L'[ROOT] == [ROOT]
            && TableOf(image', lba, g) == TableOf(image, lba, g) && r.name == Long(u) && !r.IsDirectory()
            && (forall i :: 0 <= i < |recs| && !recs[i].IsDirectory() ==>
                  ReadRecord(image', lba, g, TableOf(image', lba, g), recs[i])
                  == ReadRecord(image, lba, g, TableOf(image, lba, g), recs[i]))
            && FreeClusters(image', lba, g) >= FreeClusters(image, lba, g) - 2
  {
    hide *;
    var op := Put(Long(u), [], false, upper);
    PutIs(Long(u), [], false, upper);
    LongPlain(u);
    var p, cs;
    L', r, p, cs := ShelfStep(image, lba, g, L, recs, n, op);
    var image' := Apply(image, lba, op).image;
    ShelvedParts(image, lba, g, recs, n, op, image', L', r);
    ShelfParts(image, lba, g, L, recs, n);
    ShelfShape(image, lba, g, L, recs, n);
    Formatting.RootShape(image, lba, g);
    TableIs(image, lba, g);
    TakenStays(image, lba, g, FatImage(image, lba, g), n, op, TableOf(image', lba, g), L'[ROOT], r, p, cs);
    NeededOne([], g);
    NoneTaken(TableOf(image, lba, g), g.Top(), cs);
    DescribedPlain(r, Long(u), r.alias, r.cluster, 0);
  }

  /** The short name of the file in the gap. */
  const SHORT: Name := [0x78]

  lemma {:induction false} ShortPlain()
    ensures Plain(SHORT) && EntryCount(SHORT) == 1 && |SHORT| == 1
  {
    hide Plain;
    PlainName(SHORT);
  }

  /** The root and one file in the cluster behind it, under a table that has the other clusters free. */
  ghost predicate Neighbours(t: seq<nat>, top: nat) {
    5 <= top <= |t| && t[2] == EOF && t[3] == EOF && t[4] == 0
  }

  lemma {:induction false} FirstPut(image: seq<byte>, p: Formatting.Plan, blank: seq<byte>, g: Geometry, b: byte,
                                    upper: Name -> Name) returns (L': Layout, r: Record)
    requires Formatting.Blank(image, p, blank, g)
    ensures var lba, op := p.lba, Put(SHORT, [b], false, upper);
            && WellPosed(op) && Apply(blank, lba, op).error == None && |Apply(blank, lba, op).image| == |blank|
            && var image' := Apply(blank, lba, op).image;
            && Fits(g, lba, |image'|) && Shelf(image', lba, g, L', [r], 3) && ROOT in L' && L'[ROOT] == [ROOT]
            && Neighbours(TableOf(image', lba, g), g.Top()) && r.name == SHORT && !r.IsDirectory() && r.cluster == 3
            && ReadRecord(image', lba, g, TableOf(image', lba, g), r) == Ok([b])
            && FreeClusters(image', lba, g) >= 64998
  {
    hide *;
    var lba, op := p.lba, Put(SHORT, [b], false, upper);
    PutIs(SHORT, [b], false, upper);
    ShortPlain();
    BlankShelf(image, p, blank, g);
    Formatting.BlankTable(image, p, blank, g);
    FitsBasics(g, lba, |blank|);
    var L0 := Formatting.ROOT_ONLY;
    var pl, cs;
    L', r, pl, cs := ShelfStep(blank, lba, g, L0, [], 1, op);
    var image' := Apply(blank, lba, op).image;
    ShelvedParts(blank, lba, g, [], 1, op, image', L', r);
    assert [] + [r] == [r];
    ShelfParts(blank, lba, g, L0, [], 1);
    ShelfShape(blank, lba, g, L0, [], 1);
    Formatting.RootShape(blank, lba, g);
    TableIs(blank, lba, g);
    TakenStays(blank, lba, g, FatImage(blank, lba, g), 1, op, TableOf(image', lba, g), L'[ROOT], r, pl, cs);
    NeededOne([b], g);
    ThirdTaken(TableOf(blank, lba, g), g, lba, |blank|, cs);
    DescribedPlain(r, SHORT, r.alias, r.cluster, 1);
  }

  lemma {:induction false} ThirdTaken(t: seq<nat>, g: Geometry, lba: int, len: nat, cs: seq<nat>)
    requires Fits(g, lba, len) && g.Top() <= |t| && Formatting.OnlyRoot(t) && Allocate(t, 1, g.Top()) == Some(cs)
    ensures FirstOf(cs) == 3 && Neighbours(Link(t, cs, |cs|, EOF), g.Top())
  {
    hide Allocate, Link;
    LowestFree(t, 3, g.Top());
    OneTaken(t, 3);
  }

  /** Every operation of the run is accepted at the image it meets. */
  ghost predicate AllAccepted(image: seq<byte>, lba: int, ops: seq<Op>)
    requires AllWellPosed(ops)
  {
    forall i :: 0 <= i < |ops| ==> Apply(RunAll(image, lba, ops[..i]), lba, ops[i]).error == None
  }

  lemma {:induction false} RunSnoc(image: seq<byte>, lba: int, ops: seq<Op>, op: Op)
    requires AllWellPosed(ops) && WellPosed(op)
    ensures AllWellPosed(ops + [op]) && RunAll(image, lba, ops + [op]) == Apply(RunAll(image, lba, ops), lba, op).image
    ensures AllAccepted(image, lba, ops) && Apply(RunAll(image, lba, ops), lba, op).error == None ==>
              AllAccepted(image, lba, ops + [op])
  {
    hide Apply, WellPosed;
    var all := ops + [op];
    assert all[..|ops|] == ops && all[|ops|] == op;
    assert forall i :: 0 <= i < |ops| ==> all[..i] == ops[..i] && all[i] == ops[i];
  }

  lemma {:induction false} RunEmpty(image: seq<byte>, lba: int)
    ensures AllWellPosed([]) && RunAll(image, lba, []) == image && AllAccepted(image, lba, [])
  {
  }

  /** The records are files with these names, in order. */
  ghost predicate Gathered(recs: seq<Record>, names: seq<Name>) {
    |recs| == |names| && forall i :: 0 <= i < |recs| ==> recs[i].name == names[i] && !recs[i].IsDirectory()
  }

  lemma {:induction false} GatheredMore(recs: seq<Record>, names: seq<Name>, r: Record, name: Name)
    requires Gathered(recs, names) && r.name == name && !r.IsDirectory()
    ensures Gathered(recs + [r], names + [name])
  {
  }

  lemma {:induction false} GatheredOne(r: Record)
    requires !r.IsDirectory()
    ensures Gathered([r], [r.name])
  {
  }

  /** A file of one byte, three empty files with long names, and the third of these again. */
  function GapOps(b: byte, upper: Name -> Name): seq<Op> {
    [Put(SHORT, [b], false, upper)] + [Put(Long(0x61), [], false, upper)] + [Put(Long(0x62), [], false, upper)]
    + [Put(Long(0x63), [], false, upper)] + [Put(Long(0x63), [], true, upper)]
  }

  /** The shelf before the growth: 45 of the root's 64 entries are in use. */
  lemma {:induction false} ThreePuts(image: seq<byte>, p: Formatting.Plan, blank: seq<byte>, g: Geometry, b: byte,
                                     upper: Name -> Name) returns (L': Layout, recs: seq<Record>)
    requires Formatting.Blank(image, p, blank, g)
    ensures var ops := [Put(SHORT, [b], false, upper)] + [Put(Long(0x61), [], false, upper)]
                       + [Put(Long(0x62), [], false, upper)];
            && AllWellPosed(ops) && AllAccepted(blank, p.lba, ops)
            && var image' := RunAll(blank, p.lba, ops);
            && Fits(g, p.lba, |image'|) && Shelf(image', p.lba, g, L', recs, 45) && ROOT in L' && L'[ROOT] == [ROOT]
            && Neighbours(TableOf(image', p.lba, g), g.Top())
            && Gathered(recs, [SHORT] + [Long(0x61)] + [Long(0x62)]) && |recs| == 3 && recs[0].cluster == 3
            && ReadRecord(image', p.lba, g, TableOf(image', p.lba, g), recs[0]) == Ok([b])
            && FreeClusters(image', p.lba, g) >= 64000
  {
    hide *;
    var lba := p.lba;
    var o1, o2 := Put(SHORT, [b], false, upper), Put(Long(0x61), [], false, upper);
    var o3 := Put(Long(0x62), [], false, upper);
    ShortPlain();
    LongDiffer(0x61, 0x62, SHORT);
    LongDiffer(0x62, 0x61, SHORT);
    RunEmpty(blank, lba);
    var L1, r1 := FirstPut(image, p, blank, g, b, upper);
    RunSnoc(blank, lba, [], o1);
    assert [] + [o1] == [o1];
    var image1 := RunAll(blank, lba, [o1]);
    var L2, r2 := EmptyPut(image1, lba, g, L1, [r1], 3, 0x61, upper);
    RunSnoc(blank, lba, [o1], o2);
    var image2 := RunAll(blank, lba, [o1] + [o2]);
    assert [r1][0] == r1 && ([r1] + [r2])[0] == r1 && ([r1] + [r2])[1] == r2;
    var L3, r3 := EmptyPut(image2, lba, g, L2, [r1] + [r2], 24, 0x62, upper);
    RunSnoc(blank, lba, [o1] + [o2], o3);
    L', recs := L3, [r1] + [r2] + [r3];
    GatheredOne(r1);
    GatheredMore([r1], [SHORT], r2, Long(0x61));
    GatheredMore([r1] + [r2], [SHORT] + [Long(0x61)], r3, Long(0x62));
  }

  lemma {:induction false} NamesDiffer(recs: seq<Record>)
    requires Gathered(recs, [SHORT] + [Long(0x61)] + [Long(0x62)])
    ensures |recs| == 3 && forall i :: 0 <= i < |recs| ==> !NameEqual(recs[i].name, Long(0x63))
  {
    hide NameEqual, Long;
    var names := [SHORT] + [Long(0x61)] + [Long(0x62)];
    assert names[0] == SHORT && names[1] == Long(0x61) && names[2] == Long(0x62);
    LongDiffer(0x61, 0x63, SHORT);
    LongDiffer(0x62, 0x63, SHORT);
    LongDiffer(0x63, 0x61, SHORT);
  }

  /** The fourth file does not fit the root's cluster: the root grows to cluster 4 and the record spans both. */
  lemma {:induction false} FourthPut(image: seq<byte>, lba: int, g: Geometry, L: Layout, recs: seq<Record>,
                                     upper: Name -> Name) returns (L': Layout, r: Record)
    requires Shelf(image, lba, g, L, recs, 45) && Fits(g, lba, |image|) && FreeClusters(image, lba, g) >= 2
    requires ROOT in L && L[ROOT] == [ROOT] && Neighbours(TableOf(image, lba, g), g.Top())
    requires Gathered(recs, [SHORT] + [Long(0x61)] + [Long(0x62)]) && lba >= 0
    ensures InRange(g, [ROOT, 4]) && 65 < |Offsets(lba, g, [ROOT, 4])|
    ensures var op := Put(Long(0x63), [], false, upper);
            && WellPosed(op) && Apply(image, lba, op).error == None && |Apply(image, lba, op).image| == |image|
            && var image' := Apply(image, lba, op).image;
            && Shelf(image', lba, g, L', recs + [r], 66) && ROOT in L' && L'[ROOT] == [ROOT, 4]
            && 5 <= g.Top() <= |TableOf(image', lba, g)| && TableOf(image', lba, g)[3] == EOF
            && r.name == Long(0x63) && !r.IsDirectory() && r.cluster == 0
            && r.lfnStart == Offsets(lba, g, [ROOT, 4])[45] && r.offset == Offsets(lba, g, [ROOT, 4])[65]
            && (forall i :: 0 <= i < |recs| && !recs[i].IsDirectory() ==>
                  ReadRecord(image', lba, g, TableOf(image', lba, g), recs[i])
                  == ReadRecord(image, lba, g, TableOf(image, lba, g), recs[i]))
            && FreeClusters(image', lba, g) >= FreeClusters(image, lba, g) - 2
  {
    hide *;
    var op, fat := Put(Long(0x63), [], false, upper), FatImage(image, lba, g);
    PutIs(Long(0x63), [], false, upper);
    LongPlain(0x63);
    NamesDiffer(recs);
    var p, cs;
    L', r, p, cs := ShelfStep(image, lba, g, L, recs, 45, op);
    var image' := Apply(image, lba, op).image;
    ShelvedParts(image, lba, g, recs, 45, op, image', L', r);
    ShelfParts(image, lba, g, L, recs, 45);
    ShelfShape(image, lba, g, L, recs, 45);
    Formatting.RootShape(image, lba, g);
    TableIs(image, lba, g);
    TakenParts(image, lba, g, fat, L[ROOT], 45, op, TableOf(image', lba, g), L'[ROOT], r, p, cs);
    PlacePacked(image, lba, g, fat, L[ROOT], 21, 45);
    NeededOne([], g);
    NoneTaken(Table(p.fat), g.Top(), cs);
    FourthTaken(TableOf(image, lba, g), g.Top(), p.chain, Table(p.fat));
    DescribedPlain(r, Long(0x63), r.alias, r.cluster, 0);
    EmptyFirst();
  }

  lemma {:induction false} EmptyFirst()
    ensures FirstOf([]) == 0
  {
  }

  lemma {:induction false} FourthTaken(t: seq<nat>, top: nat, chain: seq<nat>, t': seq<nat>)
    requires Neighbours(t, top) && Allocate(t, 1, top).Some?
    requires var c := Allocate(t, 1, top).value[0];
             chain == [ROOT] + [c] && t' == t[[ROOT][|[ROOT]| - 1] := c][c := EOF]
    ensures chain == [ROOT, 4] && 5 <= top <= |t'| && t'[3] == EOF
  {
    hide Allocate;
    LowestFree(t, 4, top);
  }

  /** Where the entries 45 and 65 of a root in clusters 2 and 4 lie. */
  lemma {:induction false} SpanPlaces(lba: int, g: Geometry)
    requires lba >= 0 && InRange(g, [ROOT, 4]) && g.BlockSlots() == 64 && g.BlockBytes() == 2048
    requires 65 < |Offsets(lba, g, [ROOT, 4])|
    ensures InBlock(lba, g, ROOT, Offsets(lba, g, [ROOT, 4])[45]) && InBlock(lba, g, 4, Offsets(lba, g, [ROOT, 4])[65])
  {
    hide BlockOffset, Offsets;
    var chain: seq<nat> := [ROOT, 4];
    assert chain[..0] == [] && chain[..1] == [ROOT];
    NoOffsets(lba, g);
    OffsetsAt(lba, g, chain, 0, 45);
    OffsetsAt(lba, g, chain, 1, 1);
  }

  lemma {:induction false} NoOffsets(lba: int, g: Geometry)
    requires lba >= 0
    ensures InRange(g, []) && Offsets(lba, g, []) == []
  {
  }

  /** The entries of a root in clusters 2 and 4. */
  lemma {:induction false} SpanOffset(lba: int, g: Geometry, i: nat)
    requires lba >= 0 && InRange(g, [ROOT, 4]) && g.BlockSlots() == 64 && g.BlockBytes() == 2048 && i < 128
    ensures |Offsets(lba, g, [ROOT, 4])| == 128
    ensures Offsets(lba, g, [ROOT, 4])[i]
            == if i < 64 then BlockOffset(lba, g, ROOT) + 32 * i else BlockOffset(lba, g, 4) + 32 * (i - 64)
  {
    hide BlockOffset, Offsets;
    var chain: seq<nat> := [ROOT, 4];
    assert chain[..0] == [] && chain[..1] == [ROOT] && chain[..2] == chain;
    NoOffsets(lba, g);
    OffsetsAt(lba, g, chain, 0, if i < 64 then i else 0);
    OffsetsAt(lba, g, chain, 1, if i < 64 then 0 else i - 64);
  }

  lemma {:induction false} SpanRun(lba: int, g: Geometry, x: nat)
    requires lba >= 0 && InRange(g, [ROOT, 4]) && g.BlockSlots() == 64 && g.BlockBytes() == 2048
    requires InBlock(lba, g, ROOT, x) || InBlock(lba, g, 4, x)
    ensures |Offsets(lba, g, [ROOT, 4])| == 128
    ensures var offs := Offsets(lba, g, [ROOT, 4]); offs[45] <= x < offs[65] + 32 ==> InRun(offs, 45, 65, x)
  {
    hide BlockOffset, Offsets;
    BlocksApart(lba, g, ROOT, 4);
    SpanOffset(lba, g, 45);
    SpanOffset(lba, g, 65);
    var offs := Offsets(lba, g, [ROOT, 4]);
    if offs[45] <= x < offs[65] + 32 {
      var i := if InBlock(lba, g, ROOT, x) then (x - BlockOffset(lba, g, ROOT)) / 32
               else 64 + (x - BlockOffset(lba, g, 4)) / 32;
      SpanOffset(lba, g, i);
      assert offs[i] <= x < offs[i] + 32;
    }
  }

  /** The root is the only chain the wipe need spare for the listing to be right. */
  const SPAN: Layout := map[ROOT := [ROOT, 4]]

  lemma {:induction false} SpanSafe(image: seq<byte>, lba: int, g: Geometry)
    requires Fits(g, lba, |image|) && lba >= 0 && InRange(g, [ROOT, 4]) && g.BlockSlots() == 64
    requires g.BlockBytes() == 2048
    ensures |Offsets(lba, g, [ROOT, 4])| == 128 && Offsets(lba, g, [ROOT, 4])[65] + 32 <= |image|
    ensures WipeSafe(image, lba, g, SPAN, Offsets(lba, g, [ROOT, 4]), 45, 65)
  {
    hide BlockOffset, Offsets, InRun, Fits, InBlock;
    BlocksApart(lba, g, ROOT, 4);
    SpanOffset(lba, g, 45);
    SpanOffset(lba, g, 65);
    RunInArea(image, lba, g, [ROOT, 4], 45, 65);
    var offs := Offsets(lba, g, [ROOT, 4]);
    forall x: nat | offs[45] <= x < offs[65] + 32 && LiveByte(lba, g, SPAN, x) ensures InRun(offs, 45, 65, x) {
      SpanRun(lba, g, x);
    }
  }

  lemma {:induction false} SpanWiped(image: seq<byte>, lba: int, g: Geometry, i: nat)
    requires Fits(g, lba, |image|) && lba >= 0 && InRange(g, [ROOT, 4]) && g.BlockSlots() == 64
    requires g.BlockBytes() == 2048
    requires 45 <= i <= 65
    ensures |Offsets(lba, g, [ROOT, 4])| == 128 && Offsets(lba, g, [ROOT, 4])[65] + 32 <= |image|
    ensures var offs := Offsets(lba, g, [ROOT, 4]);
            var wiped := DirSlots(Wipe(image, offs[45], offs[65] + 32), lba, g, [ROOT, 4]);
            i < |wiped| && wiped[i].raw[0] == DELETED
  {
    hide BlockOffset, Offsets, Fits, SlotAt, Wipe;
    BlocksApart(lba, g, ROOT, 4);
    SpanOffset(lba, g, 45);
    SpanOffset(lba, g, 65);
    SpanOffset(lba, g, i);
    RunInArea(image, lba, g, [ROOT, 4], 45, 65);
    var offs := Offsets(lba, g, [ROOT, 4]);
    OffsetsInImage(lba, g, [ROOT, 4], |image|);
    SlotWiped(image, offs[45], offs[65] + 32, offs[i]);
  }

  lemma {:induction false} SpanPacked(image: seq<byte>, lba: int, g: Geometry)
    requires Fits(g, lba, |image|) && lba >= 0 && InRange(g, [ROOT, 4]) && g.BlockSlots() == 64
    requires g.BlockBytes() == 2048
    requires |Offsets(lba, g, [ROOT, 4])| == 128 && Offsets(lba, g, [ROOT, 4])[65] + 32 <= |image|
    requires Packed(DirSlots(image, lba, g, [ROOT, 4]), 66)
    requires var offs := Offsets(lba, g, [ROOT, 4]);
             Directory.Wiped(DirSlots(image, lba, g, [ROOT, 4]),
                             DirSlots(Wipe(image, offs[45], offs[65] + 32), lba, g, [ROOT, 4]), 45, 65)
    ensures var offs := Offsets(lba, g, [ROOT, 4]);
            Packed(DirSlots(Wipe(image, offs[45], offs[65] + 32), lba, g, [ROOT, 4]), 45)
  {
    hide Fits, Offsets, DirSlots, Packed, Directory.Wiped, Wipe;
    var offs := Offsets(lba, g, [ROOT, 4]);
    var wiped := DirSlots(Wipe(image, offs[45], offs[65] + 32), lba, g, [ROOT, 4]);
    forall i | 45 <= i <= 65 ensures wiped[i].raw[0] == DELETED { SpanWiped(image, lba, g, i); }
    PackedWiped(DirSlots(image, lba, g, [ROOT, 4]), wiped, 45, 65);
  }

  lemma {:induction false} SameOffset(lba: int, g: Geometry, chain: seq<nat>, i: nat, j: nat)
    requires lba >= 0 && InRange(g, chain) && Distinct(chain) && i < |Offsets(lba, g, chain)|
    requires j < |Offsets(lba, g, chain)|
    requires Offsets(lba, g, chain)[i] == Offsets(lba, g, chain)[j]
    ensures i == j
  {
    hide Offsets, InRange, Distinct;
    if i < j { OffsetsApart(lba, g, chain, i, j); }
    if j < i { OffsetsApart(lba, g, chain, j, i); }
  }

  /** The image after the wipe, before the new record is written. */
  ghost predicate Cleared(image: seq<byte>, t: seq<nat>, lba: int, g: Geometry, M: Layout, recs: seq<Record>) {
    && Fits(g, lba, |image|) && Live(image, lba, g, t, {ROOT}, M) && DirsIn(g, {ROOT}, M)
    && M[ROOT] == [ROOT, 4] && ListingOf(image, lba, g, {ROOT}, M)[ROOT] == recs
    && Packed(DirSlots(image, lba, g, M[ROOT]), 45)
  }

  /** The wipe takes the record out of the root, whatever else it destroys. */
  lemma {:induction false} SpanCleared(image: seq<byte>, lba: int, g: Geometry, L: Layout, recs: seq<Record>, r: Record)
    requires Shelf(image, lba, g, L, recs + [r], 66) && Fits(g, lba, |image|) && |recs| == 3
    requires lba >= 0 && ROOT in L && L[ROOT] == [ROOT, 4] && InRange(g, [ROOT, 4])
    requires 65 < |Offsets(lba, g, [ROOT, 4])| && r.cluster == 0 && !r.IsDirectory()
    requires r.lfnStart == Offsets(lba, g, [ROOT, 4])[45] && r.offset == Offsets(lba, g, [ROOT, 4])[65]
    ensures |r.alias| == 11 && r.alias[0] !in {0, DELETED} && r.offset + 32 <= |image|
    ensures forall i :: 0 <= i < |recs| ==> recs[i].alias != r.alias
    ensures Cleared(Wipe(image, r.lfnStart, r.offset + 32), TableOf(image, lba, g), lba, g, L - {0}, recs)
  {
    hide *;
    RootIsSecond();
    var t, offs, all := TableOf(image, lba, g), Offsets(lba, g, [ROOT, 4]), recs + [r];
    ShelfParts(image, lba, g, L, all, 66);
    LiveParts(image, lba, g, t, {ROOT}, L);
    LiveChain(image, lba, g, t, {ROOT}, L, ROOT);
    LastIsFourth(recs, r);
    var slots := DirSlots(image, lba, g, L[ROOT]);
    var a, b := FindRecord(slots, 3);
    RecordAtRun(slots, 3, a, b);
    RunBounds(slots, a, b);
    VictimOffsets(image, lba, g, L[ROOT], 3, a, b);
    SameOffset(lba, g, L[ROOT], a, 45);
    SameOffset(lba, g, L[ROOT], b, 65);
    VictimAlias(image, lba, g, t, {ROOT}, L, ROOT, 3, a, b);
    WithoutLast(recs, r);
    SpanSafe(image, lba, g);
    SpanIs();
    WipeDir(image, lba, g, t, {ROOT}, L, SPAN, ROOT, 3, 45, 65);
    SafeUpward(image, lba, g, SPAN, offs, 45, 65);
    WipedSlots(image, lba, g, SPAN, ROOT, 45, 65);
    var image', M := Wipe(image, r.lfnStart, r.offset + 32), L - {0};
    SpanPacked(image, lba, g);
    var R: Listing := ListingOf(image, lba, g, {ROOT}, L);
    VictimFrom(image, lba, g, t, {ROOT}, L, ROOT, 3);
    VictimParts(image, lba, g, t, {ROOT}, L, ROOT, 3);
    OwnersRemove(R, L.Keys, ROOT, 3);
    DroppedAt(R, ROOT, 3);
    MinusDirs(g, {ROOT}, L, 0);
    NothingReleased(t, g, L);
    assert {ROOT} - {0} == {ROOT};
    LiveFrom(image', lba, g, t, {ROOT}, M, Dropped(R, ROOT, 3));
    ClearedFrom(image', t, lba, g, M, recs);
  }

  lemma {:induction false} SpanIs()
    ensures ROOT in SPAN && SPAN[ROOT] == [ROOT, 4]
  {
  }

  lemma {:induction false} WithoutLast(recs: seq<Record>, r: Record)
    requires |recs| == 3
    ensures Without(recs + [r], 3) == recs
  {
  }

  lemma {:induction false} NothingReleased(t: seq<nat>, g: Geometry, L: Layout)
    requires ChainsOk(t, g, L)
    ensures 0 !in L && L - {0} == L && ChainsOk(t, g, L - {0})
  {
    hide IsChain, ChainFrom;
    if 0 in L { LiveHead(t, g, L, 0); }
    assert L - {0} == L;
  }

  lemma {:induction false} ClearedFrom(image: seq<byte>, t: seq<nat>, lba: int, g: Geometry, M: Layout,
                                       recs: seq<Record>)
    requires Fits(g, lba, |image|) && Live(image, lba, g, t, {ROOT}, M) && DirsIn(g, {ROOT}, M)
    requires M[ROOT] == [ROOT, 4] && ListingOf(image, lba, g, {ROOT}, M)[ROOT] == recs && InRange(g, M[ROOT])
    requires Packed(DirSlots(image, lba, g, M[ROOT]), 45)
    ensures Cleared(image, t, lba, g, M, recs)
  {
    hide Fits, Live, ListingOf, DirSlots, Packed, InRange;
  }

  lemma {:induction false} ClearedParts(image: seq<byte>, t: seq<nat>, lba: int, g: Geometry, M: Layout,
                                        recs: seq<Record>)
    requires Cleared(image, t, lba, g, M, recs)
    ensures Fits(g, lba, |image|) && Live(image, lba, g, t, {ROOT}, M) && DirsIn(g, {ROOT}, M) && ROOT in M
    ensures ListingOf(image, lba, g, {ROOT}, M)[ROOT] == recs && InRange(g, M[ROOT])
    ensures Packed(DirSlots(image, lba, g, M[ROOT]), 45)
  {
    hide Fits, Live, ListingOf, DirSlots, Packed, InRange;
  }

  lemma {:induction false} StoredListing(image: seq<byte>, t: seq<nat>, lba: int, g: Geometry, dirs: set<nat>,
                                         L: Layout, d: nat, name: Name, alias: seq<byte>, data: seq<byte>,
                                         image': seq<byte>, L': Layout, k: nat, r: Record)
    requires Fits(g, lba, |image|) && |image'| == |image| && DirsIn(g, dirs, L) && g.Top() <= |t|
    requires Stored(image, t, lba, g, dirs, L, d, name, alias, data, image', L', k, r) && d in dirs && InRange(g, L[d])
    ensures k == InsertAt(DirSlots(image, lba, g, L[d]), EntryCount(name) + 1) <= |ListingOf(image, lba, g, dirs, L)[d]|
    ensures DirRecords(image', lba, g, TableOf(image', lba, g), d)
            == Ok(With(ListingOf(image, lba, g, dirs, L)[d], k, r))
  {
    hide Live, ListingOf, DirsIn, Table, FatImage, FatCopy, ReadRecord, KeepsFiles, SameOutside, FreeCount, NoLeaks,
         With, Fits, Needed, TableOf, DirSlots, InsertAt, Extension, EntryCount, InRange, DirRecords, Describes;
    TableIs(image', lba, g);
    LiveChain(image', lba, g, TableOf(image', lba, g), dirs, L', d);
  }

  /** Storing into the cleared root puts the new record behind the others. */
  lemma {:induction false} SpanStored(image: seq<byte>, lba: int, g: Geometry, fat: seq<byte>, M: Layout,
                                      recs: seq<Record>, name: Name, alias: seq<byte>, data: seq<byte>)
      returns (r: Record)
    requires |fat| == g.FatBytes() && Cleared(image, Table(fat), lba, g, M, recs) && Fits(g, lba, |image|)
    requires |alias| == 11 && alias[0] !in {0, DELETED} && forall i :: 0 <= i < |recs| ==> recs[i].alias != alias
    requires Store(image, lba, g, fat, ROOT, name, alias, data).error == None
    ensures var image' := Store(image, lba, g, fat, ROOT, name, alias, data).image;
            && |image'| == |image| && DirRecords(image', lba, g, TableOf(image', lba, g), ROOT) == Ok(recs + [r])
  {
    hide *;
    ClearedParts(image, Table(fat), lba, g, M, recs);
    LiveChain(image, lba, g, Table(fat), {ROOT}, M, ROOT);
    var image' := Store(image, lba, g, fat, ROOT, name, alias, data).image;
    var L', k;
    L', k, r := StoreCorrect(image, lba, g, fat, {ROOT}, M, ROOT, name, alias, data);
    StoredListing(image, Table(fat), lba, g, {ROOT}, M, ROOT, name, alias, data, image', L', k, r);
    PackedInsert(DirSlots(image, lba, g, M[ROOT]), 45, EntryCount(name) + 1);
    WithLast(recs, r);
  }

  /** A chain of one cluster is told from the table. */
  lemma {:induction false} SingleChain(t: seq<nat>, g: Geometry, L: Layout, c: nat)
    requires ChainsOk(t, g, L) && c in L && t[c] == EOF && 2 <= c < g.Top() <= |t|
    ensures L[c] == [c]
  {
    hide ChainFrom;
    LiveInRange(t, g, L, c);
    WalkReturnsChain(t, L[c], g.Top(), EOF);
    assert IsChain(t, [c], g.Top(), EOF);
    WalkReturnsChain(t, [c], g.Top(), EOF);
  }

  lemma {:induction false} SingleHome(lba: int, g: Geometry, c: nat)
    requires lba >= 0 && 2 <= c < g.Top() && g.BlockBytes() == 2048
    ensures InRange(g, [c]) && 0 < |Homes(lba, g, [c])| && InBlock(lba, g, c, Homes(lba, g, [c])[0])
  {
    hide BlockOffset;
  }

  lemma {:induction false} FourthMatches(recs: seq<Record>, r: Record, q: Request)
    requires Gathered(recs, [SHORT] + [Long(0x61)] + [Long(0x62)]) && r.name == Long(0x63) && q.name == Long(0x63)
    requires Requested(q) == None
    ensures FirstExisting(recs + [r], q.name, Requested(q)) == Some(3)
  {
    hide NameEqual, Requested, Long;
    NamesDiffer(recs);
    LongDiffer(0x63, 0x61, SHORT);
    var all := recs + [r];
    assert all[3] == r && forall i :: 0 <= i < 3 ==> all[i] == recs[i];
    assert Matches(all[3], q.name, Requested(q));
  }

  /** The root after the fifth injection: the first three records, and the new one behind them. */
  lemma {:induction false} LastListing(image: seq<byte>, lba: int, g: Geometry, L: Layout, recs: seq<Record>, r: Record,
                                       q: Request) returns (r': Record)
    requires Shelf(image, lba, g, L, recs + [r], 66) && Fits(g, lba, |image|) && |recs| == 3
    requires lba >= 0 && ROOT in L && L[ROOT] == [ROOT, 4] && InRange(g, [ROOT, 4])
    requires 65 < |Offsets(lba, g, [ROOT, 4])| && r.cluster == 0 && !r.IsDirectory()
    requires r.lfnStart == Offsets(lba, g, [ROOT, 4])[45] && r.offset == Offsets(lba, g, [ROOT, 4])[65]
    requires DirsIn(g, {ROOT}, L) && Met(ListingOf(image, lba, g, {ROOT}, L), ROOT, q) == Some(3)
    requires InjectInto(image, lba, g, ROOT, q).error == None
    ensures var image' := InjectInto(image, lba, g, ROOT, q).image;
            && |image'| == |image| && DirRecords(image', lba, g, TableOf(image', lba, g), ROOT) == Ok(recs + [r'])
  {
    hide *;
    var t, fat := TableOf(image, lba, g), FatImage(image, lba, g);
    TableIs(image, lba, g);
    ShelfParts(image, lba, g, L, recs + [r], 66);
    LastIsFourth(recs, r);
    SpanCleared(image, lba, g, L, recs, r);
    InjectIsReplace(image, lba, g, {ROOT}, L, ROOT, q, 3);
    NothingReleased(t, g, L);
    ChainOfKey(t, g, L, 0);
    ChainAtNone(L, 0);
    ReplaceUnfold(image, lba, g, fat, ROOT, r, q, []);
    ReleaseNone(fat);
    ClearedParts(Wipe(image, r.lfnStart, r.offset + 32), t, lba, g, L - {0}, recs);
    r' := SpanStored(Wipe(image, r.lfnStart, r.offset + 32), lba, g, fat, L - {0}, recs, q.name, r.alias, q.data);
    WipeLength(image, r.lfnStart, r.offset + 32);
  }

  lemma {:induction false} ChainAtNone(L: Layout, c: nat)
    requires c !in L
    ensures ChainAt(L, c) == []
  {
  }

  lemma {:induction false} ReleaseNone(fat: seq<byte>)
    ensures ReleaseFat(fat, [], 0) == fat
  {
  }

  lemma {:induction false} WipeLength(image: seq<byte>, lo: nat, hi: nat)
    requires hi <= |image|
    ensures |Wipe(image, lo, hi)| == |image|
  {
  }

  /** The fifth injection replaces the file whose record spans clusters 2 and 4, and wipes cluster 3. */
  lemma {:induction false} LastPut(image: seq<byte>, lba: int, g: Geometry, L: Layout, recs: seq<Record>, r: Record,
                                   b: byte, upper: Name -> Name) returns (r': Record)
    requires Shelf(image, lba, g, L, recs + [r], 66) && Fits(g, lba, |image|) && FreeClusters(image, lba, g) >= 1
    requires lba >= 0 && ROOT in L && L[ROOT] == [ROOT, 4] && InRange(g, [ROOT, 4])
    requires 65 < |Offsets(lba, g, [ROOT, 4])|
    requires 5 <= g.Top() <= |TableOf(image, lba, g)| && TableOf(image, lba, g)[3] == EOF
    requires Gathered(recs, [SHORT] + [Long(0x61)] + [Long(0x62)]) && |recs| == 3 && recs[0].cluster == 3
    requires r.name == Long(0x63) && !r.IsDirectory() && r.cluster == 0
    requires r.lfnStart == Offsets(lba, g, [ROOT, 4])[45] && r.offset == Offsets(lba, g, [ROOT, 4])[65]
    requires ReadRecord(image, lba, g, TableOf(image, lba, g), recs[0]) == Ok([b]) && b != DELETED
    ensures var op := Put(Long(0x63), [], true, upper);
            && WellPosed(op) && Apply(image, lba, op).error == None
            && var image' := Apply(image, lba, op).image;
            && |image'| == |image| && ReadGeometry(image', lba) == Ok(g)
            && DirRecords(image', lba, g, TableOf(image', lba, g), ROOT) == Ok(recs + [r'])
            && ReadRecord(image', lba, g, TableOf(image', lba, g), recs[0]) == Ok([DELETED])
  {
    hide *;
    var op := Put(Long(0x63), [], true, upper);
    PutIs(Long(0x63), [], true, upper);
    LongPlain(0x63);
    var q, t, all := op.q, TableOf(image, lba, g), recs + [r];
    FitsBasics(g, lba, |image|);
    ShelfParts(image, lba, g, L, all, 66);
    PutPosed(q.name, q.data, q.replace, q.upper);
    Formatting.ApplyAtRoot(image, lba, g, op);
    ApplyCases(image, lba, g, op);
    InjectOutside(image, lba, op);
    FourthMatches(recs, r, q);
    var R: Listing := ListingOf(image, lba, g, {ROOT}, L);
    MetIs(R, ROOT, q);
    LastIsFourth(recs, r);
    FirstIsFile(recs);
    RootIsSecond();
    ReplaceSucceeds(image, lba, g, {ROOT}, L, ROOT, q, 3);
    PlainParts(q.name);
    ExtensionSmall(DirSlots(Wipe(image, r.lfnStart, r.offset + 32), lba, g, L[ROOT]), EntryCount(q.name) + 1,
                   g.BlockSlots());
    NeededOne([], g);
    Formatting.FreeIs(image, lba, g);
    VolumeParts(image, lba, g, {ROOT}, L);
    LiveParts(image, lba, g, t, {ROOT}, L);
    ListedOk(R, L.Keys, ROOT, 0);
    SingleChain(t, g, L, 3);
    SpanPlaces(lba, g);
    SingleHome(lba, g, 3);
    GapDamages(image, lba, g, {ROOT}, L, ROOT, q, 3, 0, ROOT, 0, [b], 0);
    r' := LastListing(image, lba, g, L, recs, r, q);
    var image' := Apply(image, lba, op).image;
    OneByte(ReadRecord(image', lba, g, TableOf(image', lba, g), recs[0]));
  }

  lemma {:induction false} LastIsFourth(recs: seq<Record>, r: Record)
    requires |recs| == 3
    ensures var all := recs + [r]; |all| == 4 && all[3] == r && all[0] == recs[0]
  {
  }

  lemma {:induction false} OneByte(x: Result<seq<byte>, Error>)
    requires x.Ok? && |x.value| == 1 && x.value[0] == DELETED
    ensures x == Ok([DELETED])
  {
    assert x.value == [DELETED];
  }

  lemma {:induction false} RootIsSecond()
    ensures ROOT == 2
  {
  }

  /** A wipe over a live file, from a new volume on: all five injections are accepted, and the last, which replaces an
      empty file, leaves the byte of the first one overwritten. */
  lemma {:induction false} GapHappens(image: seq<byte>, p: Formatting.Plan, blank: seq<byte>, g: Geometry, b: byte,
                                      upper: Name -> Name)
    requires Formatting.Blank(image, p, blank, g) && b != DELETED
    ensures var ops, lba := GapOps(b, upper), p.lba;
            && |ops| == 5 && AllWellPosed(ops) && AllAccepted(blank, lba, ops)
            && ReadFile(RunAll(blank, lba, ops[..4]), lba, SHORT) == Ok([b])
            && ReadFile(RunAll(blank, lba, ops), lba, SHORT) == Ok([DELETED])
  {
    hide *;
    var lba := p.lba;
    var ops3 := [Put(SHORT, [b], false, upper)] + [Put(Long(0x61), [], false, upper)]
                + [Put(Long(0x62), [], false, upper)];
    var o4, o5 := Put(Long(0x63), [], false, upper), Put(Long(0x63), [], true, upper);
    var L3, recs := ThreePuts(image, p, blank, g, b, upper);
    var image3 := RunAll(blank, lba, ops3);
    FitsBasics(g, lba, |image3|);
    var L4, r := FourthPut(image3, lba, g, L3, recs, upper);
    RunSnoc(blank, lba, ops3, o4);
    var image4 := RunAll(blank, lba, ops3 + [o4]);
    FirstIsFile(recs);
    var r' := LastPut(image4, lba, g, L4, recs, r, b, upper);
    RunSnoc(blank, lba, ops3 + [o4], o5);
    GapIs(b, upper, ops3, o4, o5);
    ShortPlain();
    ShortAnswers(recs[0]);
    LastIsFourth(recs, r);
    LastIsFourth(recs, r');
    ShelfParts(image4, lba, g, L4, recs + [r], 66);
    RootReads(image4, lba, g, recs + [r], SHORT, 0);
    RootReads(RunAll(blank, lba, ops3 + [o4] + [o5]), lba, g, recs + [r'], SHORT, 0);
  }

  lemma {:induction false} FirstIsFile(recs: seq<Record>)
    requires Gathered(recs, [SHORT] + [Long(0x61)] + [Long(0x62)]) && |recs| == 3
    ensures !recs[0].IsDirectory() && recs[0].name == SHORT
  {
    hide Long;
  }

  lemma {:induction false} ShortAnswers(f: Record)
    requires f.name == SHORT
    ensures Answers(f, SHORT)
  {
  }

  lemma {:induction false} GapIs(b: byte, upper: Name -> Name, ops3: seq<Op>, o4: Op, o5: Op)
    requires ops3 == [Put(SHORT, [b], false, upper)] + [Put(Long(0x61), [], false, upper)]
                     + [Put(Long(0x62), [], false, upper)]
    requires o4 == Put(Long(0x63), [], false, upper) && o5 == Put(Long(0x63), [], true, upper)
    ensures GapOps(b, upper) == ops3 + [o4] + [o5] && |ops3 + [o4] + [o5]| == 5 && GapOps(b, upper)[..4] == ops3 + [o4]
  {
    hide Put, Long;
  }
}
