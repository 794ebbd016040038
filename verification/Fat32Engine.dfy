/** The FAT32 engine as it runs: loops over the image and FAT arrays, each proved equal to its specification. */
module Fat32Engine {
  import opened Bytes
  import opened DataBlocks
  import opened Chains
  import opened LongNames
  import opened Directory
  import opened Fat32Volume
  import opened Fat32Layout
  import opened Fat32Slots
  import opened Fat32Files

  // ----- reading a directory -----

  /** The records found so far and those still to come make up the listing. */
  predicate Progress(slots: seq<Slot>, n: nat, records: seq<Record>, st: Pending)
    requires Shaped(slots)
  {
    n <= |slots| && records + Parse(slots[n..], st) == Records(slots)
  }

  lemma {:induction false} ProgressStart(slots: seq<Slot>)
    requires Shaped(slots)
    ensures Progress(slots, 0, [], Idle)
  {
    hide Parse;
    assert slots[0..] == slots;
  }

  /** One entry of the record loop. */
  lemma {:induction false} ProgressStep(slots: seq<Slot>, n: nat, records: seq<Record>, st: Pending)
    requires Shaped(slots) && n < |slots| && Progress(slots, n, records, st)
    ensures End(slots[n]) ==> records == Records(slots)
    ensures !End(slots[n]) ==>
              Progress(slots, n + 1, if Short(slots[n]) then records + [MakeRecord(st, slots[n])] else records,
                       Absorb(st, slots[n]))
  {
    hide MakeRecord, Absorb;
    assert slots[n..][1..] == slots[n + 1..];
  }

  lemma {:induction false} ProgressEnd(slots: seq<Slot>, records: seq<Record>, st: Pending)
    requires Shaped(slots) && Progress(slots, |slots|, records, st)
    ensures records == Records(slots)
  {
  }

  lemma {:induction false} SlotIndex(image: seq<byte>, lba: int, g: Geometry, chain: seq<nat>, i: nat, j: nat)
    requires Fits(g, lba, |image|) && InRange(g, chain) && i < |chain| && j < g.BlockSlots()
    ensures lba >= 0 && 2 <= chain[i] && InRange(g, chain[..i]) && InRange(g, chain[..i + 1])
    ensures |Offsets(lba, g, chain[..i + 1])| == |Offsets(lba, g, chain[..i])| + g.BlockSlots()
            <= |DirSlots(image, lba, g, chain)|
    ensures 2 <= chain[i] && lba >= 0 && BlockOffset(lba, g, chain[i]) + 32 * j + 32 <= |image|
    ensures DirSlots(image, lba, g, chain)[|Offsets(lba, g, chain[..i])| + j]
            == SlotAt(image, BlockOffset(lba, g, chain[i]) + 32 * j)
    ensures Offsets(lba, g, chain)[|Offsets(lba, g, chain[..i])| + j] == BlockOffset(lba, g, chain[i]) + 32 * j
  {
    OffsetsInImage(lba, g, chain, |image|);
    OffsetsAt(lba, g, chain, i, j);
    hide Offsets, BlockOffset, Fits, SlotAt;
    SlotsAtIndex(image, Offsets(lba, g, chain), |Offsets(lba, g, chain[..i])| + j);
  }

  /** The chain a directory starts; it must not be empty. */
  method DirectoryChain(fat: array<byte>, g: Geometry, first: nat) returns (r: Result<seq<nat>, Error>)
    requires 4 * g.Top() <= fat.Length
    ensures r == DirChain(Table(fat[..]), g, first)
  {
    var walked := WalkFat(fat, first, g.Top());
    match walked
    case None => return Err(BadChain);
    case Some(chain) => if chain == [] { return Err(EmptyDirectoryChain); } else { return Ok(chain); }
  }

  /** The records of a directory, collected entry by entry with the pending long name in `units`, `sum` and `start`. */
  method ReadRecords(image: array<byte>, fat: array<byte>, lba: int, g: Geometry, first: nat)
      returns (r: Result<seq<Record>, Error>)
    requires Fits(g, lba, image.Length) && 4 * g.Top() <= fat.Length
    ensures r == DirRecords(image[..], lba, g, Table(fat[..]), first)
  {
    hide Fits, Offsets, BlockOffset, DirSlots, Records, MakeRecord, Absorb, Progress, InRange, Table, DirChain, Placed,
         AreaStart, AreaEnd;
    FitsBasics(g, lba, image.Length);
    var found := DirectoryChain(fat, g, first);
    if found.Err? { return Err(found.error); }
    var chain := found.value;
    ghost var img := image[..];
    ghost var slots := DirSlots(img, lba, g, chain);
    var records: seq<Record> := [];
    var pending := Idle;
    ChainEnds(lba, g, chain);
    ProgressStart(slots);
    for i := 0 to |chain|
      invariant InRange(g, chain[..i]) && |Offsets(lba, g, chain[..i])| <= |slots|
      invariant Progress(slots, |Offsets(lba, g, chain[..i])|, records, pending)
    {
      SlotIndex(img, lba, g, chain, i, 0);
      for j := 0 to g.BlockSlots()
        invariant |Offsets(lba, g, chain[..i])| + j <= |slots|
        invariant Progress(slots, |Offsets(lba, g, chain[..i])| + j, records, pending)
      {
        SlotIndex(img, lba, g, chain, i, j);
        var off := BlockOffset(lba, g, chain[i]) + 32 * j;
        var slot := Slot(off, image[off..off + 32]);
        assert img[off..off + 32] == image[off..off + 32];
        ProgressStep(slots, |Offsets(lba, g, chain[..i])| + j, records, pending);
        if End(slot) { return Ok(records); }
        if Short(slot) { records := records + [MakeRecord(pending, slot)]; }
        pending := Absorb(pending, slot);
      }
    }
    ProgressEnd(slots, records, pending);
    return Ok(records);
  }

  lemma {:induction false} ChainEnds(lba: int, g: Geometry, chain: seq<nat>)
    requires lba >= 0 && InRange(g, chain)
    ensures InRange(g, chain[..0]) && Offsets(lba, g, chain[..0]) == [] && chain[..|chain|] == chain
  {
  }

  // ----- reserving entries -----

  /** The scan after `n` entries: the last `m` are free, the one before is not, and no run of `req` was met. */
  predicate Scanned(all: seq<Slot>, n: nat, m: nat, req: nat)
    requires Shaped(all)
  {
    && m <= n <= |all| && m < req
    && (forall i :: n - m <= i < n ==> Free(all[i]))
    && (m < n ==> !Free(all[n - m - 1]))
    && (forall s :: 0 <= s && s + req <= n ==> !Fit(all, s, req))
  }

  lemma {:induction false} ScanStep(all: seq<Slot>, n: nat, m: nat, req: nat)
    requires Shaped(all) && Scanned(all, n, m, req) && n < |all|
    ensures m + 1 <= req && (Free(all[n]) && m + 1 < req ==> Scanned(all, n + 1, m + 1, req))
    ensures Free(all[n]) && m + 1 == req ==> FirstFit(all, req, 0) == Some(n + 1 - req)
    ensures !Free(all[n]) ==> Scanned(all, n + 1, 0, req)
  {
    hide FirstFit;
    forall s | 0 <= s && s + req == n + 1 && !(Free(all[n]) && m + 1 == req) ensures !Fit(all, s, req) {
      if Free(all[n]) { assert s <= n - m - 1 < s + req; } else { assert s <= n < s + req; }
    }
    if Free(all[n]) && m + 1 == req {
      assert Fit(all, n + 1 - req, req);
      FirstFitIs(all, req, n + 1 - req);
    }
  }

  lemma {:induction false} FirstFitIs(all: seq<Slot>, req: nat, s: nat)
    requires Shaped(all) && Fit(all, s, req) && forall j :: 0 <= j < s ==> !Fit(all, j, req)
    ensures FirstFit(all, req, 0) == Some(s)
  {
    hide Fit;
    match FirstFit(all, req, 0)
    case None =>
    case Some(j) =>
  }

  lemma {:induction false} ScanEnd(all: seq<Slot>, m: nat, req: nat)
    requires Shaped(all) && Scanned(all, |all|, m, req)
    ensures FirstFit(all, req, 0) == None && Trailing(all) == m
  {
    hide Fit;
    TrailingFree(all);
    match FirstFit(all, req, 0)
    case None =>
    case Some(j) => FitBounds(all, j, req);
  }

  lemma {:induction false} FitBounds(all: seq<Slot>, s: nat, req: nat)
    requires Shaped(all) && Fit(all, s, req)
    ensures s + req <= |all|
  {
  }

  /** The first run that fits, or else the free entries at the end. */
  predicate ScanResult(all: seq<Slot>, offs: seq<nat>, req: nat, fits: bool, slots: seq<nat>)
    requires Shaped(all) && |offs| == |all|
  {
    match FirstFit(all, req, 0)
    case Some(s) => fits && s + req <= |offs| && slots == offs[s..s + req]
    case None => !fits && slots == offs[|offs| - Trailing(all)..]
  }

  /** The scan with the offsets it has gathered. */
  predicate Gathered(all: seq<Slot>, offs: seq<nat>, n: nat, slots: seq<nat>, req: nat)
    requires Shaped(all) && |offs| == |all|
  {
    Scanned(all, n, |slots|, req) && slots == offs[n - |slots|..n]
  }

  lemma {:induction false} GatherStart(all: seq<Slot>, offs: seq<nat>, req: nat)
    requires Shaped(all) && |offs| == |all| && req > 0
    ensures Gathered(all, offs, 0, [], req)
  {
  }

  lemma {:induction false} GatherStep(all: seq<Slot>, offs: seq<nat>, n: nat, slots: seq<nat>, req: nat)
    requires Shaped(all) && |offs| == |all| && Gathered(all, offs, n, slots, req) && n < |all|
    ensures Free(all[n]) && |slots| + 1 < req ==> Gathered(all, offs, n + 1, slots + [offs[n]], req)
    ensures Free(all[n]) && |slots| + 1 >= req ==> ScanResult(all, offs, req, true, slots + [offs[n]])
    ensures !Free(all[n]) ==> Gathered(all, offs, n + 1, [], req) && 0 < req
  {
    hide Trailing, FirstFit, Fit;
    ScanStep(all, n, |slots|, req);
    var m := |slots|;
    assert slots + [offs[n]] == offs[n - m..n + 1];
  }

  lemma {:induction false} GatherEnd(all: seq<Slot>, offs: seq<nat>, slots: seq<nat>, req: nat)
    requires Shaped(all) && |offs| == |all| && Gathered(all, offs, |all|, slots, req)
    ensures ScanResult(all, offs, req, false, slots)
  {
    hide Trailing, FirstFit, Fit;
    ScanEnd(all, |slots|, req);
    assert offs[|offs| - |slots|..] == offs[|offs| - |slots|..|offs|];
  }

  /** Looks for `req` consecutive free entries; otherwise returns the free entries at the end. */
  method ScanSlots(image: array<byte>, lba: int, g: Geometry, chain: seq<nat>, req: nat)
      returns (fits: bool, slots: seq<nat>)
    requires Fits(g, lba, image.Length) && InRange(g, chain) && req > 0
    ensures ScanResult(DirSlots(image[..], lba, g, chain), Offsets(lba, g, chain), req, fits, slots)
  {
    hide Fits, Offsets, BlockOffset, DirSlots, Gathered, InRange, ScanResult;
    FitsBasics(g, lba, image.Length);
    ghost var img := image[..];
    ghost var all, offs := DirSlots(img, lba, g, chain), Offsets(lba, g, chain);
    slots := [];
    ChainEnds(lba, g, chain);
    GatherStart(all, offs, req);
    for i := 0 to |chain|
      invariant InRange(g, chain[..i]) && |Offsets(lba, g, chain[..i])| <= |all|
      invariant Gathered(all, offs, |Offsets(lba, g, chain[..i])|, slots, req)
    {
      SlotIndex(img, lba, g, chain, i, 0);
      for j := 0 to g.BlockSlots()
        invariant |Offsets(lba, g, chain[..i])| + j <= |all|
        invariant Gathered(all, offs, |Offsets(lba, g, chain[..i])| + j, slots, req)
      {
        SlotIndex(img, lba, g, chain, i, j);
        var off := BlockOffset(lba, g, chain[i]) + 32 * j;
        assert img[off..off + 32][0] == image[off];
        GatherStep(all, offs, |Offsets(lba, g, chain[..i])| + j, slots, req);
        if image[off] in {0x00, DELETED} { slots := slots + [off]; } else { slots := []; }
        if |slots| >= req { return true, slots; }
      }
    }
    GatherEnd(all, offs, slots, req);
    return false, slots;
  }

  lemma {:induction false} GrowStopsShort(image: seq<byte>, lba: int, g: Geometry, fat: seq<byte>, chain: seq<nat>,
                                          have: nat, req: nat)
    requires Fits(g, lba, |image|) && |fat| == g.FatBytes() && chain != [] && InRange(g, chain) && have < req
    ensures 4 * g.Top() <= |fat| && g.Top() <= |Table(fat)|
    ensures Allocate(Table(fat), 1, g.Top()) == None ==>
            Grow(image, lba, g, fat, chain, have, req) == Growth(image, fat, chain, false)
    ensures Allocate(Table(fat), 1, g.Top()).Some? ==>
              var c := Allocate(Table(fat), 1, g.Top()).value[0];
              && 2 <= c < g.Top() && InRange(g, chain + [c]) && 4 * c + 4 <= |fat| &&
                 4 * chain[|chain| - 1] + 4 <= |fat|
              && Grow(image, lba, g, fat, chain, have, req)
                 == Grow(PutBlock(image, lba, g, c, Fill(0, g.BlockBytes())), lba, g,
                         Extend(fat, chain[|chain| - 1], c), chain + [c], have + g.BlockSlots(), req)
  {
    hide Table, PutBlock, Extend;
  }

  /** The offsets from `start` on, once one more cluster is linked. */
  lemma {:induction false} OffsetsTail(lba: int, g: Geometry, chain: seq<nat>, c: nat, start: nat)
    requires lba >= 0 && InRange(g, chain) && 2 <= c < g.Top() && start <= |Offsets(lba, g, chain)|
    ensures InRange(g, chain + [c]) && start <= |Offsets(lba, g, chain + [c])|
    ensures Offsets(lba, g, chain + [c])[start..] == Offsets(lba, g, chain)[start..] + BlockOffsets(lba, g, c)
  {
    OffsetsSnoc(lba, g, chain, c);
    hide Offsets, BlockOffsets;
  }

  /** Links one cluster to the end of a chain and clears it. */
  method LinkCluster(image: array<byte>, fat: array<byte>, lba: int, g: Geometry, previous: nat, c: nat)
    requires Fits(g, lba, image.Length) && fat != image && 2 <= c < g.Top() && 4 * c + 4 <= fat.Length
    requires 4 * previous + 4 <= fat.Length
    modifies image, fat
    ensures image[..] == PutBlock(old(image[..]), lba, g, c, Fill(0, g.BlockBytes()))
    ensures fat[..] == Extend(old(fat[..]), previous, c)
  {
    FitsBasics(g, lba, image.Length);
    BlockBounds(lba, g, image.Length, c);
    hide Fits, BlockOffset, SetEntry, Splice;
    SetFat(fat, previous, c);
    SetFat(fat, c, EOF);
    WriteAt(image, BlockOffset(lba, g, c), Fill(0, g.BlockBytes()));
  }

  /** Links cleared clusters to the directory until the free entries at its end suffice. */
  method GrowDirectory(image: array<byte>, fat: array<byte>, lba: int, g: Geometry, chain: seq<nat>, trailing: seq<nat>,
                       req: nat)
      returns (ok: bool, grown: seq<nat>, slots: seq<nat>)
    requires Fits(g, lba, image.Length) && fat.Length == g.FatBytes() && chain != [] && InRange(g, chain)
    requires fat != image
    requires |trailing| <= |Offsets(lba, g, chain)|
    requires trailing == Offsets(lba, g, chain)[|Offsets(lba, g, chain)| - |trailing|..]
    modifies image, fat
    ensures Growth(image[..], fat[..], grown, ok) == Grow(old(image[..]), lba, g, old(fat[..]), chain, |trailing|, req)
    ensures var start := |Offsets(lba, g, chain)| - |trailing|;
            InRange(g, grown) && (ok ==>
                                  start + req <= |Offsets(lba, g, grown)| &&
                                      slots == Offsets(lba, g, grown)[start..start + req])
  {
    hide Fits, Offsets, BlockOffset, InRange, Grow, Table, Allocate, PutBlock, Extend;
    FitsBasics(g, lba, image.Length);
    ghost var r := Grow(image[..], lba, g, fat[..], chain, |trailing|, req);
    ghost var start := |Offsets(lba, g, chain)| - |trailing|;
    grown, slots := chain, trailing;
    while |slots| < req
      invariant InRange(g, grown) && grown != []
      invariant |image[..]| == image.Length && |fat[..]| == fat.Length
      invariant start <= |Offsets(lba, g, grown)| && slots == Offsets(lba, g, grown)[start..]
      invariant Grow(image[..], lba, g, fat[..], grown, |slots|, req) == r
      decreases req - |slots|
    {
      GrowStopsShort(image[..], lba, g, fat[..], grown, |slots|, req);
      var previous := grown[|grown| - 1];
      var found := AllocateFat(fat, 1, g.Top());
      if found.None? { return false, grown, slots; }
      var c := found.value[0];
      OffsetsTail(lba, g, grown, c, start);
      LinkCluster(image, fat, lba, g, previous, c);
      grown := grown + [c];
      ghost var before := slots;
      for j := 0 to g.BlockSlots()
        invariant |slots| == |before| + j && (j > 0 ==> |slots| < req)
        invariant slots == before + BlockOffsets(lba, g, c)[..j]
      {
        slots := slots + [BlockOffset(lba, g, c) + 32 * j];
        if |slots| >= req {
          GrowNone(image[..], lba, g, fat[..], grown, |before| + g.BlockSlots(), req);
          FirstOfTail(Offsets(lba, g, grown), start, before, BlockOffsets(lba, g, c), slots, req);
          return true, grown, slots;
        }
      }
      assert BlockOffsets(lba, g, c)[..g.BlockSlots()] == BlockOffsets(lba, g, c);
    }
    GrowNone(image[..], lba, g, fat[..], grown, |slots|, req);
    ok := true;
    slots := slots[..req];
    SubWindow(Offsets(lba, g, grown), start, |Offsets(lba, g, grown)|, 0, req);
  }

  lemma {:induction false} FirstOfTail(offs: seq<nat>, start: nat, before: seq<nat>, block: seq<nat>, slots: seq<nat>,
                                       req: nat)
    requires start <= |offs| && offs[start..] == before + block && |slots| == req
    requires |before| <= req <= |before| + |block|
    requires slots == before + block[..req - |before|]
    ensures start + req <= |offs| && slots == offs[start..start + req]
  {
    var tail := offs[start..];
    assert slots == tail[..req];
    SubWindow(offs, start, |offs|, 0, req);
    assert offs[start..|offs|] == tail;
  }

  /** Reserves `req` consecutive entries, growing the directory if it must. */
  method FindSlots(image: array<byte>, fat: array<byte>, lba: int, g: Geometry, chain: seq<nat>, req: nat)
      returns (ok: bool, grown: seq<nat>, slots: seq<nat>)
    requires Fits(g, lba, image.Length) && fat.Length == g.FatBytes() && chain != [] && InRange(g, chain)
    requires fat != image && req > 0
    modifies image, fat
    ensures var p := Place(old(image[..]), lba, g, old(fat[..]), chain, req);
            && image[..] == p.image && fat[..] == p.fat && ok == p.ok && grown == p.chain
            && (ok ==> slots == Offsets(lba, g, p.chain)[p.start..p.start + req])
  {
    hide Fits, Offsets, DirSlots, InRange, FirstFit, Trailing, Grow;
    FitsBasics(g, lba, image.Length);
    var fits;
    fits, slots := ScanSlots(image, lba, g, chain, req);
    if fits { return true, chain, slots; }
    ok, grown, slots := GrowDirectory(image, fat, lba, g, chain, slots, req);
  }

  // ----- storing -----

  /** Frees the clusters of a chain. */
  method FreeChain(fat: array<byte>, ch: seq<nat>)
    requires forall i :: 0 <= i < |ch| ==> 4 * ch[i] + 4 <= fat.Length
    modifies fat
    ensures fat[..] == ReleaseFat(old(fat[..]), ch, |ch|)
  {
    hide SetEntry;
    for i := 0 to |ch|
      invariant fat[..] == ReleaseFat(old(fat[..]), ch, i)
    {
      SetFat(fat, ch[i], 0);
    }
  }

  /** Links the data clusters and writes the data into them, block by block. */
  method FillClusters(image: array<byte>, fat: array<byte>, lba: int, g: Geometry, cs: seq<nat>, data: seq<byte>)
    requires Fits(g, lba, image.Length) && InRange(g, cs) && fat != image && forall i :: 0 <= i < |cs| ==>
             4 * cs[i] + 4 <= fat.Length
    modifies image, fat
    ensures image[..] == PutData(old(image[..]), lba, g, cs, data, |cs|)
    ensures fat[..] == LinkFat(old(fat[..]), cs, |cs|)
  {
    hide Fits, SetEntry, Splice, BlockOffset, DataBlock;
    FitsBasics(g, lba, image.Length);
    for i := 0 to |cs|
      invariant image[..] == PutData(old(image[..]), lba, g, cs, data, i)
      invariant fat[..] == LinkFat(old(fat[..]), cs, i)
    {
      BlockBounds(lba, g, image.Length, cs[i]);
      SetFat(fat, cs[i], Successor(cs, i, EOF));
      WriteAt(image, BlockOffset(lba, g, cs[i]), DataBlock(data, g.BlockBytes(), i));
    }
  }

  method WriteEntries(image: array<byte>, slots: seq<nat>, raws: seq<seq<byte>>)
    requires |slots| == |raws| && InImage(slots, image.Length) && Whole(raws)
    modifies image
    ensures image[..] == PutEntries(old(image[..]), slots, raws, |raws|)
  {
    hide Splice;
    for i := 0 to |raws|
      invariant image[..] == PutEntries(old(image[..]), slots, raws, i)
    {
      WriteAt(image, slots[i], raws[i]);
    }
  }

  method WriteFats(image: array<byte>, lba: int, g: Geometry, fat: seq<byte>)
    requires Fits(g, lba, image.Length) && |fat| == g.FatBytes()
    modifies image
    ensures image[..] == PutFats(old(image[..]), lba, g, fat, g.fatCount)
  {
    hide Fits, Splice, FatOffset;
    FitsBasics(g, lba, image.Length);
    for i := 0 to g.fatCount
      invariant image[..] == PutFats(old(image[..]), lba, g, fat, i)
    {
      FatCopyBounds(lba, g, image.Length, i);
      WriteAt(image, FatOffset(lba, g, i), fat);
    }
  }

  /** The second half of an injection: entries, data, FATs. */
  method StoreFile(image: array<byte>, fat: array<byte>, lba: int, g: Geometry, d: nat, name: Name, alias: seq<byte>,
                   data: seq<byte>) returns (error: Option<Error>)
    requires Fits(g, lba, image.Length) && fat.Length == g.FatBytes() && fat != image && |alias| == 11
    modifies image, fat
    ensures Outcome(image[..], error) == Store(old(image[..]), lba, g, old(fat[..]), d, name, alias, data)
  {
    hide Fits, Offsets, InRange, Place, DirChain, Table, Allocate, PutData, LinkFat, PutEntries, PutFats, NewEntries,
         ShortEntry, Storable, Decodable, Needed, InImage, Whole;
    FitsBasics(g, lba, image.Length);
    if !Storable(name) || !Decodable(name) { return Some(BadLongName); }
    NameFits(name);
    var found := DirectoryChain(fat, g, d);
    if found.Err? { return Some(found.error); }
    var req := EntryCount(name) + 1;
    ghost var p := Place(image[..], lba, g, fat[..], found.value, req);
    var ok, chain, slots := FindSlots(image, fat, lba, g, found.value, req);
    if !ok { return Some(NoSpace); }
    var needed := Needed(|data|, g.BlockBytes());
    var free := AllocateFat(fat, needed, g.Top());
    if free.None? { return Some(NoSpace); }
    var cs := free.value;
    AllocatedInRange(Table(fat[..]), needed, g, fat.Length);
    FillClusters(image, fat, lba, g, cs, data);
    if |data| >= 0x1_0000_0000 { return Some(TooLarge); }
    var short := ShortEntry(alias, FirstOf(cs), |data|);
    var raws := NewEntries(name, short);
    WholeEntries(name, short);
    RunInImage(lba, g, chain, image.Length, p.start, req);
    WriteEntries(image, slots, raws);
    WriteFats(image, lba, g, fat[..]);
    return None;
  }

  lemma {:induction false} AllocatedInRange(t: seq<nat>, count: nat, g: Geometry, len: nat)
    requires g.Top() <= |t| && 4 * g.Top() <= len
    ensures Allocate(t, count, g.Top()).Some? ==>
              InRange(g, Allocate(t, count, g.Top()).value) &&
                  forall i :: 0 <= i < |Allocate(t, count, g.Top()).value| ==>
                      4 * Allocate(t, count, g.Top()).value[i] + 4 <= len
  {
  }

  lemma {:induction false} RunInImage(lba: int, g: Geometry, chain: seq<nat>, len: nat, start: nat, n: nat)
    requires Fits(g, lba, len) && InRange(g, chain) && start + n <= |Offsets(lba, g, chain)|
    ensures InImage(Offsets(lba, g, chain)[start..start + n], len)
  {
    OffsetsInImage(lba, g, chain, len);
    hide Offsets, Fits;
  }

  // ----- whole operations -----

  /** Follows the directory components from the root. */
  method ResolveDirectory(image: array<byte>, fat: array<byte>, lba: int, g: Geometry, parts: seq<Name>)
      returns (r: Result<nat, Error>)
    requires Fits(g, lba, image.Length) && 4 * g.Top() <= fat.Length
    ensures r == Resolve(image[..], lba, g, Table(fat[..]), parts, ROOT)
  {
    hide Fits, DirRecords, Table, FirstAnswer, Answers;
    var cluster := ROOT;
    ghost var img, t := image[..], Table(fat[..]);
    assert parts[0..] == parts;
    for i := 0 to |parts|
      invariant Resolve(img, lba, g, t, parts[i..], cluster) == Resolve(img, lba, g, t, parts, ROOT)
    {
      var part := parts[i];
      assert parts[i..][0] == part && parts[i..][1..] == parts[i + 1..];
      if part == [] || part == DOT || part == DOTDOT { return Err(BadPath); }
      var listed := ReadRecords(image, fat, lba, g, cluster);
      if listed.Err? { return Err(listed.error); }
      var k := FirstAnswer(listed.value, part);
      if k.None? || !listed.value[k.value].IsDirectory() { return Err(NoDirectory); }
      cluster := listed.value[k.value].cluster;
    }
    return Ok(cluster);
  }

  /** Loads the first FAT into an array of its own. */
  method LoadFat(image: array<byte>, lba: int, g: Geometry) returns (fat: array<byte>)
    requires Fits(g, lba, image.Length)
    ensures fresh(fat) && fat[..] == FatImage(image[..], lba, g) && fat.Length == g.FatBytes()
    ensures 4 * g.Top() <= fat.Length
  {
    FatCopyBounds(lba, g, image.Length, 0);
    FitsBasics(g, lba, image.Length);
    hide Fits, FatOffset;
    var lo := FatOffset(lba, g, 0);
    assert image[..][lo..lo + g.FatBytes()] == image[lo..lo + g.FatBytes()];
    fat := ToArray(image[lo..lo + g.FatBytes()]);
    assert |fat[..]| == fat.Length;
  }

  /** Injects into a directory: refuses, replaces or adds. */
  method InjectInDirectory(image: array<byte>, fat: array<byte>, lba: int, g: Geometry, d: nat, q: Request)
      returns (error: Option<Error>)
    requires Fits(g, lba, image.Length) && fat.Length == g.FatBytes() && fat != image
    requires fat[..] == FatImage(image[..], lba, g)
    modifies image, fat
    ensures Outcome(image[..], error) == InjectInto(old(image[..]), lba, g, d, q)
  {
    hide Fits, DirRecords, Table, FirstExisting, Requested, Alias, FileChain, Store, ReleaseFat, Wipe, FatImage,
         AreaStart, AreaEnd;
    FitsBasics(g, lba, image.Length);
    var listed := ReadRecords(image, fat, lba, g, d);
    if listed.Err? { return Some(listed.error); }
    var recs := listed.value;
    var requested := Requested(q);
    if q.fatName != [] && requested.None? { return Some(BadAlias); }
    var existing := FirstExisting(recs, q.name, requested);
    match existing
    case Some(k) =>
      if !q.replace { return Some(AlreadyExists); }
      error := ReplaceFile(image, fat, lba, g, d, recs[k], q);
    case None =>
      var alias := requested;
      if requested.None? { alias := MakeAlias(q.upper(q.name), AliasesOf(recs)); }
      if alias.None? { return Some(NoAlias); }
      RequestedGood(q);
      error := StoreFile(image, fat, lba, g, d, q.name, alias.value, q.data);
  }

  /** Frees the old chain, marks the old entries deleted and stores the file again. */
  method ReplaceFile(image: array<byte>, fat: array<byte>, lba: int, g: Geometry, d: nat, victim: Record, q: Request)
      returns (error: Option<Error>)
    requires Fits(g, lba, image.Length) && fat.Length == g.FatBytes() && fat != image && |victim.alias| == 11
    requires victim.offset + 32 <= image.Length
    modifies image, fat
    ensures Outcome(image[..], error) == Replace(old(image[..]), lba, g, old(fat[..]), d, victim, q)
  {
    hide Fits, Table, Store, ReleaseFat, Splice;
    FitsBasics(g, lba, image.Length);
    ChainFromSound(Table(fat[..]), victim.cluster, g.Top(), EOF);
    var walked := WalkFat(fat, victim.cluster, g.Top());
    if walked.None? { return Some(BadChain); }
    FreeChain(fat, walked.value);
    if victim.lfnStart < victim.offset + 32 {
      WriteAt(image, victim.lfnStart, Fill(DELETED, victim.offset + 32 - victim.lfnStart));
    }
    error := StoreFile(image, fat, lba, g, d, q.name, victim.alias, q.data);
  }

  /** Injects a file at a path; the image array is changed in place and the error, if any, returned. */
  method InjectFile(image: array<byte>, lba: int, path: Name, q: Request) returns (error: Option<Error>)
    requires q.name == FileNameOf(path)
    modifies image
    ensures Outcome(image[..], error) == Inject(old(image[..]), lba, path, q)
  {
    hide ReadGeometry, Fits, Table, InjectInto, Resolve, FatImage, DirectoryOf, FileNameOf;
    if path == [] || path[|path| - 1] in {SLASH, BACKSLASH} { return Some(BadPath); }
    var geometry := ReadGeometry(image[..], lba);
    if geometry.Err? { return Some(geometry.error); }
    var g := geometry.value;
    var fat := LoadFat(image, lba, g);
    var d := ResolveDirectory(image, fat, lba, g, DirectoryOf(path));
    if d.Err? { return Some(d.error); }
    error := InjectInDirectory(image, fat, lba, g, d.value, q);
  }

  /** The bytes of a chain, cluster after cluster. */
  method ReadChain(image: array<byte>, lba: int, g: Geometry, ch: seq<nat>) returns (r: seq<byte>)
    requires Fits(g, lba, image.Length) && InRange(g, ch)
    ensures r == Blocks(image[..], lba, g, ch)
  {
    hide Fits, BlockOffset, Blocks;
    FitsBasics(g, lba, image.Length);
    r := [];
    ghost var img := image[..];
    assert ch[0..] == ch;
    for i := 0 to |ch|
      invariant InRange(g, ch[i..]) && r + Blocks(img, lba, g, ch[i..]) == Blocks(img, lba, g, ch)
    {
      BlockBounds(lba, g, image.Length, ch[i]);
      BlocksStep(img, lba, g, ch, i);
      var lo := BlockOffset(lba, g, ch[i]);
      assert img[lo..lo + g.BlockBytes()] == image[lo..lo + g.BlockBytes()];
      ConcatAssoc(r, Block(img, lba, g, ch[i]), Blocks(img, lba, g, ch[i + 1..]));
      r := r + image[lo..lo + g.BlockBytes()];
    }
    BlocksDone(img, lba, g, ch);
  }

  lemma {:induction false} BlocksStep(image: seq<byte>, lba: int, g: Geometry, ch: seq<nat>, i: nat)
    requires Fits(g, lba, |image|) && InRange(g, ch) && i < |ch|
    ensures InRange(g, ch[i..]) && InRange(g, ch[i + 1..])
    ensures Blocks(image, lba, g, ch[i..]) == Block(image, lba, g, ch[i]) + Blocks(image, lba, g, ch[i + 1..])
  {
    hide Block, Fits;
    assert ch[i..][0] == ch[i] && ch[i..][1..] == ch[i + 1..];
  }

  lemma {:induction false} BlocksDone(image: seq<byte>, lba: int, g: Geometry, ch: seq<nat>)
    requires Fits(g, lba, |image|) && InRange(g, ch)
    ensures InRange(g, ch[|ch|..]) && Blocks(image, lba, g, ch[|ch|..]) == []
  {
  }

  /** Reads the file at a path. */
  method ReadPath(image: array<byte>, lba: int, path: Name) returns (r: Result<seq<byte>, Error>)
    ensures r == ReadFile(image[..], lba, path)
  {
    hide ReadGeometry, Fits, Table, Resolve, FatImage, DirectoryOf, FileNameOf, DirRecords, FirstAnswer, Answers,
         Blocks;
    var geometry := ReadGeometry(image[..], lba);
    if geometry.Err? { return Err(geometry.error); }
    var g := geometry.value;
    var fat := LoadFat(image, lba, g);
    var d := ResolveDirectory(image, fat, lba, g, DirectoryOf(path));
    if d.Err? { return Err(d.error); }
    var listed := ReadRecords(image, fat, lba, g, d.value);
    if listed.Err? { return Err(listed.error); }
    var k := FirstAnswer(listed.value, FileNameOf(path));
    if k.None? || listed.value[k.value].IsDirectory() { return Err(NotFound); }
    var record := listed.value[k.value];
    ChainFromSound(Table(fat[..]), record.cluster, g.Top(), EOF);
    var walked := WalkFat(fat, record.cluster, g.Top());
    if walked.None? { return Err(BadChain); }
    var bytes := ReadChain(image, lba, g, walked.value);
    if |bytes| < record.size { return Err(Incomplete); }
    return Ok(bytes[..record.size]);
  }
}
