/** The FAT12 operations as the tool runs them: in place on byte arrays. */
module Fat12Engine {
  import opened Bytes
  import opened Chains
  import opened DataBlocks
  import opened Fat12Table
  import opened Fat12Volume
  import opened Fat12Files
  import Fat12Runs
  import Fat12Writes
  import LongNames

  /** The bytes of slot `i` as the array holds them. */
  lemma {:induction false} SlotBytes(image: seq<byte>, g: Geometry, i: nat)
    requires Fits(g, |image|) && i < g.rootEntries
    ensures var o := SlotAt(g, i);
            && o + SLOT <= |image| && Slots(image, g)[i] == image[o..o + SLOT]
            && image[o] == Slots(image, g)[i][0] && image[o + 11] == Slots(image, g)[i][11]
            && image[o..o + 11] == Slots(image, g)[i][..11]
  {
    SlotBounds(g, |image|, i);
    hide Fits, SlotAt;
  }

  method FindRootEntry(image: array<byte>, g: Geometry, name: seq<byte>) returns (r: Option<nat>)
    requires Fits(g, image.Length) && |name| == 11
    ensures r == FindEntry(Slots(image[..], g), name)
  {
    hide Fits, SlotAt, Slot, Bit;
    ghost var slots := Slots(image[..], g);
    var i := 0;
    while i < g.rootEntries
      invariant 0 <= i <= g.rootEntries
      invariant FindFrom(slots, name, i) == FindFrom(slots, name, 0)
      decreases g.rootEntries - i
    {
      SlotBytes(image[..], g, i);
      var o := SlotAt(g, i);
      var first := image[o];
      if first == 0 { return None; }
      if first != FREE_SLOT && !Bit(image[o + 11], 8) && image[o..o + 11] == name { return Some(i); }
      i := i + 1;
    }
    return None;
  }

  method FindRootSlot(image: array<byte>, g: Geometry) returns (r: Option<nat>)
    requires Fits(g, image.Length)
    ensures r == FreeSlotFrom(Slots(image[..], g), 0)
  {
    hide Fits, SlotAt, Slot;
    ghost var slots := Slots(image[..], g);
    var i := 0;
    while i < g.rootEntries
      invariant 0 <= i <= g.rootEntries
      invariant FreeSlotFrom(slots, i) == FreeSlotFrom(slots, 0)
      decreases g.rootEntries - i
    {
      SlotBytes(image[..], g, i);
      var o := SlotAt(g, i);
      if image[o] == 0 || image[o] == FREE_SLOT { return Some(i); }
      i := i + 1;
    }
    return None;
  }

  /** Frees a chain in the packed bytes while walking it. */
  method ReleaseChainInPlace(fat: array<byte>, first: nat, top: nat) returns (error: Option<Error>)
    modifies fat
    ensures Freed(fat[..], error) == Free(old(fat[..]), first, top)
  {
    hide Put, Get, Holds;
    if first == 0 { return None; }
    if first < 2 || first >= top { return Some(BadChain); }
    var cluster: nat := first;
    var visited: seq<nat> := [];
    while 2 <= cluster < LEAST_EOF
      invariant FreeWalk(fat[..], cluster, top, visited) == FreeWalk(old(fat[..]), first, top, [])
      decreases Unseen(visited, top)
    {
      if cluster in visited || cluster >= top { return Some(BadChain); }
      if !Holds(fat.Length, cluster) { return Some(TableTooSmall); }
      assert cluster in Unseen(visited, top) && cluster !in Unseen(visited + [cluster], top);
      var next := Get(fat[..], cluster);
      SetEntry(fat, cluster, 0);
      visited := visited + [cluster];
      cluster := next;
    }
    error := if cluster >= LEAST_EOF then None else Some(BadChain);
  }

  method LinkClusters(fat: array<byte>, cs: seq<nat>)
    requires forall i :: 0 <= i < |cs| ==> cs[i] < Count(fat.Length)
    modifies fat
    ensures fat[..] == LinkFat(old(fat[..]), cs, |cs|)
  {
    hide Put;
    for i := 0 to |cs|
      invariant fat[..] == LinkFat(old(fat[..]), cs, i)
    {
      HoldsCount(fat.Length, cs[i]);
      SetEntry(fat, cs[i], if i + 1 < |cs| then cs[i + 1] else EOF);
    }
  }

  lemma {:induction false} FreeStep(t: seq<nat>, selected: seq<nat>, i: nat, top: nat)
    requires i < top <= |t|
    ensures selected + Chains.FreeFrom(t, i, top) == (if t[i] == 0 then selected + [i] else selected)
            + Chains.FreeFrom(t, i + 1, top)
  {
    if t[i] == 0 { ConcatAssoc(selected, [i], Chains.FreeFrom(t, i + 1, top)); }
  }

  lemma {:induction false} FreeEnds(t: seq<nat>, selected: seq<nat>, i: nat, top: nat)
    requires top <= |t| && top <= i
    ensures selected + Chains.FreeFrom(t, i, top) == selected
  {
  }

  /** Collects every free cluster, then keeps the first `count`. */
  method AllocateClusters(fat: seq<byte>, count: nat, top: nat) returns (r: Option<seq<nat>>)
    requires top <= Count(|fat|)
    ensures r == Allocate(Table(fat), count, top)
  {
    hide Get, Table, Count, Holds, Chains.FreeFrom;
    ghost var t := Table(fat);
    TableAt(fat, 0);
    var selected: seq<nat> := [];
    var i: nat := 2;
    assert [] + Chains.FreeFrom(t, 2, top) == Chains.FreeFrom(t, 2, top);
    while i < top
      invariant i >= 2
      invariant selected + Chains.FreeFrom(t, i, top) == Chains.FreeFrom(t, 2, top)
      decreases top - i
    {
      TableAt(fat, i);
      FreeStep(t, selected, i, top);
      if Get(fat, i) == 0 { selected := selected + [i]; }
      i := i + 1;
    }
    FreeEnds(t, selected, i, top);
    if |selected| < count { return None; }
    return Some(selected[..count]);
  }

  method LoadFat(image: array<byte>, g: Geometry, k: nat) returns (r: Option<array<byte>>)
    requires Fits(g, image.Length) && image.Length >= SECTOR && k < g.fatCount
    ensures r.Some? ==> fresh(r.value) && Prepare(FatCopy(image[..], g, k), image[21]) == Some(r.value[..])
    ensures r.None? ==> Prepare(FatCopy(image[..], g, k), image[21]).None?
  {
    FatBounds(g, image.Length, k);
    var start, len := FatAt(g, k), g.FatBytes();
    assert len >= SECTOR;
    hide FatAt, Get;
    var fat := ToArray(image[start..start + len]);
    ghost var loaded := fat[..];
    assert loaded == FatCopy(image[..], g, k) == image[..][start..start + len];
    hide Fits, g.FatBytes;
    var zero := true;
    for i := 0 to fat.Length
      invariant zero <==> forall j :: 0 <= j < i ==> fat[j] == 0
    {
      if fat[i] != 0 { zero := false; }
    }
    assert zero <==> AllZero(loaded);
    if zero {
      fat[0], fat[1], fat[2] := image[21], 0xFF, 0xFF;
      assert fat[..] == [image[21], 0xFF, 0xFF] + loaded[3..];
    }
    if fat[0] != image[21] || Get(fat[..], 1) < LEAST_EOF { return None; }
    return Some(fat);
  }

  // ----- several copies at once -----

  /** Different arrays, none of them `other`. */
  ghost predicate Separate(fats: seq<array<byte>>, other: array<byte>) {
    && (forall j, k :: 0 <= j < k < |fats| ==> fats[j] != fats[k])
    && forall k :: 0 <= k < |fats| ==> fats[k] != other
  }

  ghost function Contents(fats: seq<array<byte>>): (r: seq<seq<byte>>)
    reads set k | 0 <= k < |fats| :: fats[k]
    ensures |r| == |fats| && forall k :: 0 <= k < |fats| ==> r[k] == fats[k][..]
  {
    seq(|fats|, k requires 0 <= k < |fats| reads set j | 0 <= j < |fats| :: fats[j] => fats[k][..])
  }

  method PrepareAll(image: array<byte>, g: Geometry) returns (ok: bool, fats: seq<array<byte>>)
    requires Fits(g, image.Length) && image.Length >= SECTOR
    ensures ok ==> Separate(fats, image) && (forall k :: 0 <= k < |fats| ==> fresh(fats[k]))
    ensures ok ==> PrepareFats(image[..], g, g.fatCount) == Some(Contents(fats))
    ensures !ok ==> PrepareFats(image[..], g, g.fatCount) == None
  {
    hide Fits, Prepare, FatCopy;
    fats := [];
    assert Contents(fats) == [];
    for k := 0 to g.fatCount
      invariant |fats| == k && Separate(fats, image) && (forall j :: 0 <= j < k ==> fresh(fats[j]))
      invariant PrepareFats(image[..], g, k) == Some(Contents(fats))
    {
      ghost var before := Contents(fats);
      var fat := LoadFat(image, g, k);
      if fat.None? {
        NotPrepared(image[..], g, k + 1, g.fatCount);
        return false, fats;
      }
      fats := fats + [fat.value];
      assert Contents(fats) == before + [fat.value[..]];
    }
    ok := true;
  }

  lemma {:induction false} NotPrepared(image: seq<byte>, g: Geometry, k: nat, n: nat)
    requires Fits(g, |image|) && |image| >= SECTOR && k <= n <= g.fatCount && PrepareFats(image, g, k).None?
    ensures PrepareFats(image, g, n).None?
    decreases n
  {
    hide Prepare, Fits, FatCopy;
    if k < n { NotPrepared(image, g, k, n - 1); }
  }

  lemma {:induction false} NotFreed(fats: seq<seq<byte>>, first: nat, top: nat, len: nat, k: nat, n: nat)
    requires k <= n <= |fats| && AreFats(fats, len) && FreeAll(fats, first, top, len, k).Err?
    ensures FreeAll(fats, first, top, len, n) == FreeAll(fats, first, top, len, k)
    decreases n
  {
    hide Free;
    if k < n { NotFreed(fats, first, top, len, k, n - 1); }
  }

  method ReleaseAll(fats: seq<array<byte>>, first: nat, top: nat, len: nat, ghost other: array<byte>)
      returns (error: Option<Error>)
    requires Separate(fats, other) && AreFats(Contents(fats), len)
    modifies set k | 0 <= k < |fats| :: fats[k]
    ensures match FreeAll(old(Contents(fats)), first, top, len, |fats|)
            case Err(e) => error == Some(e)
            case Ok(freed) => error == None && Contents(fats) == freed
  {
    hide Free;
    ghost var start := Contents(fats);
    for k := 0 to |fats|
      invariant FreeAll(start, first, top, len, k) == Ok(Contents(fats))
    {
      ghost var before := Contents(fats);
      error := ReleaseChainInPlace(fats[k], first, top);
      if error.Some? {
        NotFreed(start, first, top, len, k + 1, |fats|);
        return;
      }
      assert Contents(fats) == before[k := fats[k][..]];
    }
    error := None;
  }

  method LinkEvery(fats: seq<array<byte>>, cs: seq<nat>, len: nat, ghost other: array<byte>)
    requires Separate(fats, other) && AreFats(Contents(fats), len) && forall i :: 0 <= i < |cs| ==> cs[i] < Count(len)
    modifies set k | 0 <= k < |fats| :: fats[k]
    ensures Contents(fats) == LinkAll(old(Contents(fats)), cs, len)
  {
    hide LinkFat;
    ghost var start := Contents(fats);
    for k := 0 to |fats|
      invariant forall j :: 0 <= j < |fats| ==> fats[j][..] == if j < k then LinkFat(start[j], cs, |cs|) else start[j]
    {
      LinkClusters(fats[k], cs);
    }
  }

  method WriteBlocks(image: array<byte>, g: Geometry, cs: seq<nat>, data: seq<byte>)
    requires Fits(g, image.Length) && InRange(g, cs)
    modifies image
    ensures image[..] == PutBlocks(old(image[..]), g, cs, data, |cs|)
  {
    hide Fits, DataBlock, BlockAt, g.BlockBytes, Splice;
    for i := 0 to |cs|
      invariant image[..] == PutBlocks(old(image[..]), g, cs, data, i)
    {
      BlockBounds(g, image.Length, cs[i]);
      WriteAt(image, BlockAt(g, cs[i]), DataBlock(data, g.BlockBytes(), i));
    }
  }

  method WriteFats(image: array<byte>, g: Geometry, fats: seq<array<byte>>)
    requires Fits(g, image.Length) && Separate(fats, image) && |fats| == g.fatCount
    requires AreFats(Contents(fats), g.FatBytes())
    modifies image
    ensures image[..] == PutFats(old(image[..]), g, Contents(fats), g.fatCount)
  {
    hide Fits, FatAt, g.FatBytes, Splice, g.RootStart, g.DataStart, PutFats, AreFats;
    ghost var was, contents := image[..], Contents(fats);
    PutFatsNone(was, g, contents);
    for k := 0 to g.fatCount
      invariant image[..] == PutFats(was, g, contents, k) && Contents(fats) == contents
    {
      PutFatsStep(was, g, contents, k);
      WriteAt(image, FatAt(g, k), fats[k][..]);
    }
  }

  lemma {:induction false} PutFatsNone(image: seq<byte>, g: Geometry, fats: seq<seq<byte>>)
    requires Fits(g, |image|) && |fats| == g.fatCount && AreFats(fats, g.FatBytes())
    ensures PutFats(image, g, fats, 0) == image
  {
  }

  lemma {:induction false} PutFatsStep(image: seq<byte>, g: Geometry, fats: seq<seq<byte>>, k: nat)
    requires Fits(g, |image|) && |fats| == g.fatCount && AreFats(fats, g.FatBytes()) && k < g.fatCount
    ensures FatAt(g, k) + |fats[k]| <= |image|
    ensures PutFats(image, g, fats, k + 1) == Splice(PutFats(image, g, fats, k), FatAt(g, k), fats[k])
  {
    FatBounds(g, |image|, k);
  }

  // ----- the operations -----

  lemma {:induction false} StoreUnfold(image: seq<byte>, g: Geometry, fats: seq<seq<byte>>, k: nat, name: seq<byte>,
                                       data: seq<byte>, cs: seq<nat>)
    requires Fits(g, |image|) && g.Roomy() && |fats| == g.fatCount && AreFats(fats, g.FatBytes()) && g.BlockBytes() > 0
    requires k < g.rootEntries && |name| == 11 && data != []
    requires Allocate(Table(fats[0]), Needed(|data|, g.BlockBytes()), g.Top()) == Some(cs) && |data| < 0x1_0000_0000
    ensures InRange(g, cs) && cs != [] && cs[0] < 0x1_0000
    ensures (forall i :: 0 <= i < |cs| ==> cs[i] < Count(g.FatBytes()))
    ensures SlotAt(g, k) + SLOT <= |image|
    ensures var linked := PutFats(PutBlocks(image, g, cs, data, |cs|), g, LinkAll(fats, cs, g.FatBytes()), g.fatCount);
            Store(image, g, fats, k, name, data) == Ok(Splice(linked, SlotAt(g, k), RootEntry(name, cs[0], |data|)))
  {
    NeededCovers(|data|, g.BlockBytes());
    SlotBounds(g, |image|, k);
    hide Table, Needed, PutFats, PutBlocks, LinkAll, RootEntry, Splice, SlotAt;
  }

  /** The entry: cleared, then name, attribute, first cluster and size. */
  method WriteEntry(image: array<byte>, at: nat, name: seq<byte>, first: nat, size: nat)
    requires at + SLOT <= image.Length && |name| == 11 && first < 0x1_0000 && size < 0x1_0000_0000
    modifies image
    ensures image[..] == Splice(old(image[..]), at, RootEntry(name, first, size))
  {
    WriteAt(image, at, Fill(0, SLOT));
    WriteAt(image, at, name);
    image[at + 11] := ATTR_ARCHIVE;
    WriteAt(image, at + 26, Le16(first));
    WriteAt(image, at + 28, Le32(size));
    ghost var e := RootEntry(name, first, size);
    hide Le16, Le32;
    assert forall i :: 0 <= i < SLOT ==> image[at + i] == e[i];
    assert forall i :: 0 <= i < image.Length && !(at <= i < at + SLOT) ==> image[i] == old(image[i]);
  }

  /** Allocates, links and writes; on a refusal the image is as it was. */
  method StoreFile(image: array<byte>, g: Geometry, fats: seq<array<byte>>, k: nat, name: seq<byte>, data: seq<byte>)
      returns (err: Option<Error>)
    requires Fits(g, image.Length) && g.Roomy() && Separate(fats, image) && |fats| == g.fatCount
    requires AreFats(Contents(fats), g.FatBytes())
    requires k < g.rootEntries && |name| == 11 && data != [] && g.BlockBytes() > 0
    modifies image, set j | 0 <= j < |fats| :: fats[j]
    ensures match Store(old(image[..]), g, old(Contents(fats)), k, name, data)
            case Err(e) => err == Some(e)
            case Ok(image') => err == None && image[..] == image'
  {
    hide Fits, Table, Needed, PutFats, PutBlocks, LinkAll, RootEntry, Splice, SlotAt, AreFats, g.FatBytes, Count,
         InRange;
    ghost var start, tables := image[..], Contents(fats);
    var first := FirstOf(fats, g, image.Length);
    var cs := AllocateClusters(first, Needed(|data|, g.BlockBytes()), g.Top());
    if cs.None? { return Some(NoSpace); }
    if |data| >= 0x1_0000_0000 { return Some(TooLarge); }
    StoreUnfold(start, g, tables, k, name, data, cs.value);
    LinkEvery(fats, cs.value, g.FatBytes(), image);
    WriteBlocks(image, g, cs.value, data);
    WriteFats(image, g, fats);
    WriteEntry(image, SlotAt(g, k), name, cs.value[0], |data|);
    return None;
  }

  method FirstOf(fats: seq<array<byte>>, g: Geometry, len: nat) returns (r: seq<byte>)
    requires Fits(g, len) && |fats| == g.fatCount && AreFats(Contents(fats), g.FatBytes()) && g.Roomy()
    ensures |fats| > 0 && r == Contents(fats)[0] && |r| == g.FatBytes() && g.Top() <= Count(|r|)
  {
    r := fats[0][..];
  }

  /** The command: works on a copy and writes the file back only when everything succeeded. */
  method InjectFile(file: array<byte>, data: seq<byte>, upper: LongNames.Name, replace: bool)
      returns (err: Option<Error>)
    modifies file
    ensures match Inject(old(file[..]), data, upper, replace)
            case Err(e) => err == Some(e) && file[..] == old(file[..])
            case Ok(image') => err == None && file[..] == image'
  {
    hide ReadGeometry, LongNames.NameTo83, InjectNamed, Fits;
    if data == [] { return Some(EmptyFile); }
    var image := ToArray(file[..]);
    var geometry := ReadGeometry(image[..]);
    if geometry.Err? { return Some(geometry.error); }
    var g := geometry.value;
    var name := LongNames.NameTo83(upper);
    if name.None? { return Some(BadAlias); }
    err := InjectInto(image, g, name.value, data, replace);
    if err == None {
      WriteAt(file, 0, image[..]);
      assert file[..] == image[..];
    }
  }

  method InjectInto(image: array<byte>, g: Geometry, name: seq<byte>, data: seq<byte>, replace: bool)
      returns (err: Option<Error>)
    requires Fits(g, image.Length) && image.Length >= SECTOR && |name| == 11 && data != []
    modifies image
    ensures match InjectNamed(old(image[..]), g, name, data, replace)
            case Err(e) => err == Some(e)
            case Ok(image') => err == None && image[..] == image'
  {
    hide Fits, FindEntry, FreeSlotFrom, PrepareFats, FreeAll, Store, Slot, First, g.Roomy, g.FatBytes, Count, AreFats,
         g.Top, g.BlockBytes, SlotAt;
    BlockPositive(g, image.Length);
    ghost var start := image[..];
    ghost var slots := Slots(start, g);
    var existing := FindRootEntry(image, g, name);
    if existing.Some? && !replace { return Some(AlreadyExists); }
    var slot := existing;
    if existing.None? { slot := FindRootSlot(image, g); }
    if slot.None? { return Some(RootFull); }
    var k := slot.value;
    var ok, fats := PrepareAll(image, g);
    if !ok { return Some(NotFormatted); }
    if existing.Some? {
      SlotBytes(start, g, k);
      var first := FirstAt(image, g, k);
      err := ReleaseAll(fats, first, g.Top(), g.FatBytes(), image);
      if err.Some? { return; }
    }
    if !g.Roomy() { return Some(TableTooSmall); }
    RoomyTop(g);
    err := StoreFile(image, g, fats, k, name, data);
  }

  method FirstAt(image: array<byte>, g: Geometry, k: nat) returns (first: nat)
    requires Fits(g, image.Length) && k < g.rootEntries
    ensures first == First(Slot(image[..], g, k))
  {
    SlotBounds(g, image.Length, k);
    hide Fits, SlotAt;
    var o := SlotAt(g, k);
    assert Slot(image[..], g, k) == image[o..o + SLOT];
    first := U16(image[o..o + SLOT], 26);
  }

  lemma {:induction false} RoomyTop(g: Geometry)
    requires g.Roomy()
    ensures g.Top() <= Count(g.FatBytes())
  {
  }

  /** Initialises every FAT copy in place. */
  method FormatLegacy(image: array<byte>) returns (err: Option<Error>)
    modifies image
    ensures match Fat12Runs.Format(old(image[..]))
            case Err(e) => err == Some(e) && image[..] == old(image[..])
            case Ok(image') => err == None && image[..] == image'
  {
    hide ReadGeometry, Fat12Runs.EmptyFats, Fat12Runs.EmptyFat, Fits, FatAt, Geometry.FatBytes, Splice,
         Geometry.RootStart, Geometry.DataStart;
    var geometry := ReadGeometry(image[..]);
    if geometry.Err? { return Some(geometry.error); }
    var g, media := geometry.value, image[21];
    FatSectors(g, image.Length);
    ghost var fats := Fat12Runs.EmptyFats(g, media);
    for k := 0 to g.fatCount
      invariant image[..] == PutFats(old(image[..]), g, fats, k) && (k < g.fatCount ==> image[21] == media)
    {
      FatBounds(g, image.Length, k);
      KeepsMedia(old(image[..]), g, fats, k + 1);
      WriteAt(image, FatAt(g, k), Fat12Runs.EmptyFat(g, image[21]));
    }
    return None;
  }

  lemma {:induction false} FatSectors(g: Geometry, len: nat)
    requires Fits(g, len)
    ensures g.spf >= 1 && g.fatCount >= 1
  {
  }

  lemma {:induction false} KeepsMedia(image: seq<byte>, g: Geometry, fats: seq<seq<byte>>, n: nat)
    requires Fits(g, |image|) && |image| >= SECTOR && |fats| == g.fatCount && AreFats(fats, g.FatBytes())
    requires n <= g.fatCount
    ensures PutFats(image, g, fats, n)[21] == image[21]
  {
    Fat12Writes.PutFatsAgree(image, g, fats, n);
    hide Fits, PutFats, g.RootStart;
  }

  /** What is still to come after `result`. */
  ghost predicate Continues(whole: Option<seq<byte>>, result: seq<byte>, rest: Option<seq<byte>>) {
    whole == match rest case None => None case Some(r) => Some(result + r)
  }

  lemma {:induction false} ReadUnfold(image: seq<byte>, g: Geometry, t: seq<nat>, cluster: nat, steps: nat)
    ensures !(2 <= cluster < LEAST_EOF && steps <= g.clusters) ==> ReadFrom(image, g, t, cluster, steps) == Some([])
    ensures 2 <= cluster < LEAST_EOF && steps <= g.clusters && cluster >= |t| ==>
            ReadFrom(image, g, t, cluster, steps) == None
    ensures 2 <= cluster < LEAST_EOF && steps <= g.clusters && cluster < |t| ==>
      ReadFrom(image, g, t, cluster, steps)
      == match ReadFrom(image, g, t, t[cluster], steps + 1)
         case None => None
         case Some(rest) => Some(Window(image, BlockAt(g, cluster), g.BlockBytes()) + rest)
  {
    hide Window, BlockAt;
  }

  lemma {:induction false} TableAt(fat: seq<byte>, i: nat)
    ensures |Table(fat)| == Count(|fat|)
    ensures i < Count(|fat|) ==> Holds(|fat|, i) && Table(fat)[i] == Get(fat, i)
  {
    HoldsCount(|fat|, i);
    hide Get, Count, Holds;
  }

  method ReadClusters(image: array<byte>, g: Geometry, fat: seq<byte>, first: nat) returns (r: Option<seq<byte>>)
    ensures r == ReadFrom(image[..], g, Table(fat), first, 0)
  {
    hide BlockAt, g.BlockBytes, Get, Holds, Count, Table, ReadFrom, Continues, Window;
    ghost var t := Table(fat);
    var result: seq<byte> := [];
    var cluster, steps := first, 0;
    ContinuesEnds(ReadFrom(image[..], g, t, first, 0), result);
    while 2 <= cluster < LEAST_EOF && steps <= g.clusters
      invariant cluster >= 0 && 0 <= steps <= g.clusters + 1
      invariant Continues(ReadFrom(image[..], g, t, first, 0), result, ReadFrom(image[..], g, t, cluster, steps))
      decreases g.clusters + 1 - steps
    {
      ReadUnfold(image[..], g, t, cluster, steps);
      TableAt(fat, cluster);
      if cluster >= Count(|fat|) {
        ContinuesNowhere(ReadFrom(image[..], g, t, first, 0), result);
        return None;
      }
      var bytes := Window(image[..], BlockAt(g, cluster), g.BlockBytes());
      StillContinues(ReadFrom(image[..], g, t, first, 0), result, bytes,
                     ReadFrom(image[..], g, t, t[cluster], steps + 1));
      result := result + bytes;
      cluster := Get(fat, cluster);
      steps := steps + 1;
    }
    ReadUnfold(image[..], g, t, cluster, steps);
    ContinuesEnds(ReadFrom(image[..], g, t, first, 0), result);
    return Some(result);
  }

  lemma {:induction false} ContinuesNowhere(whole: Option<seq<byte>>, result: seq<byte>)
    requires Continues(whole, result, None)
    ensures whole == None
  {
  }

  lemma {:induction false} ContinuesEnds(whole: Option<seq<byte>>, result: seq<byte>)
    ensures Continues(whole, [], whole)
    ensures Continues(whole, result, Some([])) ==> whole == Some(result)
  {
    if whole.Some? { assert [] + whole.value == whole.value; }
    assert result + [] == result;
  }

  lemma {:induction false} StillContinues(whole: Option<seq<byte>>, result: seq<byte>, bytes: seq<byte>,
                                          rest: Option<seq<byte>>)
    requires Continues(whole, result, match rest case None => None case Some(r) => Some(bytes + r))
    ensures Continues(whole, result + bytes, rest)
  {
    if rest.Some? { ConcatAssoc(result, bytes, rest.value); }
  }

  method ReadRootFile(image: array<byte>, upper: LongNames.Name) returns (r: Result<seq<byte>, Error>)
    ensures r == ReadRoot(image[..], upper)
  {
    hide ReadGeometry, LongNames.NameTo83, Fits, FindEntry, ReadFrom, Table, FatCopy, Slot, SlotAt;
    var geometry := ReadGeometry(image[..]);
    if geometry.Err? { return Err(geometry.error); }
    var g := geometry.value;
    var name := LongNames.NameTo83(upper);
    if name.None? { return Err(BadAlias); }
    FatSectors(g, image.Length);
    var i := FindRootEntry(image, g, name.value);
    if i.None? { return Err(NotFound); }
    var slot := Slot(image[..], g, i.value);
    var bytes := ReadClusters(image, g, FatCopy(image[..], g, 0), First(slot));
    if bytes.None? { return Err(TableTooSmall); }
    if |bytes.value| < Size(slot) { return Err(Incomplete); }
    return Ok(bytes.value[..Size(slot)]);
  }
}
