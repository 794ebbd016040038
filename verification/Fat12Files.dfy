/** Injecting a file into the root directory of a FAT12 image, and reading one back. */
module Fat12Files {
  import opened Bytes
  import opened Chains
  import opened DataBlocks
  import opened Fat12Table
  import opened Fat12Volume
  import LongNames

  /** An all-zero FAT gets the media byte and the end mark; any other must already carry them. */
  function Prepare(fat: seq<byte>, media: byte): (r: Option<seq<byte>>)
    requires |fat| >= SECTOR
    ensures r.Some? ==> |r.value| == |fat|
  {
    var f := if AllZero(fat) then [media, 0xFF, 0xFF] + fat[3..] else fat;
    if f[0] != media || Get(f, 1) < LEAST_EOF then None else Some(f)
  }

  /** The FAT copies, all of `len` bytes. */
  predicate AreFats(fats: seq<seq<byte>>, len: nat) {
    forall k :: 0 <= k < |fats| ==> |fats[k]| == len
  }

  function PrepareFats(image: seq<byte>, g: Geometry, n: nat): (r: Option<seq<seq<byte>>>)
    requires Fits(g, |image|) && |image| >= SECTOR && n <= g.fatCount
    ensures r.Some? ==> |r.value| == n && AreFats(r.value, g.FatBytes())
    decreases n
  {
    if n == 0 then Some([])
    else
      match PrepareFats(image, g, n - 1)
      case None => None
      case Some(fats) =>
        match Prepare(FatCopy(image, g, n - 1), image[21])
        case None => None
        case Some(fat) => Some(fats + [fat])
  }

  // ----- releasing and linking in the packed bytes -----

  /** The bytes after a release, and what stopped it: a corrupted chain, or a cluster the table does not hold. */
  datatype Freed = Freed(fat: seq<byte>, error: Option<Error>)

  function FreeWalk(fat: seq<byte>, cluster: nat, top: nat, visited: seq<nat>): (r: Freed)
    ensures |r.fat| == |fat|
    decreases Unseen(visited, top)
  {
    if 2 <= cluster < LEAST_EOF then
      if cluster in visited || cluster >= top then Freed(fat, Some(BadChain))
      else if !Holds(|fat|, cluster) then Freed(fat, Some(TableTooSmall))
      else
        assert cluster in Unseen(visited, top) && cluster !in Unseen(visited + [cluster], top);
        FreeWalk(Put(fat, cluster, 0), Get(fat, cluster), top, visited + [cluster])
    else Freed(fat, if cluster >= LEAST_EOF then None else Some(BadChain))
  }

  function Free(fat: seq<byte>, first: nat, top: nat): (r: Freed)
    ensures |r.fat| == |fat|
  {
    if first == 0 then Freed(fat, None)
    else if first < 2 || first >= top then Freed(fat, Some(BadChain))
    else FreeWalk(fat, first, top, [])
  }

  lemma {:induction false} FreeWalkTable(fat: seq<byte>, cluster: nat, top: nat, visited: seq<nat>)
    requires top <= Count(|fat|)
    ensures var r := FreeWalk(fat, cluster, top, visited);
            && ReleaseFrom(Table(fat), cluster, top, visited) == Released(Table(r.fat), r.error.None?)
            && r.error != Some(TableTooSmall)
    decreases Unseen(visited, top)
  {
    hide Put, Holds;
    if 2 <= cluster < LEAST_EOF && cluster !in visited && cluster < top {
      assert cluster in Unseen(visited, top) && cluster !in Unseen(visited + [cluster], top);
      HoldsCount(|fat|, cluster);
      TablePut(fat, cluster, 0);
      FreeWalkTable(Put(fat, cluster, 0), Get(fat, cluster), top, visited + [cluster]);
    }
  }

  /** Freeing in the packed bytes is the release on the decoded table, when the table holds every cluster. */
  lemma {:induction false} FreeTable(fat: seq<byte>, first: nat, top: nat)
    requires top <= Count(|fat|)
    ensures var r := Free(fat, first, top);
            && ReleaseClusters(Table(fat), first, top) == Released(Table(r.fat), r.error.None?)
            && r.error != Some(TableTooSmall)
  {
    if !(first == 0 || first < 2 || first >= top) { FreeWalkTable(fat, first, top, []); }
  }

  function FreeAll(fats: seq<seq<byte>>, first: nat, top: nat, len: nat, n: nat): (r: Result<seq<seq<byte>>, Error>)
    requires n <= |fats| && AreFats(fats, len)
    ensures r.Ok? ==> |r.value| == |fats| && AreFats(r.value, len)
    decreases n
  {
    if n == 0 then Ok(fats)
    else
      match FreeAll(fats, first, top, len, n - 1)
      case Err(e) => Err(e)
      case Ok(done) =>
        var r := Free(done[n - 1], first, top);
        if r.error.Some? then Err(r.error.value) else Ok(done[n - 1 := r.fat])
  }

  /** The first `n` links over `cs`, in the packed bytes. */
  function LinkFat(fat: seq<byte>, cs: seq<nat>, n: nat): (r: seq<byte>)
    requires n <= |cs| && forall i :: 0 <= i < |cs| ==> cs[i] < Count(|fat|)
    ensures |r| == |fat|
    decreases n
  {
    if n == 0 then fat
    else
      var done := LinkFat(fat, cs, n - 1);
      HoldsCount(|fat|, cs[n - 1]);
      Put(done, cs[n - 1], Successor(cs, n - 1, EOF))
  }

  lemma {:induction false} LinkFatTable(fat: seq<byte>, cs: seq<nat>, n: nat)
    requires n <= |cs| && forall i :: 0 <= i < |cs| ==> cs[i] < Count(|fat|) && cs[i] < 0x1000
    ensures Table(LinkFat(fat, cs, n)) == Link(Table(fat), cs, n, EOF)
    decreases n
  {
    hide Put, Table;
    if n > 0 {
      LinkFatTable(fat, cs, n - 1);
      HoldsCount(|fat|, cs[n - 1]);
      TablePut(LinkFat(fat, cs, n - 1), cs[n - 1], Successor(cs, n - 1, EOF));
    }
  }

  function LinkAll(fats: seq<seq<byte>>, cs: seq<nat>, len: nat): (r: seq<seq<byte>>)
    requires AreFats(fats, len) && forall i :: 0 <= i < |cs| ==> cs[i] < Count(len)
    ensures |r| == |fats| && AreFats(r, len)
    ensures forall k :: 0 <= k < |fats| ==> r[k] == LinkFat(fats[k], cs, |cs|)
  {
    seq(|fats|, k requires 0 <= k < |fats| => LinkFat(fats[k], cs, |cs|))
  }

  // ----- writing the image -----

  function PutBlocks(image: seq<byte>, g: Geometry, cs: seq<nat>, data: seq<byte>, n: nat): (r: seq<byte>)
    requires Fits(g, |image|) && InRange(g, cs) && n <= |cs|
    ensures |r| == |image|
    decreases n
  {
    if n == 0 then image
    else
      BlockBounds(g, |image|, cs[n - 1]);
      Splice(PutBlocks(image, g, cs, data, n - 1), BlockAt(g, cs[n - 1]), DataBlock(data, g.BlockBytes(), n - 1))
  }

  function PutFats(image: seq<byte>, g: Geometry, fats: seq<seq<byte>>, n: nat): (r: seq<byte>)
    requires Fits(g, |image|) && |fats| == g.fatCount && AreFats(fats, g.FatBytes()) && n <= g.fatCount
    ensures |r| == |image|
    decreases n
  {
    if n == 0 then image
    else
      FatBounds(g, |image|, n - 1);
      Splice(PutFats(image, g, fats, n - 1), FatAt(g, n - 1), fats[n - 1])
  }

  function RootEntry(name: seq<byte>, first: nat, size: nat): (r: seq<byte>)
    requires |name| == 11 && first < 0x1_0000 && size < 0x1_0000_0000
    ensures |r| == SLOT
  {
    name + [ATTR_ARCHIVE] + Fill(0, 14) + Le16(first) + Le32(size)
  }

  /** Allocates on the first copy, links on every copy, then writes data, FATs and the entry. */
  function Store(image: seq<byte>, g: Geometry, fats: seq<seq<byte>>, slot: nat, name: seq<byte>, data: seq<byte>):
    (r: Result<seq<byte>, Error>)
    requires Fits(g, |image|) && g.Roomy() && |fats| == g.fatCount && AreFats(fats, g.FatBytes())
    requires slot < g.rootEntries && |name| == 11 && data != []
    ensures r.Ok? ==> |r.value| == |image|
  {
    match Allocate(Table(fats[0]), Needed(|data|, g.BlockBytes()), g.Top())
    case None => Err(NoSpace)
    case Some(cs) =>
      if |data| >= 0x1_0000_0000 then Err(TooLarge)
      else
        NeededCovers(|data|, g.BlockBytes());
        var filled := PutBlocks(image, g, cs, data, |cs|);
        var linked := PutFats(filled, g, LinkAll(fats, cs, g.FatBytes()), g.fatCount);
        SlotBounds(g, |image|, slot);
        Ok(Splice(linked, SlotAt(g, slot), RootEntry(name, cs[0], |data|)))
  }

  /** The whole injection; `upper` is the requested alias in upper case. */
  function Inject(image: seq<byte>, data: seq<byte>, upper: LongNames.Name,
                  replace: bool): (r: Result<seq<byte>, Error>)
    ensures r.Ok? ==> |r.value| == |image|
  {
    if data == [] then Err(EmptyFile)
    else
      match ReadGeometry(image)
      case Err(e) => Err(e)
      case Ok(g) =>
        match LongNames.NameTo83(upper)
        case None => Err(BadAlias)
        case Some(name) => InjectNamed(image, g, name, data, replace)
  }

  /** The file of the same name, or else the first free slot. */
  function ChooseSlot(slots: seq<seq<byte>>, name: seq<byte>): (r: Option<nat>)
    requires IsSlots(slots)
    ensures r.Some? ==> r.value < |slots|
  {
    var existing := FindEntry(slots, name);
    if existing.Some? then existing else FreeSlotFrom(slots, 0)
  }

  /** The FAT copies, prepared, with the chain of the replaced file released in each. */
  function LoadFats(image: seq<byte>, g: Geometry, existing: Option<nat>): (r: Result<seq<seq<byte>>, Error>)
    requires Fits(g, |image|) && |image| >= SECTOR && (existing.Some? ==> existing.value < g.rootEntries)
    ensures r.Ok? ==> g.Roomy() && |r.value| == g.fatCount && AreFats(r.value, g.FatBytes())
  {
    match PrepareFats(image, g, g.fatCount)
    case None => Err(NotFormatted)
    case Some(fats) =>
      var freed := match existing
                   case None => Ok(fats)
                   case Some(i) => FreeAll(fats, First(Slot(image, g, i)), g.Top(), g.FatBytes(), g.fatCount);
      if freed.Ok? && !g.Roomy() then Err(TableTooSmall) else freed
  }

  function InjectNamed(image: seq<byte>, g: Geometry, name: seq<byte>, data: seq<byte>,
                       replace: bool): (r: Result<seq<byte>, Error>)
    requires Fits(g, |image|) && |image| >= SECTOR && |name| == 11 && data != []
    ensures r.Ok? ==> |r.value| == |image|
  {
    var slots := Slots(image, g);
    var existing := FindEntry(slots, name);
    if existing.Some? && !replace then Err(AlreadyExists)
    else
      match ChooseSlot(slots, name)
      case None => Err(RootFull)
      case Some(k) =>
        match LoadFats(image, g, existing)
        case Err(e) => Err(e)
        case Ok(fats) => Store(image, g, fats, k, name, data)
  }

  // ----- reading -----

  function Window(image: seq<byte>, lo: nat, n: nat): seq<byte> {
    if lo >= |image| then [] else if lo + n >= |image| then image[lo..] else image[lo..lo + n]
  }

  /** Follows the chain for at most one step more than the volume has clusters. */
  function ReadFrom(image: seq<byte>, g: Geometry, t: seq<nat>, cluster: nat, steps: nat): (r: Option<seq<byte>>)
    decreases g.clusters + 1 - steps
  {
    if !(2 <= cluster < LEAST_EOF && steps <= g.clusters) then Some([])
    else if cluster >= |t| then None
    else
      match ReadFrom(image, g, t, t[cluster], steps + 1)
      case None => None
      case Some(rest) => Some(Window(image, BlockAt(g, cluster), g.BlockBytes()) + rest)
  }

  function ReadSlot(image: seq<byte>, g: Geometry, slot: seq<byte>): (r: Result<seq<byte>, Error>)
    requires Fits(g, |image|) && |slot| == SLOT
  {
    match ReadFrom(image, g, Table(FatCopy(image, g, 0)), First(slot), 0)
    case None => Err(TableTooSmall)
    case Some(bytes) => if |bytes| < Size(slot) then Err(Incomplete) else Ok(bytes[..Size(slot)])
  }

  function ReadNamed(image: seq<byte>, g: Geometry, name: seq<byte>): (r: Result<seq<byte>, Error>)
    requires Fits(g, |image|)
  {
    var slots := Slots(image, g);
    match FindEntry(slots, name)
    case None => Err(NotFound)
    case Some(i) => ReadSlot(image, g, slots[i])
  }

  function ReadRoot(image: seq<byte>, upper: LongNames.Name): (r: Result<seq<byte>, Error>) {
    match ReadGeometry(image)
    case Err(e) => Err(e)
    case Ok(g) =>
      match LongNames.NameTo83(upper)
      case None => Err(BadAlias)
      case Some(name) => ReadNamed(image, g, name)
  }
}
