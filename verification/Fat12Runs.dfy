/** Whole runs of injections on a FAT12 image, from the moment it is formatted. */
module Fat12Runs {
  import opened Bytes
  import opened Chains
  import opened DataBlocks
  import opened Fat12Table
  import opened Fat12Volume
  import opened Fat12Files
  import opened Fat12Writes
  import opened Fat12Theorems
  import LongNames

  datatype Op = Op(data: seq<byte>, upper: LongNames.Name, replace: bool)

  /** Injects one after the other and stops at the first refusal. */
  function Run(image: seq<byte>, ops: seq<Op>): (r: Result<seq<byte>, Error>)
    ensures r.Ok? ==> |r.value| == |image|
    decreases |ops|
  {
    if ops == [] then Ok(image)
    else
      match Inject(image, ops[0].data, ops[0].upper, ops[0].replace)
      case Err(e) => Err(e)
      case Ok(image') => Run(image', ops[1..])
  }

  /** The data of the last operation under an alias, if any. */
  function LastWrite(ops: seq<Op>, name: Option<seq<byte>>): (r: Option<seq<byte>>)
    decreases |ops|
  {
    if ops == [] then None
    else
      var later := LastWrite(ops[1..], name);
      if later.Some? then later
      else if LongNames.NameTo83(ops[0].upper) == name then Some(ops[0].data)
      else None
  }

  /** The clusters of the file an operation replaces; none for a new name. */
  function OldChain(image: seq<byte>, g: Geometry, op: Op): seq<nat>
    requires Fits(g, |image|) && g.Roomy()
  {
    match LongNames.NameTo83(op.upper)
    case None => []
    case Some(name) =>
      match ChainFrom(TableOf(image, g), Replaced(image, g, name), g.Top(), LEAST_EOF)
      case None => []
      case Some(ch) => ch
  }

  /** By how much an operation changes the number of free clusters, told from the image it meets. */
  function Balance(image: seq<byte>, g: Geometry, op: Op): int
    requires Fits(g, |image|) && g.Roomy()
  {
    BlockPositive(g, |image|);
    |OldChain(image, g, op)| - Needed(|op.data|, g.BlockBytes())
  }

  /** The balance of a whole run: that of each step at the image it meets. */
  function RunBalance(image: seq<byte>, g: Geometry, ops: seq<Op>): int
    requires Fits(g, |image|) && g.Roomy()
    decreases |ops|
  {
    if ops == [] then 0
    else
      match Inject(image, ops[0].data, ops[0].upper, ops[0].replace)
      case Err(_) => 0
      case Ok(image') => Balance(image, g, ops[0]) + RunBalance(image', g, ops[1..])
  }

  function FreeClusters(image: seq<byte>, g: Geometry): nat
    requires Fits(g, |image|) && g.Roomy()
  {
    FreeCount(TableOf(image, g), g.Top())
  }

  /** What a replacement gives back is the chain the walker finds. */
  lemma {:induction false} GivenBackIs(image: seq<byte>, g: Geometry, L: Layout, name: seq<byte>)
    requires Sound(image, g, L)
    ensures var first := Replaced(image, g, name);
            && ChainFrom(TableOf(image, g), first, g.Top(), LEAST_EOF).Some?
            && |ChainFrom(TableOf(image, g), first, g.Top(), LEAST_EOF).value| == GivenBack(L, first)
  {
    hide ReadGeometry, Fits, Slots, FindEntry, First, IsChain, Walk, TailZero, Mirrored, FatCopy, Table, Listed,
         TableOf, Shown;
    var t, first := TableOf(image, g), Replaced(image, g, name);
    SoundParts(image, g, L);
    FirstListed(Slots(image, g), L, name);
    ReplacedFirst(image, g, name);
    NoZero(t, g.Top(), L);
    if first in L { WalkReturnsChain(t, L[first], g.Top(), LEAST_EOF); }
  }

  /** One accepted injection, seen through the reader, and what it does to the free clusters. */
  lemma {:induction false} InjectKeeps(image: seq<byte>, g: Geometry, L: Layout, op: Op) returns (L': Layout)
    requires Sound(image, g, L) && Inject(image, op.data, op.upper, op.replace).Ok?
    ensures var image' := Inject(image, op.data, op.upper, op.replace).value;
            && Sound(image', g, L')
            && FreeClusters(image', g) == FreeClusters(image, g) + Balance(image, g, op)
            && forall upper: LongNames.Name ::
                 ReadRoot(image', upper) ==
                 if LongNames.NameTo83(upper) == LongNames.NameTo83(op.upper) then Ok(op.data)
                   else ReadRoot(image, upper)
  {
    hide InjectNamed, Fits, ReadGeometry, ReadNamed, Slots, Listed, Allocated, Mirrored, TailZero, FatCopy, Table,
         FreeCount, Needed, LongNames.NameTo83, TableOf, Accepts, ChainFrom, Replaced, GivenBack;
    var name := LongNames.NameTo83(op.upper).value;
    GivenBackIs(image, g, L, name);
    L' := Injection(image, g, L, name, op.data, op.replace);
  }

  /** After any accepted run the volume is sound, each alias reads as its last write, the others as before, and the free
      clusters have changed by the balances of the steps. */
  lemma {:induction false} RunKeeps(image: seq<byte>, g: Geometry, L: Layout, ops: seq<Op>) returns (L': Layout)
    requires Sound(image, g, L) && Run(image, ops).Ok?
    ensures var image' := Run(image, ops).value;
            && Sound(image', g, L')
            && FreeClusters(image', g) == FreeClusters(image, g) + RunBalance(image, g, ops)
            && forall upper: LongNames.Name ::
                 ReadRoot(image', upper) == match LastWrite(ops, LongNames.NameTo83(upper))
                                            case Some(data) => Ok(data)
                                            case None => ReadRoot(image, upper)
    decreases |ops|
  {
    SoundParts(image, g, L);
    hide Inject, ReadRoot, Sound, LongNames.NameTo83, FreeClusters, Balance, Fits, g.Roomy;
    L' := L;
    if ops != [] {
      var L1 := InjectKeeps(image, g, L, ops[0]);
      L' := RunKeeps(Inject(image, ops[0].data, ops[0].upper, ops[0].replace).value, g, L1, ops[1..]);
    }
  }

  // ----- formatting -----

  function EmptyFat(g: Geometry, media: byte): (r: seq<byte>)
    requires g.spf >= 1
    ensures |r| == g.FatBytes()
  {
    [media, 0xFF, 0xFF] + Fill(0, g.FatBytes() - 3)
  }

  function EmptyFats(g: Geometry, media: byte): (r: seq<seq<byte>>)
    requires g.spf >= 1
    ensures |r| == g.fatCount && AreFats(r, g.FatBytes()) && forall k :: 0 <= k < |r| ==> r[k] == EmptyFat(g, media)
  {
    seq(g.fatCount, _ => EmptyFat(g, media))
  }

  /** Writes every FAT copy afresh; nothing else changes. */
  function Format(image: seq<byte>): (r: Result<seq<byte>, Error>)
    ensures r.Ok? ==> |r.value| == |image|
  {
    match ReadGeometry(image)
    case Err(e) => Err(e)
    case Ok(g) => Ok(PutFats(image, g, EmptyFats(g, image[21]), g.fatCount))
  }

  lemma {:induction false} EmptyTable(g: Geometry, media: byte)
    requires g.spf >= 1
    ensures forall c :: 2 <= c < Count(g.FatBytes()) ==> Table(EmptyFat(g, media))[c] == 0
    ensures EmptyFat(g, media)[0] == media && Get(EmptyFat(g, media), 1) == EOF && !AllZero(EmptyFat(g, media))
  {
    var fat := EmptyFat(g, media);
    assert fat[1] == 0xFF;
    forall c | 2 <= c < Count(|fat|) ensures Table(fat)[c] == 0 {
      HoldsCount(|fat|, c);
      assert Offset(c) >= 3;
    }
  }

  /** Formatting a volume with an unused root directory yields a sound, empty volume with every cluster free, whose FAT
      every later injection accepts. */
  lemma {:induction false} FormatSound(image: seq<byte>, g: Geometry)
    requires ReadGeometry(image) == Ok(g) && g.Roomy() && forall i :: 0 <= i < g.rootEntries ==>
             Slot(image, g, i)[0] == 0
    ensures Format(image).Ok?
    ensures var image' := Format(image).value;
            && Sound(image', g, map[]) && FreeCount(TableOf(image', g), g.Top()) == g.clusters
            && Prepare(FatCopy(image', g, 0), image'[21]).Some?
            && forall upper: LongNames.Name ::
              ReadRoot(image', upper) == Err(NotFound) || ReadRoot(image', upper) == Err(BadAlias)
  {
    var fats := EmptyFats(g, image[21]);
    var image' := Format(image).value;
    FormattedParts(image, g);
    EmptyTable(g, image[21]);
    SameGeometry(image, image');
    hide Fits, ReadGeometry, FatCopy, Slots, EmptyFat, EmptyFats, PutFats, Slot, Get, g.FatBytes, Format, ReadRoot,
         FreeCount;
    AllFree(TableOf(image', g), g.Top());
    forall i | 0 <= i < g.rootEntries ensures Slots(image', g)[i][0] == 0 {
      assert Slots(image', g)[i] == Slot(image, g, i);
    }
    assert forall i :: 0 <= i < g.rootEntries ==> !Shown(Slots(image', g), i);
    forall upper: LongNames.Name
      ensures ReadRoot(image', upper) == Err(NotFound) || ReadRoot(image', upper) == Err(BadAlias)
    {
      NothingRead(image', g, upper);
    }
  }

  lemma {:induction false} AllFree(t: seq<nat>, top: nat)
    requires 2 <= top <= |t| && forall c :: 2 <= c < top ==> t[c] == 0
    ensures FreeCount(t, top) == top - 2
  {
    Chains.FreeEverywhere(t, 2, top);
  }

  lemma {:induction false} NothingRead(image: seq<byte>, g: Geometry, upper: LongNames.Name)
    requires ReadGeometry(image) == Ok(g) && forall i :: 0 <= i < |Slots(image, g)| ==> Slots(image, g)[i][0] == 0
    ensures ReadRoot(image, upper) == Err(NotFound) || ReadRoot(image, upper) == Err(BadAlias)
  {
    hide Fits, ReadGeometry, FatCopy, Slots, Get, ReadSlot, LongNames.NameTo83;
    var slots := Slots(image, g);
    assert slots != [] ==> slots[0][0] == 0;
  }

  lemma {:induction false} FormattedParts(image: seq<byte>, g: Geometry)
    requires ReadGeometry(image) == Ok(g)
    ensures var image' := Format(image).value;
            && |image'| == |image| && Agree(image, image', 0, SECTOR) && Slots(image', g) == Slots(image, g)
            && (forall k :: 0 <= k < g.fatCount ==> FatCopy(image', g, k) == EmptyFat(g, image[21]))
  {
    var fats := EmptyFats(g, image[21]);
    var image' := Format(image).value;
    hide ReadGeometry;
    PutFatsAgree(image, g, fats, g.fatCount);
    hide Fits, FatCopy, EmptyFat, PutFats, g.RootStart, g.DataStart;
    forall k | 0 <= k < g.fatCount ensures FatCopy(image', g, k) == EmptyFat(g, image[21]) {
      PutFatsCopy(image, g, fats, g.fatCount, k);
    }
    forall i | 0 <= i < g.rootEntries ensures Slots(image', g)[i] == Slots(image, g)[i] {
      SlotBounds(g, |image|, i);
      WindowAgrees(image, image', g.RootStart() * SECTOR, |image|, SlotAt(g, i), SlotAt(g, i) + SLOT);
    }
  }
}
