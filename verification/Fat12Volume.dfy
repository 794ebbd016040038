/** The legacy FAT12 volume that fills a whole image: FAT copies, root directory slots and data clusters. */
module Fat12Volume {
  import opened Arithmetic
  import opened Bytes
  import opened Chains
  import opened Fat12Table

  const SECTOR: nat := 512
  const SLOT: nat := 32
  const FREE_SLOT: byte := 0xE5
  const ATTR_ARCHIVE: byte := 0x20

  /** `TableTooSmall` stands for the index error of a FAT with fewer entries than the volume has clusters. */
  datatype Error =
    | NoSignature | BadBpb | BadGeometry | ImageTooSmall | BadDataArea | NotFat12
    | EmptyFile | BadAlias | AlreadyExists | RootFull | NotFormatted | BadChain | NoSpace | TooLarge
    | NotFound | Incomplete | TableTooSmall

  datatype Geometry = Geometry(spc: nat, reserved: nat, fatCount: nat, spf: nat, rootEntries: nat, clusters: nat) {
    function RootStart(): nat { reserved + fatCount * spf }

    function DataStart(): nat { RootStart() + (rootEntries * SLOT + SECTOR - 1) / SECTOR }

    function Top(): nat { clusters + 2 }

    function BlockBytes(): nat { spc * SECTOR }

    function FatBytes(): nat { spf * SECTOR }

    /** The table has an entry for every cluster. */
    predicate Roomy() { Top() <= Count(FatBytes()) }
  }

  predicate Fits(g: Geometry, len: nat) {
    && 1 <= g.spc < 256 && 1 <= g.reserved && 1 <= g.fatCount && 1 <= g.spf && 1 <= g.rootEntries
    && 1 <= g.clusters < 4085
    && (g.DataStart() + g.clusters * g.spc) * SECTOR <= len
  }

  lemma {:induction false} BlockPositive(g: Geometry, len: nat)
    requires Fits(g, len)
    ensures g.BlockBytes() > 0
  {
  }

  function CheckGeometry(len: nat, spc: byte, reserved: nat, fatCount: nat, spf: nat, rootEntries: nat, total: nat):
    (r: Result<Geometry, Error>)
    ensures r.Ok? ==> Fits(r.value, len)
  {
    if spc == 0 || reserved == 0 then Err(BadBpb)
    else if fatCount == 0 || rootEntries == 0 || spf == 0 then Err(BadGeometry)
    else if total == 0 || total * SECTOR > len then Err(ImageTooSmall)
    else
      var dataStart := Geometry(spc, reserved, fatCount, spf, rootEntries, 0).DataStart();
      if dataStart >= total then Err(BadDataArea)
      else
        var clusters := WholeClusters(total - dataStart, spc);
        if clusters == 0 || clusters >= 4085 then Err(NotFat12)
        else
          Ok(Geometry(spc, reserved, fatCount, spf, rootEntries, clusters))
  }

  function WholeClusters(sectors: nat, spc: nat): (r: nat)
    requires spc > 0
    ensures r * spc <= sectors
  {
    sectors / spc
  }

  function ReadGeometry(image: seq<byte>): (r: Result<Geometry, Error>)
    ensures r.Ok? ==> Fits(r.value, |image|) && |image| >= SECTOR
  {
    if |image| < SECTOR || image[510] != 0x55 || image[511] != 0xAA then Err(NoSignature)
    else if U16(image, 11) != SECTOR then Err(BadBpb)
    else CheckGeometry(|image|, image[13], U16(image, 14), image[16], U16(image, 22), U16(image, 17),
                       if U16(image, 19) != 0 then U16(image, 19) else U32(image, 32))
  }

  // ----- where things are -----

  function FatAt(g: Geometry, k: nat): nat {
    (g.reserved + k * g.spf) * SECTOR
  }

  function SlotAt(g: Geometry, i: nat): nat {
    g.RootStart() * SECTOR + i * SLOT
  }

  function BlockAt(g: Geometry, c: nat): nat
    requires c >= 2
  {
    (g.DataStart() + (c - 2) * g.spc) * SECTOR
  }

  lemma {:induction false} FatBounds(g: Geometry, len: nat, k: nat)
    requires Fits(g, len) && k < g.fatCount
    ensures SECTOR <= FatAt(g, 0) <= FatAt(g, k)
    ensures FatAt(g, k) + g.FatBytes() == FatAt(g, k + 1) <= g.RootStart() * SECTOR <= g.DataStart() * SECTOR <= len
  {
    MulMonotone(k, g.fatCount - 1, g.spf);
    MulMonotone(0, k, g.spf);
    assert (g.fatCount - 1) * g.spf + g.spf == g.fatCount * g.spf;
  }

  lemma {:induction false} SlotBounds(g: Geometry, len: nat, i: nat)
    requires Fits(g, len) && i < g.rootEntries
    ensures g.RootStart() * SECTOR <= SlotAt(g, i) && SlotAt(g, i) + SLOT <= g.DataStart() * SECTOR <= len
  {
  }

  lemma {:induction false} BlockBounds(g: Geometry, len: nat, c: nat)
    requires Fits(g, len) && 2 <= c < g.Top()
    ensures g.DataStart() * SECTOR <= BlockAt(g, c) && BlockAt(g, c) + g.BlockBytes() <= len
  {
    MulMonotone(c - 1, g.clusters, g.spc);
    MulMonotone(0, c - 2, g.spc);
  }

  lemma {:induction false} BlocksApart(g: Geometry, c: nat, d: nat)
    requires 2 <= c < d
    ensures BlockAt(g, c) + g.BlockBytes() <= BlockAt(g, d)
  {
    MulMonotone(c - 1, d - 2, g.spc);
  }

  function FatCopy(image: seq<byte>, g: Geometry, k: nat): (r: seq<byte>)
    requires Fits(g, |image|) && k < g.fatCount
    ensures |r| == g.FatBytes()
  {
    FatBounds(g, |image|, k);
    image[FatAt(g, k)..FatAt(g, k) + g.FatBytes()]
  }

  function Slot(image: seq<byte>, g: Geometry, i: nat): (r: seq<byte>)
    requires Fits(g, |image|) && i < g.rootEntries
    ensures |r| == SLOT
  {
    SlotBounds(g, |image|, i);
    image[SlotAt(g, i)..SlotAt(g, i) + SLOT]
  }

  function Slots(image: seq<byte>, g: Geometry): (r: seq<seq<byte>>)
    requires Fits(g, |image|)
    ensures |r| == g.rootEntries && forall i :: 0 <= i < |r| ==> |r[i]| == SLOT && r[i] == Slot(image, g, i)
  {
    seq(g.rootEntries, i requires 0 <= i < g.rootEntries => Slot(image, g, i))
  }

  function Block(image: seq<byte>, g: Geometry, c: nat): (r: seq<byte>)
    requires Fits(g, |image|) && 2 <= c < g.Top()
    ensures |r| == g.BlockBytes()
  {
    BlockBounds(g, |image|, c);
    image[BlockAt(g, c)..BlockAt(g, c) + g.BlockBytes()]
  }

  predicate InRange(g: Geometry, cs: seq<nat>) {
    forall i :: 0 <= i < |cs| ==> 2 <= cs[i] < g.Top()
  }

  function Blocks(image: seq<byte>, g: Geometry, cs: seq<nat>): seq<byte>
    requires Fits(g, |image|) && InRange(g, cs)
  {
    if cs == [] then [] else Block(image, g, cs[0]) + Blocks(image, g, cs[1..])
  }

  // ----- the root directory -----

  predicate IsSlots(slots: seq<seq<byte>>) {
    forall i :: 0 <= i < |slots| ==> |slots[i]| == SLOT
  }

  /** A file that a search can meet: not removed, not a volume label. */
  predicate IsFile(slot: seq<byte>)
    requires |slot| == SLOT
  {
    slot[0] != 0 && slot[0] != FREE_SLOT && !Bit(slot[11], 8)
  }

  function First(slot: seq<byte>): nat
    requires |slot| == SLOT
  {
    U16(slot, 26)
  }

  function Size(slot: seq<byte>): nat
    requires |slot| == SLOT
  {
    U32(slot, 28)
  }

  function FindFrom(slots: seq<seq<byte>>, name: seq<byte>, i: nat): (r: Option<nat>)
    requires IsSlots(slots)
    ensures r.Some? ==> r.value < |slots|
    decreases |slots| - i
  {
    if i >= |slots| || slots[i][0] == 0 then None
    else if IsFile(slots[i]) && slots[i][..11] == name then Some(i)
    else FindFrom(slots, name, i + 1)
  }

  function FindEntry(slots: seq<seq<byte>>, name: seq<byte>): (r: Option<nat>)
    requires IsSlots(slots)
    ensures r.Some? ==> r.value < |slots|
  {
    FindFrom(slots, name, 0)
  }

  function FreeSlotFrom(slots: seq<seq<byte>>, i: nat): (r: Option<nat>)
    requires IsSlots(slots)
    ensures r.Some? ==> r.value < |slots|
    decreases |slots| - i
  {
    if i >= |slots| then None
    else if slots[i][0] == 0 || slots[i][0] == FREE_SLOT then Some(i)
    else FreeSlotFrom(slots, i + 1)
  }

  /** No slot before `i` ends the directory. */
  predicate Reached(slots: seq<seq<byte>>, i: nat)
    requires IsSlots(slots) && i <= |slots|
  {
    forall j :: 0 <= j < i ==> slots[j][0] != 0
  }

  /** Slot `i` is a file that listings show. */
  predicate Shown(slots: seq<seq<byte>>, i: nat)
    requires IsSlots(slots) && i < |slots|
  {
    Reached(slots, i) && IsFile(slots[i])
  }

  /** Nothing is stored after the first never-used slot. */
  predicate TailZero(slots: seq<seq<byte>>)
    requires IsSlots(slots)
  {
    forall i, j :: 0 <= i < j < |slots| && slots[i][0] == 0 ==> slots[j][0] == 0
  }

  /** The answer is the first slot shown under the name. */
  predicate Finds(slots: seq<seq<byte>>, name: seq<byte>, from: nat, r: Option<nat>)
    requires IsSlots(slots)
  {
    match r
    case Some(i) =>
      && from <= i < |slots| && Shown(slots, i) && slots[i][..11] == name
      && forall j :: from <= j < i ==> !(IsFile(slots[j]) && slots[j][..11] == name)
    case None => forall j :: from <= j < |slots| ==> !(Shown(slots, j) && slots[j][..11] == name)
  }

  lemma {:induction false} FindFromFinds(slots: seq<seq<byte>>, name: seq<byte>, i: nat)
    requires IsSlots(slots) && i <= |slots| && Reached(slots, i)
    ensures Finds(slots, name, i, FindFrom(slots, name, i))
    decreases |slots| - i
  {
    if i < |slots| && slots[i][0] != 0 && !(IsFile(slots[i]) && slots[i][..11] == name) {
      FindFromFinds(slots, name, i + 1);
    }
  }

  /** There is only one such answer. */
  lemma {:induction false} FindsUnique(slots: seq<seq<byte>>, name: seq<byte>, a: Option<nat>, b: Option<nat>)
    requires IsSlots(slots) && Finds(slots, name, 0, a) && Finds(slots, name, 0, b)
    ensures a == b
  {
  }

  lemma {:induction false} FreeSlotFinds(slots: seq<seq<byte>>, i: nat)
    requires IsSlots(slots) && i <= |slots| && Reached(slots, i)
    requires forall j :: 0 <= j < i ==> slots[j][0] != FREE_SLOT
    ensures match FreeSlotFrom(slots, i)
            case Some(k) => i <= k && Reached(slots, k) && (slots[k][0] == 0 || slots[k][0] == FREE_SLOT)
            case None => forall j :: 0 <= j < |slots| ==> slots[j][0] != 0 && slots[j][0] != FREE_SLOT
    decreases |slots| - i
  {
    if i < |slots| && slots[i][0] != 0 && slots[i][0] != FREE_SLOT { FreeSlotFinds(slots, i + 1); }
  }

  /** Writing a file into a free slot, or over the file of the same name, is seen by that name only. */
  lemma {:induction false} FindAfterWrite(slots: seq<seq<byte>>, k: nat, entry: seq<byte>, other: seq<byte>)
    requires IsSlots(slots) && TailZero(slots) && k < |slots| && |entry| == SLOT && IsFile(entry)
    requires Reached(slots, k)
    requires (Shown(slots, k) && slots[k][..11] == entry[..11]) || slots[k][0] == 0 || slots[k][0] == FREE_SLOT
    requires other != entry[..11]
    ensures IsSlots(slots[k := entry]) && FindEntry(slots[k := entry], other) == FindEntry(slots, other)
  {
    var slots' := slots[k := entry];
    FindFromFinds(slots, other, 0);
    FindFromFinds(slots', other, 0);
    hide FindFrom;
    ReachedWrite(slots, k, entry);
    assert Finds(slots', other, 0, FindEntry(slots, other));
    FindsUnique(slots', other, FindEntry(slots, other), FindEntry(slots', other));
  }

  lemma {:induction false} ReachedWrite(slots: seq<seq<byte>>, k: nat, entry: seq<byte>)
    requires IsSlots(slots) && TailZero(slots) && k < |slots| && |entry| == SLOT && entry[0] != 0
    requires Reached(slots, k)
    ensures IsSlots(slots[k := entry]) && TailZero(slots[k := entry])
    ensures forall i :: 0 <= i < |slots| && i != k ==>
            (Reached(slots, i) && slots[i][0] != 0 <==> Reached(slots[k := entry], i) && slots[i][0] != 0)
    ensures Reached(slots[k := entry], k)
  {
    var slots' := slots[k := entry];
    assert IsSlots(slots');
    forall i | 0 <= i < |slots| && i != k
      ensures Reached(slots, i) && slots[i][0] != 0 <==> Reached(slots', i) && slots[i][0] != 0
    {
      if Reached(slots', i) && slots[i][0] != 0 && k < i {
        assert slots[k][0] != 0;
      }
    }
  }

  /** The name just written is found at its slot. */
  lemma {:induction false} FindWritten(slots: seq<seq<byte>>, k: nat, entry: seq<byte>)
    requires IsSlots(slots) && k < |slots| && |entry| == SLOT && IsFile(entry) && Reached(slots, k)
    requires FindEntry(slots, entry[..11]) == Some(k) || FindEntry(slots, entry[..11]) == None
    ensures IsSlots(slots[k := entry]) && FindEntry(slots[k := entry], entry[..11]) == Some(k)
  {
    var name, slots' := entry[..11], slots[k := entry];
    FindFromFinds(slots, name, 0);
    FindFromFinds(slots', name, 0);
    hide FindFrom;
    assert Finds(slots', name, 0, Some(k)) by {
      forall j | 0 <= j < k ensures !(IsFile(slots'[j]) && slots'[j][..11] == name) {
        assert Reached(slots, j);
      }
    }
    FindsUnique(slots', name, Some(k), FindEntry(slots', name));
  }
}
