/** A FAT32 partition inside a disk image: its geometry, its allocation table and its clusters. */
module Fat32Volume {
  import opened Arithmetic
  import opened Bytes
  import opened Chains
  import Fat32Sizing

  const SECTOR: nat := 512
  const EOF: nat := 0x0FFF_FFFF
  const MIN_CLUSTERS: nat := 4086
  const ROOT: nat := 2

  datatype Error =
    | StartOutside | NoSignature | BadBpb | BadGeometry | ExceedsImage | BadDataArea | NotFat32 | FatTooSmall
    | PartitionTooSmall | BadLabel
    | BadChain | EmptyDirectoryChain | NoSpace | BadPath | NoDirectory | AlreadyExists
    | BadLongName | BadAlias | NoAlias | TooLarge | NotFound | Incomplete

  datatype Geometry = Geometry(spc: nat, reserved: nat, fatCount: nat, spf: nat, dataStart: nat, clusters: nat) {
    function Top(): nat { clusters + 2 }

    function BlockBytes(): nat { spc * SECTOR }

    /** Directory entries per cluster. */
    function BlockSlots(): nat { spc * 16 }

    function FatBytes(): nat { spf * SECTOR }
  }

  /** What a geometry guarantees about an image of `len` bytes. */
  predicate Fits(g: Geometry, lba: int, len: nat) {
    && 1 <= lba && 1 <= g.spc && 1 <= g.reserved && 1 <= g.fatCount && 1 <= g.spf
    && g.dataStart == g.reserved + g.fatCount * g.spf
    && MIN_CLUSTERS <= g.clusters
    && (lba + g.dataStart + g.clusters * g.spc) * SECTOR <= len
    && g.Top() <= g.spf * 128
  }

  lemma {:induction false} FitsBasics(g: Geometry, lba: int, len: nat)
    requires Fits(g, lba, len)
    ensures lba >= 1 && g.BlockBytes() > 0 && g.FatBytes() / 4 >= g.Top() && g.fatCount >= 1
  {
  }

  /** The arithmetic checks on the boot sector's fields. */
  function CheckGeometry(lba: int, len: nat, spc: nat, reserved: nat, fatCount: nat, total: nat, spf: nat, root: nat):
    (r: Result<Geometry, Error>)
    requires 1 <= lba
    ensures r.Ok? ==> Fits(r.value, lba, len)
  {
    if spc == 0 || reserved == 0 then Err(BadBpb)
    else if fatCount == 0 || spf == 0 || total == 0 then Err(BadGeometry)
    else if lba + total > len / SECTOR then Err(ExceedsImage)
    else
      var dataStart := reserved + fatCount * spf;
      if dataStart >= total then Err(BadDataArea)
      else
        var clusters := (total - dataStart) / spc;
        if clusters < MIN_CLUSTERS || root < 2 || root >= clusters + 2 then Err(NotFat32)
        else if spf * 128 < clusters + 2 then Err(FatTooSmall)
        else
          WholeClusters(total - dataStart, spc);
          Ok(Geometry(spc, reserved, fatCount, spf, dataStart, clusters))
  }

  lemma {:induction false} WholeClusters(sectors: nat, spc: nat)
    requires spc > 0
    ensures sectors / spc * spc <= sectors
  {
  }

  function ReadGeometry(image: seq<byte>, lba: int): (r: Result<Geometry, Error>)
    ensures r.Ok? ==> Fits(r.value, lba, |image|)
  {
    var base := lba * SECTOR;
    if lba < 1 || base + SECTOR > |image| then Err(StartOutside)
    else if image[base + 510] != 0x55 || image[base + 511] != 0xAA then Err(NoSignature)
    else if U16(image, base + 11) != SECTOR then Err(BadBpb)
    else CheckGeometry(lba, |image|, image[base + 13], U16(image, base + 14), image[base + 16],
                       U32(image, base + 32), U32(image, base + 36), U32(image, base + 44))
  }

  // ----- where things are -----

  function FatOffset(lba: int, g: Geometry, copy: nat): nat
    requires lba >= 0
  {
    (lba + g.reserved + copy * g.spf) * SECTOR
  }

  function AreaStart(lba: int, g: Geometry): nat
    requires lba >= 0
  {
    (lba + g.dataStart) * SECTOR
  }

  function AreaEnd(lba: int, g: Geometry): nat
    requires lba >= 0
  {
    (lba + g.dataStart + g.clusters * g.spc) * SECTOR
  }

  function BlockOffset(lba: int, g: Geometry, c: nat): nat
    requires lba >= 0 && c >= 2
  {
    lba * SECTOR + (g.dataStart + (c - 2) * g.spc) * SECTOR
  }

  lemma {:induction false} FatCopyBounds(lba: int, g: Geometry, len: nat, copy: nat)
    requires Fits(g, lba, len) && copy < g.fatCount
    ensures FatOffset(lba, g, 0) <= FatOffset(lba, g, copy)
    ensures FatOffset(lba, g, copy) + g.FatBytes() <= AreaStart(lba, g) <= AreaEnd(lba, g) <= len
    ensures copy + 1 < g.fatCount ==> FatOffset(lba, g, copy) + g.FatBytes() == FatOffset(lba, g, copy + 1)
  {
    assert copy * g.spf + g.spf == (copy + 1) * g.spf <= g.fatCount * g.spf;
  }

  lemma {:induction false} BlockBounds(lba: int, g: Geometry, len: nat, c: nat)
    requires Fits(g, lba, len) && 2 <= c < g.Top()
    ensures AreaStart(lba, g) <= BlockOffset(lba, g, c)
    ensures BlockOffset(lba, g, c) + g.BlockBytes() <= AreaEnd(lba, g) <= len
  {
    MulMonotone(c - 1, g.clusters, g.spc);
    MulMonotone(0, c - 2, g.spc);
  }

  lemma {:induction false} BlocksApart(lba: int, g: Geometry, c: nat, d: nat)
    requires lba >= 0 && 2 <= c < d
    ensures BlockOffset(lba, g, c) + g.BlockBytes() <= BlockOffset(lba, g, d)
  {
    MulMonotone(c - 1, d - 2, g.spc);
  }

  // ----- the allocation table -----

  function Entry(fat: seq<byte>, c: nat): (r: nat)
    requires 4 * c + 4 <= |fat|
    ensures r <= EOF
  {
    U32(fat, 4 * c) % 0x1000_0000
  }

  function Table(fat: seq<byte>): (t: seq<nat>)
    ensures |t| == |fat| / 4
  {
    seq(|fat| / 4, c requires 0 <= c < |fat| / 4 => Entry(fat, c))
  }

  function SetEntry(fat: seq<byte>, c: nat, v: nat): (r: seq<byte>)
    requires 4 * c + 4 <= |fat|
    ensures |r| == |fat|
  {
    Splice(fat, 4 * c, Le32(v % 0x1000_0000))
  }

  lemma {:induction false} TableSet(fat: seq<byte>, c: nat, v: nat)
    requires 4 * c + 4 <= |fat|
    ensures Table(SetEntry(fat, c, v)) == Table(fat)[c := v % 0x1000_0000]
  {
    var r := SetEntry(fat, c, v);
    var w := v % 0x1000_0000;
    assert r[4 * c..4 * c + 4] == Le32(w);
    forall d | 0 <= d < |fat| / 4 ensures Table(r)[d] == Table(fat)[c := w][d] {
      if d == c {
        assert U32(r, 4 * c) == U32(Le32(w), 0);
      } else {
        assert forall i :: 4 * d <= i < 4 * d + 4 ==> r[i] == fat[i];
      }
    }
  }

  method GetFat(fat: array<byte>, c: nat) returns (v: nat)
    requires 4 * c + 4 <= fat.Length
    ensures v == Table(fat[..])[c]
  {
    v := Entry(fat[..], c);
  }

  method SetFat(fat: array<byte>, c: nat, v: nat)
    requires 4 * c + 4 <= fat.Length
    modifies fat
    ensures fat[..] == SetEntry(old(fat[..]), c, v)
  {
    WriteAt(fat, 4 * c, Le32(v % 0x1000_0000));
  }

  /** The chain a first cluster leads to; the source's walk with its revisit test. */
  method WalkFat(fat: array<byte>, first: nat, top: nat) returns (r: Option<seq<nat>>)
    requires 4 * top <= fat.Length
    ensures r == ChainFrom(Table(fat[..]), first, top, EOF)
  {
    if first < 2 { return Some([]); }
    var result: seq<nat> := [];
    var cluster: nat := first;
    ghost var t := Table(fat[..]);
    while 2 <= cluster < EOF
      invariant Walk(t, cluster, top, EOF, result) == Walk(t, first, top, EOF, [])
      decreases Unseen(result, top)
    {
      if cluster >= top || cluster in result { return None; }
      assert cluster in Unseen(result, top) && cluster !in Unseen(result + [cluster], top);
      result := result + [cluster];
      cluster := GetFat(fat, cluster);
    }
    if cluster != 0 && cluster < EOF { return None; }
    return Some(result);
  }

  /** The free clusters of the table, lowest first. */
  method AllocateFat(fat: array<byte>, count: nat, top: nat) returns (r: Option<seq<nat>>)
    requires 4 * top <= fat.Length
    ensures r == Allocate(Table(fat[..]), count, top)
  {
    var selected: seq<nat> := [];
    var i := 2;
    ghost var t := Table(fat[..]);
    while i < top
      invariant 2 <= i
      invariant selected + FreeFrom(t, i, top) == FreeFrom(t, 2, top)
    {
      var e := GetFat(fat, i);
      if e == 0 { selected := selected + [i]; }
      i := i + 1;
    }
    assert selected == FreeFrom(t, 2, top);
    if |selected| < count { return None; }
    return Some(selected[..count]);
  }

  // ----- reading the image -----

  function FatImage(image: seq<byte>, lba: int, g: Geometry): (r: seq<byte>)
    requires Fits(g, lba, |image|)
    ensures |r| == g.FatBytes()
  {
    FatCopyBounds(lba, g, |image|, 0);
    image[FatOffset(lba, g, 0)..FatOffset(lba, g, 0) + g.FatBytes()]
  }

  predicate InRange(g: Geometry, cs: seq<nat>) {
    forall i :: 0 <= i < |cs| ==> 2 <= cs[i] < g.Top()
  }

  function Block(image: seq<byte>, lba: int, g: Geometry, c: nat): (r: seq<byte>)
    requires Fits(g, lba, |image|) && 2 <= c < g.Top()
    ensures |r| == g.BlockBytes()
  {
    BlockBounds(lba, g, |image|, c);
    image[BlockOffset(lba, g, c)..BlockOffset(lba, g, c) + g.BlockBytes()]
  }

  /** The bytes of a chain, cluster after cluster. */
  function Blocks(image: seq<byte>, lba: int, g: Geometry, cs: seq<nat>): (r: seq<byte>)
    requires Fits(g, lba, |image|) && InRange(g, cs)
  {
    if cs == [] then [] else Block(image, lba, g, cs[0]) + Blocks(image, lba, g, cs[1..])
  }

  predicate SameBlocks(image: seq<byte>, image': seq<byte>, lba: int, g: Geometry, cs: seq<nat>)
    requires Fits(g, lba, |image|) && |image'| == |image| && InRange(g, cs)
  {
    forall i :: 0 <= i < |cs| ==> Block(image', lba, g, cs[i]) == Block(image, lba, g, cs[i])
  }

  lemma {:induction false} BlocksFrame(image: seq<byte>, image': seq<byte>, lba: int, g: Geometry, cs: seq<nat>)
    requires Fits(g, lba, |image|) && |image'| == |image| && InRange(g, cs)
    requires SameBlocks(image, image', lba, g, cs)
    ensures Blocks(image', lba, g, cs) == Blocks(image, lba, g, cs)
  {
    if cs != [] {
      forall i | 0 <= i < |cs[1..]| ensures Block(image', lba, g, cs[1..][i]) == Block(image, lba, g, cs[1..][i]) {
        assert cs[1..][i] == cs[i + 1];
      }
      BlocksFrame(image, image', lba, g, cs[1..]);
    }
  }

  /** Nothing outside the FATs and the data clusters differs. */
  predicate SameOutside(image: seq<byte>, image': seq<byte>, lba: int, g: Geometry)
    requires Fits(g, lba, |image|)
  {
    && |image'| == |image|
    && forall i :: 0 <= i < |image| && (i < FatOffset(lba, g, 0) || AreaEnd(lba, g) <= i) ==> image'[i] == image[i]
  }

  lemma {:induction false} SameOutsideTrans(a: seq<byte>, b: seq<byte>, c: seq<byte>, lba: int, g: Geometry)
    requires Fits(g, lba, |a|) && SameOutside(a, b, lba, g) && SameOutside(b, c, lba, g)
    ensures SameOutside(a, c, lba, g)
  {
  }

  /** The boot sector lies outside, so whatever is written inside leaves the geometry as it was. */
  lemma {:induction false} GeometryFrame(image: seq<byte>, image': seq<byte>, lba: int, g: Geometry)
    requires ReadGeometry(image, lba) == Ok(g) && SameOutside(image, image', lba, g)
    ensures ReadGeometry(image', lba) == Ok(g)
  {
    var base := lba * SECTOR;
    assert FatOffset(lba, g, 0) >= base + SECTOR;
    assert forall i :: base <= i < base + SECTOR ==> image'[i] == image[i];
  }
}
