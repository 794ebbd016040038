/** Formatting a partition: when the geometry reader accepts the result, and the empty volume it makes. */
module Fat32Format {
  import opened Bytes
  import opened DataBlocks
  import opened Chains
  import opened LongNames
  import opened Directory
  import opened Fat32Volume
  import opened Fat32Layout
  import opened Fat32Slots
  import opened Fat32Files
  import opened Fat32Live
  import opened Fat32Inject
  import opened Fat32Replace
  import opened Fat32Runs
  import opened Fat32Theorems
  import Sizing = Fat32Sizing

  /** The label is printable ASCII, one to eleven characters. */
  predicate GoodLabel(title: seq<byte>) {
    1 <= |title| <= 11 && forall i :: 0 <= i < |title| ==> 0x20 <= title[i] <= 0x7E
  }

  function UpperByte(b: byte): byte {
    if 0x61 <= b <= 0x7A then b - 0x20 else b
  }

  function LabelField(title: seq<byte>): (r: seq<byte>)
    requires GoodLabel(title)
    ensures |r| == 11 && 0x20 <= r[0] <= 0x7E
  {
    PadRight(seq(|title|, i requires 0 <= i < |title| => UpperByte(title[i])), 11)
  }

  /** What one formatting run is about. */
  datatype Plan = Plan(lba: nat, total: nat, title: seq<byte>) {
    function Spf(): int { Sizing.Estimate(total, Sizing.ROUNDS) }

    function Clusters(): int { Sizing.Clusters(total, Spf()) }

    /** The sector numbers and counts fit the boot sector's fields, as they do on any image. */
    predicate Fields() { 1 <= lba < 0x1_0000_0000 && total < 0x1_0000_0000 }

    function DataStart(): int { Sizing.RESERVED + Sizing.FAT_COUNT * Spf() }
  }

  lemma {:induction false} PlanRange(p: Plan)
    requires p.Fields() && p.Clusters() >= Sizing.STANDARD_MIN_CLUSTERS
    ensures 1 <= p.Spf() < 0x1_0000_0000 && 600 <= p.total && p.DataStart() < p.total && p.Clusters() < 0x1_0000_0000
    ensures p.Clusters() == (p.total - p.DataStart()) / 4
  {
    Sizing.EstimateRange(p.total, Sizing.ROUNDS);
    var spf := p.Spf();
    assert p.Clusters() == (p.total - 32 - 2 * spf) / 4;
    hide Sizing.Estimate;
  }

  /** The fields the geometry reader looks at, and the rest of the first 90 bytes. */
  function BootHead(p: Plan, spf: nat, title: seq<byte>): (r: seq<byte>)
    requires p.Fields() && spf < 0x1_0000_0000 && |title| == 11
    ensures |r| == 90
  {
    [0xEB, 0x58, 0x90, 0x5A, 0x45, 0x50, 0x48, 0x59, 0x52, 0x32, 0x20, 0x00, 0x02, 4, 32, 0, 2, 0, 0, 0, 0, 0xF8, 0, 0,
     0, 0, 0, 0]
    + Le32(p.lba) + Le32(p.total) + Le32(spf) + [0, 0, 0, 0] + [2, 0, 0, 0] + [1, 0, 6, 0] + Fill(0, 12)
        + [0x80, 0, 0x29]
    + [0x34, 0x39, 0x50, 0x45] + title + [0x46, 0x41, 0x54, 0x33, 0x32, 0x20, 0x20, 0x20]
  }

  function BootSector(p: Plan, spf: nat, title: seq<byte>): (r: seq<byte>)
    requires p.Fields() && spf < 0x1_0000_0000 && |title| == 11
    ensures |r| == SECTOR
  {
    BootHead(p, spf, title) + Fill(0, 420) + [0x55, 0xAA]
  }

  function InfoSector(clusters: nat): (r: seq<byte>)
    requires 1 <= clusters < 0x1_0000_0000
    ensures |r| == SECTOR
  {
    [0x52, 0x52, 0x61, 0x41] + Fill(0, 480) + [0x72, 0x72, 0x41, 0x61] + Le32(clusters - 1) + Le32(3) + Fill(0, 12)
        + [0, 0, 0x55, 0xAA]
  }

  function EmptyFat(size: nat): (r: seq<byte>)
    requires size >= 12
    ensures |r| == size
  {
    SetEntry(SetEntry(SetEntry(Fill(0, size), 0, 0x0FFF_FFF8), 1, 0x0FFF_FFFF), 2, EOF)
  }

  function RootSector(title: seq<byte>): (r: seq<byte>)
    requires |title| == 11
    ensures |r| == SECTOR
  {
    title + [0x08] + Fill(0, 500)
  }

  function PlanGeometry(p: Plan): Geometry
    requires p.Fields() && p.Clusters() >= Sizing.STANDARD_MIN_CLUSTERS
  {
    PlanRange(p);
    Geometry(4, 32, 2, p.Spf(), p.DataStart(), p.Clusters())
  }

  /** The reserved sectors: boot sector, information sector and their copies. */
  function WithReserved(image: seq<byte>, p: Plan): (r: seq<byte>)
    requires p.Fields() && p.Clusters() >= Sizing.STANDARD_MIN_CLUSTERS && GoodLabel(p.title)
    requires (p.lba + p.total) * SECTOR <= |image|
    ensures |r| == |image|
  {
    PlanRange(p);
    var boot, info := BootSector(p, p.Spf(), LabelField(p.title)), InfoSector(p.Clusters());
    var base := p.lba * SECTOR;
    Splice(Splice(Splice(Splice(image, base, boot), base + 6 * SECTOR, boot), base + SECTOR, info), base + 7 * SECTOR,
           info)
  }

  /** The two FATs, written one after the other. */
  function WithFats(image: seq<byte>, p: Plan): (r: seq<byte>)
    requires p.Fields() && p.Clusters() >= Sizing.STANDARD_MIN_CLUSTERS && (p.lba + p.total) * SECTOR <= |image|
    ensures |r| == |image|
  {
    PlanRange(p);
    var spf := p.Spf();
    var fat := EmptyFat(spf * SECTOR);
    Splice(Splice(image, (p.lba + 32) * SECTOR, fat), (p.lba + 32 + spf) * SECTOR, fat)
  }

  function Format(image: seq<byte>, p: Plan): (r: Outcome)
    requires p.Fields() && (p.lba + p.total) * SECTOR <= |image|
    ensures |r.image| == |image|
  {
    if p.Clusters() < Sizing.STANDARD_MIN_CLUSTERS then Outcome(image, Some(PartitionTooSmall))
    else if !GoodLabel(p.title) then Outcome(image, Some(BadLabel))
    else
      PlanRange(p);
      Outcome(Splice(WithFats(WithReserved(image, p), p), (p.lba + p.DataStart()) * SECTOR,
                     RootSector(LabelField(p.title))), None)
  }

  method FormatPartition(image: array<byte>, p: Plan) returns (error: Option<Error>)
    requires p.Fields() && (p.lba + p.total) * SECTOR <= image.Length
    modifies image
    ensures Outcome(image[..], error) == Format(old(image[..]), p)
  {
    hide Splice, BootSector, InfoSector, EmptyFat, RootSector, LabelField, GoodLabel, Sizing.Estimate;
    var spf := Sizing.Search(p.total, Sizing.ROUNDS);
    var dataStart := Sizing.RESERVED + Sizing.FAT_COUNT * spf;
    var clusters := Sizing.Clusters(p.total, spf);
    if clusters < Sizing.STANDARD_MIN_CLUSTERS { return Some(PartitionTooSmall); }
    if !GoodLabel(p.title) { return Some(BadLabel); }
    PlanRange(p);
    var boot, info, base := BootSector(p, spf, LabelField(p.title)), InfoSector(clusters), p.lba * SECTOR;
    WriteAt(image, base, boot);
    WriteAt(image, base + 6 * SECTOR, boot);
    WriteAt(image, base + SECTOR, info);
    WriteAt(image, base + 7 * SECTOR, info);
    var fat := EmptyFat(spf * SECTOR);
    WriteAt(image, (p.lba + 32) * SECTOR, fat);
    WriteAt(image, (p.lba + 32 + spf) * SECTOR, fat);
    WriteAt(image, (p.lba + dataStart) * SECTOR, RootSector(LabelField(p.title)));
    return None;
  }

  // ----- the geometry reader on a formatted partition -----

  lemma {:induction false} HeadParts(a: seq<byte>, start: seq<byte>, size: seq<byte>, table: seq<byte>,
                                     flags: seq<byte>, root: seq<byte>)
    requires |a| == 28 && |start| == 4 && |size| == 4 && |table| == 4 && |flags| == 4 && |root| == 4
    ensures var h := a + start + size + table + flags + root;
            |h| == 48 && h[..28] == a && h[28..32] == start && h[32..36] == size && h[36..40] == table &&
                h[44..48] == root
  {
  }

  lemma {:induction false} HeadBegins(p: Plan, spf: nat, title: seq<byte>) returns (a: seq<byte>)
    requires p.Fields() && spf < 0x1_0000_0000 && |title| == 11
    ensures |a| == 28 && a[11] == 0 && a[12] == 2 && a[13] == 4 && a[14] == 32 && a[15] == 0 && a[16] == 2
    ensures BootHead(p, spf, title)[..48] == a + Le32(p.lba) + Le32(p.total) + Le32(spf) + [0, 0, 0, 0] + [2, 0, 0, 0]
  {
    hide Le32;
    a := [0xEB, 0x58, 0x90, 0x5A, 0x45, 0x50, 0x48, 0x59, 0x52, 0x32, 0x20, 0x00, 0x02, 4, 32, 0, 2, 0, 0, 0, 0, 0xF8,
          0, 0, 0, 0, 0, 0];
  }

  lemma {:induction false} Word(b: seq<byte>, h: seq<byte>, at: nat, w: seq<byte>)
    requires at + 4 <= |h| <= |b| && b[..|h|] == h && h[at..at + 4] == w
    ensures |w| == 4 && U32(b, at) == U32(w, 0)
  {
    assert forall i :: 0 <= i < 4 ==> b[at + i] == h[at + i] && h[at + i] == w[i];
  }

  lemma {:induction false} BootFields(p: Plan, spf: nat, title: seq<byte>)
    requires p.Fields() && spf < 0x1_0000_0000 && |title| == 11
    ensures var b := BootSector(p, spf, title);
            && b[510] == 0x55 && b[511] == 0xAA && U16(b, 11) == SECTOR && b[13] == 4 && U16(b, 14) == 32 && b[16] == 2
            && U32(b, 32) == p.total && U32(b, 36) == spf && U32(b, 44) == 2
  {
    hide Le32, BootHead, U32;
    var b := BootSector(p, spf, title);
    var a := HeadBegins(p, spf, title);
    var h := BootHead(p, spf, title)[..48];
    assert b[..48] == h;
    HeadParts(a, Le32(p.lba), Le32(p.total), Le32(spf), [0, 0, 0, 0], [2, 0, 0, 0]);
    assert forall i :: 0 <= i < 28 ==> b[i] == h[..28][i];
    Word(b, h, 32, Le32(p.total));
    Word(b, h, 36, Le32(spf));
    Word(b, h, 44, [2, 0, 0, 0]);
    RootWord();
  }

  lemma {:induction false} RootWord()
    ensures U32([2, 0, 0, 0], 0) == 2
  {
  }

  /** The boot sector survives the later writes. */
  lemma {:induction false} BootKept(image: seq<byte>, p: Plan)
    requires p.Fields() && (p.lba + p.total) * SECTOR <= |image| && Format(image, p).error == None
    ensures Format(image, p).image[p.lba * SECTOR..p.lba * SECTOR + SECTOR]
            == BootSector(p, p.Spf(), LabelField(p.title))
  {
    hide BootSector, InfoSector, EmptyFat, RootSector, LabelField, GoodLabel, Sizing.Estimate, Sizing.Clusters;
    PlanRange(p);
    var image' := Format(image, p).image;
    var boot := BootSector(p, p.Spf(), LabelField(p.title));
    forall i | 0 <= i < SECTOR ensures image'[p.lba * SECTOR + i] == boot[i] {
    }
  }

  lemma {:induction false} FieldsInImage(image: seq<byte>, base: nat, boot: seq<byte>)
    requires base + SECTOR <= |image| && |boot| == SECTOR && image[base..base + SECTOR] == boot
    ensures image[base + 510] == boot[510] && image[base + 511] == boot[511] && image[base + 13] == boot[13]
    ensures image[base + 16] == boot[16]
    ensures U16(image, base + 11) == U16(boot, 11) && U16(image, base + 14) == U16(boot, 14)
    ensures U32(image, base + 32) == U32(boot, 32) && U32(image, base + 36) == U32(boot, 36)
    ensures U32(image, base + 44) == U32(boot, 44)
  {
    assert forall i :: 0 <= i < SECTOR ==> image[base + i] == boot[i];
  }

  /** The geometry reader accepts a partition just formatted for all sector counts but those congruent to 28 or 29
      modulo 514; for those it always finds the FAT too small. */
  lemma {:induction false} FormatAccepted(image: seq<byte>, p: Plan)
    requires p.Fields() && (p.lba + p.total) * SECTOR <= |image| && Format(image, p).error == None
    ensures (p.total - 28) % 514 >= 2 <==> ReadGeometry(Format(image, p).image, p.lba).Ok?
    ensures (p.total - 28) % 514 >= 2 ==> ReadGeometry(Format(image, p).image, p.lba) == Ok(PlanGeometry(p))
    ensures (p.total - 28) % 514 < 2 ==> ReadGeometry(Format(image, p).image, p.lba) == Err(FatTooSmall)
  {
    hide Format, BootSector, LabelField, Sizing.Estimate, ReadGeometry, CheckGeometry, Sizing.Clusters, Sizing.Next;
    FormatOk(image, p);
    PlanRange(p);
    ReadsPlan(image, p);
    CheckPlan(p, |image|);
    Sizing.SearchOutcome(p.total);
  }

  lemma {:induction false} ReadsPlan(image: seq<byte>, p: Plan)
    requires p.Fields() && (p.lba + p.total) * SECTOR <= |image| && Format(image, p).error == None && p.Spf() >= 0
    ensures ReadGeometry(Format(image, p).image, p.lba) == CheckGeometry(p.lba, |image|, 4, 32, 2, p.total, p.Spf(), 2)
  {
    hide Format, BootSector, LabelField, Sizing.Estimate, CheckGeometry;
    FormatOk(image, p);
    PlanRange(p);
    BootKept(image, p);
    BootFields(p, p.Spf(), LabelField(p.title));
    FieldsInImage(Format(image, p).image, p.lba * SECTOR, BootSector(p, p.Spf(), LabelField(p.title)));
  }

  lemma {:induction false} CheckPlan(p: Plan, len: nat)
    requires p.Fields() && p.Clusters() >= Sizing.STANDARD_MIN_CLUSTERS && (p.lba + p.total) * SECTOR <= len
    requires p.Spf() >= 0
    ensures CheckGeometry(p.lba, len, 4, 32, 2, p.total, p.Spf(), 2)
            == if p.Spf() * 128 >= p.Clusters() + 2 then Ok(PlanGeometry(p)) else Err(FatTooSmall)
  {
    hide Sizing.Estimate;
    PlanRange(p);
    hide Sizing.Clusters;
  }

  lemma {:induction false} FormatOk(image: seq<byte>, p: Plan)
    requires p.Fields() && (p.lba + p.total) * SECTOR <= |image| && Format(image, p).error == None
    ensures p.Clusters() >= Sizing.STANDARD_MIN_CLUSTERS && GoodLabel(p.title)
  {
  }

  // ----- the empty volume -----

  /** No entry in the rest of the root cluster is in use, as on a new image; the formatter only writes its first
      sector. */
  predicate ClearRoot(image: seq<byte>, p: Plan)
    requires p.Fields() && (p.lba + p.total) * SECTOR <= |image| && p.Clusters() >= Sizing.STANDARD_MIN_CLUSTERS
  {
    PlanRange(p);
    NoStale(image, (p.lba + p.DataStart()) * SECTOR)
  }

  /** The first byte of the `i`th entry of the directory cluster at `base`. */
  function EntryMark(image: seq<byte>, base: nat, i: nat): byte {
    if base + 32 * i < |image| then image[base + 32 * i] else 0
  }

  /** Of the 64 entries of the directory cluster at `base`, those after the first sector are not in use. */
  predicate NoStale(image: seq<byte>, base: nat) {
    forall i :: 16 <= i < 64 ==> EntryMark(image, base, i) == 0
  }

  lemma {:induction false} FormattedBytes(image: seq<byte>, p: Plan)
    requires p.Fields() && (p.lba + p.total) * SECTOR <= |image| && Format(image, p).error == None
    ensures p.Spf() >= 1 && p.Clusters() >= Sizing.STANDARD_MIN_CLUSTERS && GoodLabel(p.title)
    ensures (p.lba + p.DataStart() + 4) * SECTOR <= |image|
    ensures var image', fat := Format(image, p).image, EmptyFat(p.Spf() * SECTOR);
            && image'[(p.lba + 32) * SECTOR..(p.lba + 32 + p.Spf()) * SECTOR] == fat
            && image'[(p.lba + 32 + p.Spf()) * SECTOR..(p.lba + p.DataStart()) * SECTOR] == fat
            && image'[(p.lba + p.DataStart()) * SECTOR..(p.lba + p.DataStart() + 1) * SECTOR]
               == RootSector(LabelField(p.title))
            && forall x :: (p.lba + p.DataStart() + 1) * SECTOR <= x < |image| ==> image'[x] == image[x]
  {
    hide BootSector, InfoSector, EmptyFat, RootSector, LabelField, GoodLabel, Sizing.Estimate, Sizing.Clusters,
         WithReserved;
    PlanRange(p);
    var spf := p.Spf();
    assert p.DataStart() == 32 + 2 * spf;
    var fat, root, mid := EmptyFat(spf * SECTOR), RootSector(LabelField(p.title)), WithReserved(image, p);
    var at, next, data := (p.lba + 32) * SECTOR, (p.lba + 32 + spf) * SECTOR, (p.lba + p.DataStart()) * SECTOR;
    ReservedKept(image, p);
    ThreeParts(mid, at, fat, next, fat, data, root);
    ThreeKept(image, mid, at, fat, next, fat, data, root);
  }

  lemma {:induction false} ReservedKept(image: seq<byte>, p: Plan)
    requires p.Fields() && p.Clusters() >= Sizing.STANDARD_MIN_CLUSTERS && GoodLabel(p.title)
    requires (p.lba + p.total) * SECTOR <= |image|
    ensures forall x :: (p.lba + 32) * SECTOR <= x < |image| ==> WithReserved(image, p)[x] == image[x]
  {
    hide BootSector, InfoSector, LabelField, GoodLabel, Sizing.Estimate, Sizing.Clusters;
    PlanRange(p);
  }

  /** Three pieces written one behind the other are all there. */
  lemma {:induction false} ThreeParts(s: seq<byte>, x: nat, a: seq<byte>, y: nat, b: seq<byte>, z: nat, c: seq<byte>)
    requires x + |a| == y && y + |b| == z && z + |c| <= |s|
    ensures var r := Splice(Splice(Splice(s, x, a), y, b), z, c); r[x..y] == a && r[y..z] == b && r[z..z + |c|] == c
  {
    var s1 := Splice(s, x, a);
    var s2 := Splice(s1, y, b);
    SpliceWindow(s, x, a, x, y);
    SpliceWindow(s1, y, b, x, y);
    SpliceWindow(s1, y, b, y, z);
    SpliceWindow(s2, z, c, x, y);
    SpliceWindow(s2, z, c, y, z);
    SpliceWindow(s2, z, c, z, z + |c|);
    hide Splice;
  }

  lemma {:induction false} ThreeKept(image: seq<byte>, s: seq<byte>, x: nat, a: seq<byte>, y: nat, b: seq<byte>, z: nat,
                                     c: seq<byte>)
    requires x + |a| == y && y + |b| == z && z + |c| <= |s| == |image| && forall i :: x <= i < |image| ==>
             s[i] == image[i]
    ensures forall i :: z + |c| <= i < |image| ==> Splice(Splice(Splice(s, x, a), y, b), z, c)[i] == image[i]
  {
  }

  /** Only the root directory's cluster is taken. */
  predicate OnlyRoot(t: seq<nat>) {
    |t| >= 3 && t[2] == EOF && forall c :: 2 < c < |t| ==> t[c] == 0
  }

  lemma {:induction false} ZeroTable(n: nat)
    ensures forall c :: 0 <= c < n / 4 ==> Table(Fill(0, n))[c] == 0
  {
  }

  lemma {:induction false} EmptyFatTable(n: nat)
    requires n >= 12
    ensures OnlyRoot(Table(EmptyFat(n)))
  {
    hide Table, SetEntry;
    ZeroTable(n);
    var f0 := Fill(0, n);
    TableSet(f0, 0, 0x0FFF_FFF8);
    var f1 := SetEntry(f0, 0, 0x0FFF_FFF8);
    TableSet(f1, 1, 0x0FFF_FFFF);
    var f2 := SetEntry(f1, 1, 0x0FFF_FFFF);
    TableSet(f2, 2, EOF);
  }

  const ROOT_ONLY: Layout := map[ROOT := [ROOT]]

  lemma {:induction false} RootChains(t: seq<nat>, g: Geometry)
    requires OnlyRoot(t) && 3 <= g.Top() <= |t| && g.Top() <= EOF
    ensures ChainsOk(t, g, ROOT_ONLY) && NoLeaks(t, g, ROOT_ONLY) && DirsIn(g, {ROOT}, ROOT_ONLY)
    ensures ROOT_ONLY.Keys == {ROOT}
  {
    assert ROOT in ROOT_ONLY && ROOT in ROOT_ONLY[ROOT];
  }

  /** A root directory holding only its volume label. */
  predicate LabelOnly(slots: seq<Slot>)
    requires Shaped(slots)
  {
    && |slots| >= 2 && !Free(slots[0]) && slots[0].raw[11] == 0x08
    && forall i :: 1 <= i < |slots| ==> End(slots[i])
  }

  lemma {:induction false} LabelOnlyRecords(slots: seq<Slot>)
    requires Shaped(slots) && LabelOnly(slots)
    ensures Records(slots) == [] && TailZero(slots)
  {
    hide MakeRecord;
    assert !Short(slots[0]) && slots[1..][0] == slots[1];
    assert Parse(slots[1..], Absorb(Idle, slots[0])) == [];
  }

  /** The slots of the root cluster, read off the image. */
  lemma {:induction false} RootSlotBytes(image: seq<byte>, lba: int, g: Geometry)
    requires Fits(g, lba, |image|) && g.spc == 4 && (lba + g.dataStart + 4) * SECTOR <= |image|
    ensures InRange(g, [ROOT])
    ensures var slots := DirSlots(image, lba, g, [ROOT]);
            var base := (lba + g.dataStart) * SECTOR;
            |slots| == 64 && forall i :: 0 <= i < 64 ==> slots[i].raw == image[base + 32 * i..base + 32 * i + 32]
  {
    var base := (lba + g.dataStart) * SECTOR;
    assert BlockOffset(lba, g, ROOT) == base;
    OffsetsInImage(lba, g, [ROOT], |image|);
    assert [ROOT][..0] == [];
    var offs := Offsets(lba, g, [ROOT]);
    assert offs == BlockOffsets(lba, g, ROOT) && |offs| == 64;
    assert forall i :: 0 <= i < 64 ==> offs[i] == base + 32 * i;
    hide Fits, Offsets, BlockOffsets, BlockOffset;
    var slots := DirSlots(image, lba, g, [ROOT]);
    forall i | 0 <= i < 64 ensures slots[i].raw == image[base + 32 * i..base + 32 * i + 32] {
      assert offs[i] == base + 32 * i;
    }
  }

  lemma {:induction false} RootSectorBytes(title: seq<byte>)
    requires |title| == 11
    ensures var s := RootSector(title);
            |s| == SECTOR && s[0] == title[0] && s[11] == 0x08 && forall i :: 32 <= i < SECTOR ==> s[i] == 0
  {
  }

  /** One entry of the root cluster after its first sector is written. */
  lemma {:induction false} RootEntry(image: seq<byte>, base: nat, sector: seq<byte>, i: nat, raw: seq<byte>)
    requires 1 <= i < 64 && base + 2048 <= |image| && |sector| == SECTOR && image[base..base + SECTOR] == sector
    requires forall j :: 32 <= j < SECTOR ==> sector[j] == 0
    requires raw == image[base + 32 * i..base + 32 * i + 32]
    ensures raw[0] == EntryMark(image, base, i) && (i < 16 ==> raw[0] == 0)
  {
    assert raw[0] == image[base + 32 * i];
    if i < 16 { assert image[base..base + SECTOR][32 * i] == image[base + 32 * i]; }
  }

  lemma {:induction false} RootSlots(image: seq<byte>, lba: int, g: Geometry, title: seq<byte>)
    requires Fits(g, lba, |image|) && g.spc == 4 && |title| == 11 && 0x20 <= title[0] <= 0x7E
    requires (lba + g.dataStart + 4) * SECTOR <= |image|
    requires image[(lba + g.dataStart) * SECTOR..(lba + g.dataStart + 1) * SECTOR] == RootSector(title)
    ensures InRange(g, [ROOT])
    ensures var slots, base := DirSlots(image, lba, g, [ROOT]), (lba + g.dataStart) * SECTOR;
            && (NoStale(image, base) ==> LabelOnly(slots))
            && (TailZero(slots) ==> NoStale(image, base))
  {
    hide Fits, DirSlots, RootSector, EntryMark;
    RootSlotBytes(image, lba, g);
    RootSectorBytes(title);
    var base, sector := (lba + g.dataStart) * SECTOR, RootSector(title);
    var slots := DirSlots(image, lba, g, [ROOT]);
    assert slots[0].raw == image[base..base + 32];
    assert slots[0].raw[0] == image[base..base + SECTOR][0] && slots[0].raw[11] == image[base..base + SECTOR][11];
    forall i | 1 <= i < 64 ensures slots[i].raw[0] == EntryMark(image, base, i) && (i < 16 ==> End(slots[i])) {
      RootEntry(image, base, sector, i, slots[i].raw);
    }
    if TailZero(slots) {
      forall i | 16 <= i < 64 ensures EntryMark(image, base, i) == 0 { assert End(slots[1]) ==> End(slots[i]); }
    }
  }

  lemma {:induction false} EmptyOwners(R: Listing)
    requires R == map[ROOT := []]
    ensures OwnersOk(R, {ROOT})
  {
    assert R.Keys == {ROOT};
  }

  lemma {:induction false} RootFree(t: seq<nat>, top: nat)
    requires OnlyRoot(t) && 3 <= top <= |t|
    ensures FreeCount(t, top) == top - 3
  {
    FreeEverywhere(t, 3, top);
  }

  /** Formatting makes an empty well-formed volume, the base of every run, exactly when no stale entry is in the root
      cluster. */
  lemma {:induction false} FormatMakesVolume(image: seq<byte>, p: Plan)
    requires p.Fields() && (p.lba + p.total) * SECTOR <= |image| && Format(image, p).error == None
    requires (p.total - 28) % 514 >= 2 && p.Clusters() + 2 <= EOF
    requires p.Clusters() >= Sizing.STANDARD_MIN_CLUSTERS
    ensures ReadGeometry(Format(image, p).image, p.lba) == Ok(PlanGeometry(p))
    ensures Volume(Format(image, p).image, p.lba, PlanGeometry(p), {ROOT}, ROOT_ONLY) <==> ClearRoot(image, p)
    ensures Mirrored(Format(image, p).image, p.lba, PlanGeometry(p)) && DirsIn(PlanGeometry(p), {ROOT}, ROOT_ONLY)
    ensures FreeClusters(Format(image, p).image, p.lba, PlanGeometry(p)) == p.Clusters() - 1
    ensures ClearRoot(image, p) ==>
            InRange(PlanGeometry(p), [ROOT]) &&
                LabelOnly(DirSlots(Format(image, p).image, p.lba, PlanGeometry(p), [ROOT]))
    ensures ClearRoot(image, p) ==>
            ListingOf(Format(image, p).image, p.lba, PlanGeometry(p), {ROOT}, ROOT_ONLY) == map[ROOT := []]
  {
    hide Format, ReadGeometry, Sizing.Estimate, Sizing.Clusters, Fits, Live, NoLeaks, ChainsOk, DirsIn, DirSlots,
         OwnersOk, Records, LabelOnly, TailZero, Table, ListingOf, FreeCount, NoStale, OnlyRoot, Mirrored, TableOf,
         InRange;
    PlanRange(p);
    FormatAccepted(image, p);
    FormattedRegions(image, p);
    var g, image' := PlanGeometry(p), Format(image, p).image;
    FitsBasics(g, p.lba, |image'|);
    var t := TableOf(image', p.lba, g);
    RootFree(t, g.Top());
    RootChains(t, g);
    if ClearRoot(image, p) {
      LabelOnlyRecords(DirSlots(image', p.lba, g, [ROOT]));
      EmptyOwners(map[ROOT := []]);
      LiveFrom(image', p.lba, g, t, {ROOT}, ROOT_ONLY, map[ROOT := []]);
    }
    if Live(image', p.lba, g, t, {ROOT}, ROOT_ONLY) { LiveChain(image', p.lba, g, t, {ROOT}, ROOT_ONLY, ROOT); }
  }

  /** The table and the root entries after formatting. */
  lemma {:induction false} FormattedRegions(image: seq<byte>, p: Plan)
    requires p.Fields() && (p.lba + p.total) * SECTOR <= |image| && Format(image, p).error == None
    requires p.Clusters() >= Sizing.STANDARD_MIN_CLUSTERS && Fits(PlanGeometry(p), p.lba, |image|)
    ensures Mirrored(Format(image, p).image, p.lba, PlanGeometry(p))
    ensures OnlyRoot(TableOf(Format(image, p).image, p.lba, PlanGeometry(p)))
    ensures InRange(PlanGeometry(p), [ROOT])
    ensures ClearRoot(image, p) ==> LabelOnly(DirSlots(Format(image, p).image, p.lba, PlanGeometry(p), [ROOT]))
    ensures TailZero(DirSlots(Format(image, p).image, p.lba, PlanGeometry(p), [ROOT])) ==> ClearRoot(image, p)
  {
    hide Format, RootSector, LabelField, Sizing.Estimate, Sizing.Clusters, Fits, EmptyFat, DirSlots, LabelOnly,
         TailZero, Table, NoStale, OnlyRoot, Mirrored;
    PlanRange(p);
    FormattedBytes(image, p);
    var g, image' := PlanGeometry(p), Format(image, p).image;
    FitsBasics(g, p.lba, |image'|);
    FormattedFats(image', p.lba, g, EmptyFat(p.Spf() * SECTOR));
    EmptyFatTable(p.Spf() * SECTOR);
    RootSlots(image', p.lba, g, LabelField(p.title));
    SameMarks(image, image', (p.lba + p.DataStart()) * SECTOR);
  }

  lemma {:induction false} SameMarks(image: seq<byte>, image': seq<byte>, base: nat)
    requires |image'| == |image| && forall x :: base + SECTOR <= x < |image| ==> image'[x] == image[x]
    ensures NoStale(image', base) == NoStale(image, base)
  {
    assert forall i :: 16 <= i < 64 ==> EntryMark(image', base, i) == EntryMark(image, base, i);
  }

  /** `blank` is the image after formatting, read back with geometry `g`, and no stale entry is in its root cluster. */
  ghost predicate Blank(image: seq<byte>, p: Plan, blank: seq<byte>, g: Geometry): (b: bool)
    ensures b ==> Fits(g, p.lba, |blank|)
  {
    && p.Fields() && (p.lba + p.total) * SECTOR <= |image|
    && Sizing.STANDARD_MIN_CLUSTERS <= p.Clusters() <= EOF - 2
    && Format(image, p) == Outcome(blank, None) && ReadGeometry(blank, p.lba) == Ok(g) && ClearRoot(image, p)
  }

  lemma {:induction false} BlankVolume(image: seq<byte>, p: Plan, blank: seq<byte>, g: Geometry)
    requires Blank(image, p, blank, g)
    ensures ReadGeometry(blank, p.lba) == Ok(g) && g.spc == 4
    ensures Volume(blank, p.lba, g, {ROOT}, ROOT_ONLY) && Mirrored(blank, p.lba, g) && DirsIn(g, {ROOT}, ROOT_ONLY)
    ensures FreeClusters(blank, p.lba, g) == p.Clusters() - 1
    ensures InRange(g, [ROOT]) && LabelOnly(DirSlots(blank, p.lba, g, [ROOT]))
    ensures ListingOf(blank, p.lba, g, {ROOT}, ROOT_ONLY) == map[ROOT := []]
  {
    hide Format, ReadGeometry, Sizing.Estimate, Sizing.Clusters, Fits, Volume, Mirrored, DirsIn, FreeClusters, DirSlots,
         LabelOnly, ListingOf, ClearRoot, InRange;
    FormatAccepted(image, p);
    FormatMakesVolume(image, p);
  }

  lemma {:induction false} BlankTable(image: seq<byte>, p: Plan, blank: seq<byte>, g: Geometry)
    requires Blank(image, p, blank, g)
    ensures OnlyRoot(TableOf(blank, p.lba, g))
  {
    hide Format, ReadGeometry, Sizing.Estimate, Sizing.Clusters, Fits, ClearRoot, OnlyRoot, TableOf;
    FormatAccepted(image, p);
    FormattedRegions(image, p);
  }

  /** New volumes exist: 514030 sectors of an all-zero image. */
  lemma {:induction false} BlankExists(image: seq<byte>) returns (p: Plan, blank: seq<byte>, g: Geometry)
    requires |image| == 514031 * SECTOR && forall x :: 0 <= x < |image| ==> image[x] == 0
    ensures Blank(image, p, blank, g) && p.Clusters() == 127999
  {
    hide Format, ReadGeometry, Sizing.Estimate, Sizing.Clusters, ClearRoot, PlanGeometry;
    p := Plan(1, 514030, [0x41]);
    ExamplePlan(p);
    FormatDone(image, p);
    FormatAccepted(image, p);
    blank, g := Format(image, p).image, PlanGeometry(p);
    ZeroIsClear(image, p);
  }

  lemma {:induction false} ExamplePlan(p: Plan)
    requires p == Plan(1, 514030, [0x41])
    ensures p.Clusters() == 127999 && GoodLabel(p.title)
  {
    hide Sizing.Estimate;
    Sizing.Converges(514030, 1000, 2);
    assert p.Spf() == 1001;
  }

  lemma {:induction false} FormatDone(image: seq<byte>, p: Plan)
    requires p.Fields() && (p.lba + p.total) * SECTOR <= |image|
    requires p.Clusters() >= Sizing.STANDARD_MIN_CLUSTERS && GoodLabel(p.title)
    ensures Format(image, p).error == None
  {
  }

  lemma {:induction false} ZeroIsClear(image: seq<byte>, p: Plan)
    requires p.Fields() && (p.lba + p.total) * SECTOR <= |image| && p.Clusters() >= Sizing.STANDARD_MIN_CLUSTERS
    requires forall x :: 0 <= x < |image| ==> image[x] == 0
    ensures ClearRoot(image, p)
  {
    hide Sizing.Estimate, Sizing.Clusters;
    PlanRange(p);
  }

  /** From a new image on: any run of good steps is a run of updates of the empty listing, on a volume that stays well
      formed, leaks nothing, has equal FAT copies and accounts for every cluster. */
  lemma {:induction false} FormattedRun(image: seq<byte>, p: Plan, blank: seq<byte>, g: Geometry, ops: seq<Op>)
      returns (L: Layout, us: seq<Update>)
    requires Blank(image, p, blank, g) && AllWellPosed(ops) && GoodRun(blank, p.lba, g, {ROOT}, ops)
    ensures FreeClusters(blank, p.lba, g) == p.Clusters() - 1
    ensures ReadGeometry(RunAll(blank, p.lba, ops), p.lba) == Ok(g) && Mirrored(RunAll(blank, p.lba, ops), p.lba, g)
    ensures Ran(blank, p.lba, g, {ROOT}, map[ROOT := []], ops, L, us)
  {
    hide *;
    BlankVolume(image, p, blank, g);
    L, us := RunKeeps(blank, p.lba, g, {ROOT}, ROOT_ONLY, ops);
    if ops == [] { RunNone(blank, p.lba, g, {ROOT}, map[ROOT := []]); }
  }

  lemma {:induction false} FormattedFats(image: seq<byte>, lba: int, g: Geometry, fat: seq<byte>)
    requires Fits(g, lba, |image|) && g.reserved == 32 && g.fatCount == 2 && g.dataStart == 32 + 2 * g.spf
    requires image[(lba + 32) * SECTOR..(lba + 32 + g.spf) * SECTOR] == fat
    requires image[(lba + 32 + g.spf) * SECTOR..(lba + g.dataStart) * SECTOR] == fat
    ensures FatImage(image, lba, g) == fat && Mirrored(image, lba, g)
  {
    forall i | 0 <= i < 2 ensures FatCopy(image, lba, g, i) == fat {
      FatCopyBounds(lba, g, |image|, i);
      assert i == 0 || i == 1;
      assert 0 * g.spf == 0 && 1 * g.spf == g.spf;
    }
    FirstCopy(image, lba, g);
  }

  // ----- the first file -----

  lemma {:induction false} RoomAfterLabel(slots: seq<Slot>, req: nat, per: nat)
    requires Shaped(slots) && LabelOnly(slots) && |slots| == 64 && req <= 63 && per > 0
    ensures Extension(slots, req, per) == 0
  {
    hide Rounds, Trailing;
    assert Fit(slots, 1, req);
  }

  lemma {:induction false} AliasThere(q: Request)
    ensures ChosenAlias([], q).Some?
  {
    hide NumberedAlias, StemOf, ExtensionOf;
    assert AliasesOf([]) == {};
    assert NumberedAlias(StemOf(q.upper(q.name)), ExtensionOf(q.upper(q.name)), 1) !in {};
    hide Alias, Requested;
  }

  lemma {:induction false} ApplyAtRoot(image: seq<byte>, lba: int, g: Geometry, op: Op)
    requires ReadGeometry(image, lba) == Ok(g) && WellPosed(op) && DirectoryOf(op.path) == []
    ensures Target(image, lba, g, op) == Ok(ROOT)
    ensures Apply(image, lba, op).error == None
            <==> PathNamed(op) && InjectInto(image, lba, g, ROOT, op.q).error == None
  {
    hide ReadGeometry, InjectInto, DirectoryOf, FileNameOf, Table, FatImage;
  }

  lemma {:induction false} SingleRun(image: seq<byte>, lba: int, g: Geometry, dirs: set<nat>, op: Op)
    requires Fits(g, lba, |image|) && WellPosed(op) && Meets(image, lba, g, op) == None
    ensures AllWellPosed([op]) && GoodRun(image, lba, g, dirs, [op])
  {
    hide Meets, Apply, Fits, Replaceable, ListingAt, GoodVictim;
    forall i | 0 <= i < 1
      ensures GoodStep(RunAll(image, lba, [op][..i]), lba, g, RunDirs(image, lba, g, dirs, [op][..i]), [op][i])
    {
      assert [op][..i] == [];
    }
  }

  lemma {:induction false} MeetsNobody(image: seq<byte>, lba: int, g: Geometry, op: Op)
    requires Fits(g, lba, |image|) && Target(image, lba, g, op) == Ok(ROOT)
    requires DirRecords(image, lba, g, TableOf(image, lba, g), ROOT) == Ok([])
    ensures Meets(image, lba, g, op) == None
  {
    hide Target, DirRecords, Requested;
  }

  /** A single injection into the root of a new volume is a good run, and it is accepted exactly when its path ends in a
      name, any alias asked for is valid, the name can be kept, the size fits its field, and the data fits the free
      clusters. */
  lemma {:induction false} FirstInjection(image: seq<byte>, p: Plan, blank: seq<byte>, g: Geometry, op: Op)
    requires Blank(image, p, blank, g) && WellPosed(op) && DirectoryOf(op.path) == []
    ensures AllWellPosed([op]) && GoodRun(blank, p.lba, g, {ROOT}, [op])
    ensures Apply(blank, p.lba, op).error == None
            <==> && PathNamed(op) && AliasOk(op.q)
                 && Storable(op.q.name) && Decodable(op.q.name) && |op.q.data| < 0x1_0000_0000
                 && Needed(|op.q.data|, g.BlockBytes()) <= p.Clusters() - 1
  {
    hide *;
    BlankVolume(image, p, blank, g);
    var q, t := op.q, TableOf(blank, p.lba, g);
    VolumeParts(blank, p.lba, g, {ROOT}, ROOT_ONLY);
    LiveChain(blank, p.lba, g, t, {ROOT}, ROOT_ONLY, ROOT);
    ApplyAtRoot(blank, p.lba, g, op);
    MeetsNobody(blank, p.lba, g, op);
    SingleRun(blank, p.lba, g, {ROOT}, op);
    NobodyMet(ListingOf(blank, p.lba, g, {ROOT}, ROOT_ONLY), q);
    InjectSucceeds(blank, p.lba, g, {ROOT}, ROOT_ONLY, ROOT, q);
    AliasThere(q);
    RootShape(blank, p.lba, g);
    if Storable(q.name) {
      NameFits(q.name);
      RoomAfterLabel(DirSlots(blank, p.lba, g, [ROOT]), EntryCount(q.name) + 1, g.BlockSlots());
    }
    FreeIs(blank, p.lba, g);
  }

  lemma {:induction false} NobodyMet(R: Listing, q: Request)
    requires ROOT in R && R[ROOT] == []
    ensures Met(R, ROOT, q) == None
  {
    hide Requested;
  }

  lemma {:induction false} RootShape(image: seq<byte>, lba: int, g: Geometry)
    requires Fits(g, lba, |image|) && g.spc == 4
    ensures InRange(g, [ROOT]) && |DirSlots(image, lba, g, [ROOT])| == 64 && ROOT_ONLY[ROOT] == [ROOT]
  {
    FitsBasics(g, lba, |image|);
    assert [ROOT][..0] == [];
    assert Offsets(lba, g, [ROOT]) == BlockOffsets(lba, g, ROOT);
  }

  lemma {:induction false} FreeIs(image: seq<byte>, lba: int, g: Geometry)
    requires Fits(g, lba, |image|)
    ensures FreeClusters(image, lba, g) == FreeCount(TableOf(image, lba, g), g.Top())
  {
  }
}
