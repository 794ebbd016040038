/** An injection into a sound FAT12 image updates exactly one name, keeps the volume sound and counts its clusters. */
module Fat12Theorems {
  import opened Arithmetic
  import opened Bytes
  import opened Chains
  import opened DataBlocks
  import opened Fat12Table
  import opened Fat12Volume
  import opened Fat12Files
  import opened Fat12Writes
  import LongNames

  /** The chain of each first cluster. */
  type Layout = map<nat, seq<nat>>

  ghost predicate Allocated(t: seq<nat>, top: nat, L: Layout) {
    && (forall s :: s in L ==> IsChain(t, L[s], top, LEAST_EOF) && L[s][0] == s)
    && (forall r, s :: r in L && s in L && r != s ==> Disjoint(L[r], L[s]))
  }

  /** Every shown file is empty or owns a chain of its own. */
  ghost predicate Listed(slots: seq<seq<byte>>, L: Layout)
    requires IsSlots(slots)
  {
    && (forall i :: 0 <= i < |slots| && Shown(slots, i) ==> First(slots[i]) == 0 || First(slots[i]) in L)
    && (forall i, j :: 0 <= i < j < |slots| && Shown(slots, i) && Shown(slots, j) ==>
          First(slots[i]) == 0 || First(slots[i]) != First(slots[j]))
  }

  ghost predicate Mirrored(image: seq<byte>, g: Geometry)
    requires Fits(g, |image|)
  {
    forall k :: 0 <= k < g.fatCount ==> FatCopy(image, g, k) == FatCopy(image, g, 0)
  }

  function TableOf(image: seq<byte>, g: Geometry): (t: seq<nat>)
    requires Fits(g, |image|)
    ensures |t| == Count(g.FatBytes())
  {
    Table(FatCopy(image, g, 0))
  }

  ghost predicate Sound(image: seq<byte>, g: Geometry, L: Layout) {
    && ReadGeometry(image) == Ok(g) && g.Roomy()
    && Mirrored(image, g) && Allocated(TableOf(image, g), g.Top(), L)
    && TailZero(Slots(image, g)) && Listed(Slots(image, g), L)
  }

  // ----- preparing, releasing and linking -----

  lemma {:induction false} PrepareTable(fat: seq<byte>, media: byte)
    requires |fat| >= SECTOR && Prepare(fat, media).Some?
    ensures var t, t' := Table(fat), Table(Prepare(fat, media).value);
            |t'| == |t| && forall c :: 2 <= c < |t| ==> t'[c] == t[c]
  {
    var f := Prepare(fat, media).value;
    if AllZero(fat) {
      forall c | 2 <= c < Count(|fat|) ensures Table(f)[c] == Table(fat)[c] {
        HoldsCount(|fat|, c);
        assert Offset(c) >= 3;
      }
    }
  }

  lemma {:induction false} PrepareFatsMirrored(image: seq<byte>, g: Geometry, n: nat)
    requires Fits(g, |image|) && |image| >= SECTOR && Mirrored(image, g) && 1 <= n <= g.fatCount
    ensures PrepareFats(image, g, n).Some? <==> Prepare(FatCopy(image, g, 0), image[21]).Some?
    ensures match PrepareFats(image, g, n)
            case Some(fats) => forall k :: 0 <= k < n ==> fats[k] == Prepare(FatCopy(image, g, 0), image[21]).value
            case None => true
    decreases n
  {
    hide Prepare, FatCopy, Fits;
    if n > 1 {
      PrepareFatsMirrored(image, g, n - 1);
    } else {
      assert PrepareFats(image, g, 0) == Some([]);
    }
  }

  lemma {:induction false} FreeAllMirrored(fats: seq<seq<byte>>, f: seq<byte>, first: nat, top: nat, len: nat, n: nat)
    requires n <= |fats| && AreFats(fats, len)
    requires |f| == len && forall k :: 0 <= k < |fats| ==> fats[k] == f
    ensures n > 0 ==> (FreeAll(fats, first, top, len, n).Ok? <==> Free(f, first, top).error.None?)
    ensures match FreeAll(fats, first, top, len, n)
            case Ok(r) => forall k :: 0 <= k < |fats| ==> r[k] == if k < n then Free(f, first, top).fat else f
            case Err(_) => n > 0
    decreases n
  {
    hide Free;
    if n > 0 { FreeAllMirrored(fats, f, first, top, len, n - 1); }
  }

  lemma {:induction false} AllocatedFrame(t: seq<nat>, t': seq<nat>, top: nat, L: Layout)
    requires Allocated(t, top, L) && |t'| == |t| && top <= |t|
    requires forall s, c :: s in L && c in L[s] ==> c < |t| && t'[c] == t[c]
    ensures Allocated(t', top, L)
  {
    forall s | s in L ensures IsChain(t', L[s], top, LEAST_EOF) { ChainFrame(t, t', L[s], top, LEAST_EOF); }
  }

  lemma {:induction false} OnChain(t: seq<nat>, top: nat, L: Layout, s: nat, c: nat)
    requires Allocated(t, top, L) && s in L && c in L[s]
    ensures top <= |t| && 2 <= c < top && t[c] != 0
  {
    ChainNotFree(t, L[s], top, LEAST_EOF, c);
  }

  lemma {:induction false} NoZero(t: seq<nat>, top: nat, L: Layout)
    requires Allocated(t, top, L)
    ensures 0 !in L
  {
    assert forall s :: s in L ==> L[s][0] >= 2;
  }

  /** The table once the chain of a replaced file is released. */
  ghost function Released(t: seq<nat>, L: Layout, first: nat): (r: seq<nat>)
    ensures |r| == |t|
  {
    seq(|t|, c requires 0 <= c < |t| => if first in L && c in L[first] then 0 else t[c])
  }

  lemma {:induction false} FreeReleases(f: seq<byte>, top: nat, L: Layout, first: nat)
    requires top <= Count(|f|) && Allocated(Table(f), top, L) && (first == 0 || first in L)
    ensures Free(f, first, top).error.None? && Table(Free(f, first, top).fat) == Released(Table(f), L, first)
  {
    FreeTable(f, first, top);
    var t := Table(f);
    if first != 0 {
      ReleaseMatchesWalk(t, L[first], top);
    } else {
      NoZero(t, top, L);
    }
    hide Table, Free, ReleaseClusters, IsChain, ChainFrom;
    assert Table(Free(f, first, top).fat) == Released(t, L, first);
  }

  lemma {:induction false} ReleasedAllocated(t: seq<nat>, top: nat, L: Layout, first: nat)
    requires top <= |t| && Allocated(t, top, L)
    ensures Allocated(Released(t, L, first), top, L - {first})
  {
    var t', L' := Released(t, L, first), L - {first};
    assert Allocated(t, top, L');
    forall s, c | s in L' && c in L'[s] ensures c < |t| && t'[c] == t[c] {
      OnChain(t, top, L, s, c);
      if first in L { assert Disjoint(L[first], L[s]); }
    }
    hide IsChain;
    AllocatedFrame(t, t', top, L');
  }

  lemma {:induction false} FreeCountSame(t: seq<nat>, t': seq<nat>, i: nat, top: nat)
    requires top <= |t| && top <= |t'| && forall c :: i <= c < top ==> t'[c] == t[c]
    ensures Chains.FreeFrom(t', i, top) == Chains.FreeFrom(t, i, top)
    decreases top - i
  {
    if i < top { FreeCountSame(t, t', i + 1, top); }
  }

  /** Clusters a replacement gives back. */
  ghost function GivenBack(L: Layout, first: nat): nat {
    if first in L then |L[first]| else 0
  }

  lemma {:induction false} ReleasedCount(t: seq<nat>, top: nat, L: Layout, first: nat)
    requires top <= |t| && Allocated(t, top, L)
    ensures FreeCount(Released(t, L, first), top) == FreeCount(t, top) + GivenBack(L, first)
  {
    if first in L {
      ReleaseChain(t, L[first], top, LEAST_EOF);
      assert Chains.Release(t, L[first], |L[first]|) == Released(t, L, first);
    } else {
      assert Released(t, L, first) == t;
    }
  }

  lemma {:induction false} WeakerEnd(t: seq<nat>, ch: seq<nat>, top: nat)
    requires IsChain(t, ch, top, EOF) && top <= LEAST_EOF
    ensures IsChain(t, ch, top, LEAST_EOF)
  {
  }

  lemma {:induction false} LinkedAllocated(t: seq<nat>, top: nat, L: Layout, cs: seq<nat>)
    requires top <= |t| && top <= LEAST_EOF && Allocated(t, top, L) && cs != [] && Distinct(cs)
    requires forall i :: 0 <= i < |cs| ==> 2 <= cs[i] < top && t[cs[i]] == 0
    ensures var t' := Link(t, cs, |cs|, EOF);
            && Allocated(t', top, L[cs[0] := cs]) && cs[0] !in L
            && (forall s :: s in L ==> Disjoint(L[s], cs))
            && FreeCount(t', top) == FreeCount(t, top) - |cs|
  {
    LinkMakesChain(t, cs, top, EOF);
    var t' := Link(t, cs, |cs|, EOF);
    WeakerEnd(t', cs, top);
    forall s, c | s in L && c in L[s] ensures c < |t| && t[c] != 0 && c !in cs && t'[c] == t[c] {
      OnChain(t, top, L, s, c);
      assert forall i :: 0 <= i < |cs| ==> cs[i] != c;
    }
    hide IsChain, Link, FreeCount;
    AllocatedFrame(t, t', top, L);
    forall s | s in L ensures Disjoint(L[s], cs) && s != cs[0] {
      LayoutHead(t, top, L, s);
    }
  }

  lemma {:induction false} LayoutHead(t: seq<nat>, top: nat, L: Layout, s: nat)
    requires Allocated(t, top, L) && s in L
    ensures s in L[s] && L[s][0] == s
  {
  }

  // ----- reading -----

  lemma {:induction false} Pigeonhole(s: seq<nat>, n: nat)
    requires Distinct(s) && forall i :: 0 <= i < |s| ==> s[i] < n
    ensures |s| <= n
    decreases n
  {
    if s != [] {
      assert s[0] < n;
      if n - 1 in s {
        var k :| 0 <= k < |s| && s[k] == n - 1;
        Pigeonhole(s[..k] + s[k + 1..], n - 1);
      } else {
        Pigeonhole(s, n - 1);
      }
    }
  }

  lemma {:induction false} ChainLength(t: seq<nat>, ch: seq<nat>, top: nat)
    requires IsChain(t, ch, top, LEAST_EOF)
    ensures |ch| + 2 <= top
  {
    var shifted: seq<nat> := seq(|ch|, i requires 0 <= i < |ch| => ch[i] - 2);
    forall i, j | 0 <= i < j < |ch| ensures shifted[i] != shifted[j] {
      assert ch[i] != ch[j];
    }
    Pigeonhole(shifted, top - 2);
  }

  lemma {:induction false} ReadChainFrom(image: seq<byte>, g: Geometry, t: seq<nat>, ch: seq<nat>, k: nat)
    requires Fits(g, |image|) && IsChain(t, ch, g.Top(), LEAST_EOF) && k < |ch| <= g.clusters && InRange(g, ch[k..])
    ensures ReadFrom(image, g, t, ch[k], k) == Some(Blocks(image, g, ch[k..]))
    decreases |ch| - k
  {
    hide Fits, BlockAt;
    BlockBounds(g, |image|, ch[k]);
    assert Window(image, BlockAt(g, ch[k]), g.BlockBytes()) == Block(image, g, ch[k]);
    assert ch[k..][0] == ch[k] && ch[k..][1..] == ch[k + 1..];
    if k + 1 < |ch| {
      ReadChainFrom(image, g, t, ch, k + 1);
    }
  }

  /** Reading from a chain's first cluster returns the bytes of its clusters in order. */
  lemma {:induction false} ReadChain(image: seq<byte>, g: Geometry, t: seq<nat>, ch: seq<nat>)
    requires Fits(g, |image|) && IsChain(t, ch, g.Top(), LEAST_EOF)
    ensures InRange(g, ch) && ReadFrom(image, g, t, ch[0], 0) == Some(Blocks(image, g, ch))
  {
    ChainLength(t, ch, g.Top());
    assert ch[0..] == ch;
    ReadChainFrom(image, g, t, ch, 0);
  }

  lemma {:induction false} BlocksSame(image: seq<byte>, image': seq<byte>, g: Geometry, ch: seq<nat>)
    requires Fits(g, |image|) && |image'| == |image| && InRange(g, ch)
    requires forall c :: c in ch ==> Block(image', g, c) == Block(image, g, c)
    ensures Blocks(image', g, ch) == Blocks(image, g, ch)
    decreases |ch|
  {
    if ch != [] {
      hide Block;
      BlocksSame(image, image', g, ch[1..]);
    }
  }

  lemma {:induction false} BlocksOfData(image: seq<byte>, g: Geometry, cs: seq<nat>, data: seq<byte>, i: nat)
    requires Fits(g, |image|) && InRange(g, cs) && i <= |cs| && InRange(g, cs[i..])
    requires forall k :: 0 <= k < |cs| ==> Block(image, g, cs[k]) == DataBlock(data, g.BlockBytes(), k)
    ensures Blocks(image, g, cs[i..]) == PaddedFrom(data, g.BlockBytes(), i, |cs|)
    decreases |cs| - i
  {
    hide Fits, Block, DataBlock;
    if i < |cs| {
      assert cs[i..][1..] == cs[i + 1..] && cs[i..][0] == cs[i];
      BlocksOfData(image, g, cs, data, i + 1);
    }
  }

  /** The clusters just filled hold the data, whatever its length. */
  lemma {:induction false} FilledReads(image: seq<byte>, g: Geometry, cs: seq<nat>, data: seq<byte>)
    requires Fits(g, |image|) && InRange(g, cs) && g.BlockBytes() > 0 && |cs| == Needed(|data|, g.BlockBytes())
    requires forall k :: 0 <= k < |cs| ==> Block(image, g, cs[k]) == DataBlock(data, g.BlockBytes(), k)
    ensures |Blocks(image, g, cs)| >= |data| && Blocks(image, g, cs)[..|data|] == data
  {
    hide Fits, Block, DataBlock, Blocks, PaddedFrom, Needed, Span, g.BlockBytes;
    assert cs[0..] == cs;
    BlocksOfData(image, g, cs, data, 0);
    NeededCovers(|data|, g.BlockBytes());
    PaddedIsData(data, g.BlockBytes(), 0, |cs|);
    assert data[Span(0, g.BlockBytes())..] == data;
  }

  lemma {:induction false} ReadSlotSame(image: seq<byte>, image': seq<byte>, g: Geometry, L: Layout, slot: seq<byte>)
    requires Fits(g, |image|) && |image'| == |image| && |slot| == SLOT && (First(slot) == 0 || First(slot) in L)
    requires Allocated(TableOf(image, g), g.Top(), L) && Allocated(TableOf(image', g), g.Top(), L)
    requires First(slot) in L ==> forall c :: c in L[First(slot)] && 2 <= c < g.Top() ==>
             Block(image', g, c) == Block(image, g, c)
    ensures ReadSlot(image', g, slot) == ReadSlot(image, g, slot)
  {
    var s := First(slot);
    hide Block, Fits, IsChain, First, Table;
    if s != 0 {
      ReadChain(image, g, TableOf(image, g), L[s]);
      ReadChain(image', g, TableOf(image', g), L[s]);
      BlocksSame(image, image', g, L[s]);
    }
  }

  // ----- the store -----

  /** Every file but slot `k` is listed. */
  ghost predicate OthersListed(slots: seq<seq<byte>>, L: Layout, k: nat)
    requires IsSlots(slots)
  {
    && (forall i :: 0 <= i < |slots| && i != k && Shown(slots, i) ==> First(slots[i]) == 0 || First(slots[i]) in L)
    && (forall i, j :: 0 <= i < j < |slots| && i != k && j != k && Shown(slots, i) && Shown(slots, j) ==>
          First(slots[i]) == 0 || First(slots[i]) != First(slots[j]))
  }

  lemma {:induction false} ListedAfter(slots: seq<seq<byte>>, L: Layout, k: nat, entry: seq<byte>, cs: seq<nat>)
    requires IsSlots(slots) && TailZero(slots) && k < |slots| && Reached(slots, k) && OthersListed(slots, L, k)
    requires |entry| == SLOT && IsFile(entry) && cs != [] && First(entry) == cs[0] && cs[0] !in L && cs[0] != 0
    ensures IsSlots(slots[k := entry]) && TailZero(slots[k := entry]) && Listed(slots[k := entry], L[cs[0] := cs])
  {
    var slots' := slots[k := entry];
    ReachedWrite(slots, k, entry);
    hide First, Reached, TailZero;
    assert forall i :: 0 <= i < |slots| && i != k ==> (Shown(slots', i) <==> Shown(slots, i));
  }

  lemma {:induction false} EntryFields(name: seq<byte>, first: nat, size: nat)
    requires |name| == 11 && first < 0x1_0000 && size < 0x1_0000_0000
    ensures var e := RootEntry(name, first, size);
            && e[..11] == name && e[0] == name[0] && e[11] == ATTR_ARCHIVE && First(e) == first && Size(e) == size
  {
    var e := RootEntry(name, first, size);
    assert e[26..28] == Le16(first) && e[28..32] == Le32(size);
    assert U16(e, 26) == U16(e[26..28], 0) && U32(e, 28) == U32(e[28..32], 0);
  }

  lemma {:induction false} EntryIsFile(name: seq<byte>, first: nat, size: nat)
    requires |name| == 11 && first < 0x1_0000 && size < 0x1_0000_0000 && name[0] != 0 && name[0] != FREE_SLOT
    ensures IsFile(RootEntry(name, first, size))
  {
    EntryFields(name, first, size);
    hide RootEntry;
  }

  ghost predicate Taken(t: seq<nat>, g: Geometry, cs: seq<nat>, data: seq<byte>) {
    && g.Top() <= |t| && g.BlockBytes() > 0 && |cs| == Needed(|data|, g.BlockBytes()) && cs != [] && Distinct(cs)
    && forall i :: 0 <= i < |cs| ==> 2 <= cs[i] < g.Top() && t[cs[i]] == 0
  }

  lemma {:induction false} StoreWrites(image: seq<byte>, g: Geometry, fats: seq<seq<byte>>, slot: nat, name: seq<byte>,
                                       data: seq<byte>)
    returns (cs: seq<nat>)
    requires Fits(g, |image|) && g.Roomy() && |fats| == g.fatCount && AreFats(fats, g.FatBytes())
    requires slot < g.rootEntries && |name| == 11 && data != []
    requires Store(image, g, fats, slot, name, data).Ok?
    ensures Taken(Table(fats[0]), g, cs, data) && |data| < 0x1_0000_0000 && cs[0] < 0x1_0000
    ensures forall i :: 0 <= i < |cs| ==> cs[i] < Count(g.FatBytes())
    ensures Stored(image, Store(image, g, fats, slot, name, data).value, g, cs, data, LinkAll(fats, cs, g.FatBytes()),
                   slot,
                   RootEntry(name, cs[0], |data|))
  {
    hide Table, PutBlocks, PutFats, Stored, LinkAll, RootEntry, Needed, Splice, SlotAt;
    cs := Allocate(Table(fats[0]), Needed(|data|, g.BlockBytes()), g.Top()).value;
    NeededCovers(|data|, g.BlockBytes());
    WrittenStored(image, g, cs, data, LinkAll(fats, cs, g.FatBytes()), slot, RootEntry(name, cs[0], |data|));
  }

  lemma {:induction false} SameGeometry(image: seq<byte>, image': seq<byte>)
    requires |image| >= SECTOR && Agree(image, image', 0, SECTOR)
    ensures ReadGeometry(image') == ReadGeometry(image)
  {
    hide CheckGeometry;
    assert forall i :: 0 <= i < SECTOR ==> image'[i] == image[i];
  }

  /** The state a store starts from: the table of every copy is `f`, and slot `k` is free or given up. */
  ghost predicate Ready(image: seq<byte>, g: Geometry, L: Layout, f: seq<byte>, k: nat) {
    && ReadGeometry(image) == Ok(g) && g.Roomy() && k < g.rootEntries
    && |f| == g.FatBytes() && Allocated(Table(f), g.Top(), L) && Allocated(TableOf(image, g), g.Top(), L)
    && TailZero(Slots(image, g)) && Reached(Slots(image, g), k) && OthersListed(Slots(image, g), L, k)
  }

  lemma {:induction false} StoredTable(image': seq<byte>, g: Geometry, f: seq<byte>, fats: seq<seq<byte>>, cs: seq<nat>,
                                       data: seq<byte>, L: Layout)
    requires Fits(g, |image'|) && g.Roomy() && |fats| == g.fatCount && AreFats(fats, g.FatBytes())
    requires |f| == g.FatBytes()
    requires (forall k :: 0 <= k < |fats| ==> fats[k] == f) && Taken(Table(f), g, cs, data)
    requires Allocated(Table(f), g.Top(), L)
    requires forall i :: 0 <= i < |cs| ==> cs[i] < Count(g.FatBytes())
    requires forall k :: 0 <= k < g.fatCount ==> FatCopy(image', g, k) == LinkAll(fats, cs, g.FatBytes())[k]
    ensures Mirrored(image', g)
    ensures Allocated(TableOf(image', g), g.Top(), L[cs[0] := cs]) && Allocated(TableOf(image', g), g.Top(), L)
    ensures cs[0] !in L && forall s :: s in L ==> Disjoint(L[s], cs)
    ensures FreeCount(TableOf(image', g), g.Top()) == FreeCount(Table(f), g.Top()) - |cs|
  {
    hide FatCopy, Table, LinkFat, IsChain, FreeCount;
    LinkFatTable(f, cs, |cs|);
    assert FatCopy(image', g, 0) == LinkFat(f, cs, |cs|);
    LinkedAllocated(Table(f), g.Top(), L, cs);
    assert forall s :: s in L ==> s in L[cs[0] := cs] && L[cs[0] := cs][s] == L[s];
  }

  lemma {:induction false} StoreReads(image': seq<byte>, g: Geometry, L: Layout, cs: seq<nat>, data: seq<byte>,
                                      t: seq<nat>, name: seq<byte>)
    requires Fits(g, |image'|) && Taken(t, g, cs, data) && |name| == 11 && |data| < 0x1_0000_0000
    requires Allocated(TableOf(image', g), g.Top(), L) && cs[0] in L && L[cs[0]] == cs
    requires forall k :: 0 <= k < |cs| ==> Block(image', g, cs[k]) == DataBlock(data, g.BlockBytes(), k)
    ensures cs[0] < 0x1_0000 && ReadSlot(image', g, RootEntry(name, cs[0], |data|)) == Ok(data)
  {
    hide Block, DataBlock, IsChain, RootEntry, Table;
    assert g.Top() <= LEAST_EOF;
    EntryFields(name, cs[0], |data|);
    ReadChain(image', g, TableOf(image', g), cs);
    FilledReads(image', g, cs, data);
  }

  /** The new file reads back, every other name answers as before, and the volume stays sound. */
  ghost predicate Updates(image: seq<byte>, image': seq<byte>, g: Geometry, name: seq<byte>, data: seq<byte>)
    requires Fits(g, |image|) && |image'| == |image|
  {
    && ReadNamed(image', g, name) == Ok(data)
    && forall other: seq<byte> :: other != name ==> ReadNamed(image', g, other) == ReadNamed(image, g, other)
  }

  lemma {:induction false} OtherReads(image: seq<byte>, image': seq<byte>, g: Geometry, L: Layout, cs: seq<nat>, k: nat,
                                      entry: seq<byte>, other: seq<byte>)
    requires Fits(g, |image|) && |image'| == |image| && k < g.rootEntries && |entry| == SLOT && IsFile(entry)
    requires TailZero(Slots(image, g)) && Reached(Slots(image, g), k) && OthersListed(Slots(image, g), L, k)
    requires var slots := Slots(image, g);
             (Shown(slots, k) && slots[k][..11] == entry[..11]) || slots[k][0] == 0 || slots[k][0] == FREE_SLOT
    requires Slots(image', g) == Slots(image, g)[k := entry] && other != entry[..11]
    requires Allocated(TableOf(image, g), g.Top(), L) && Allocated(TableOf(image', g), g.Top(), L)
    requires forall s :: s in L ==> Disjoint(L[s], cs)
    requires forall c :: 2 <= c < g.Top() && c !in cs ==> Block(image', g, c) == Block(image, g, c)
    ensures ReadNamed(image', g, other) == ReadNamed(image, g, other)
  {
    var slots := Slots(image, g);
    FindAfterWrite(slots, k, entry, other);
    FindFromFinds(slots, other, 0);
    FindFromFinds(slots[k := entry], other, 0);
    hide FindFrom, ReadSlot, Slots, Allocated, TailZero, Block, Fits, TableOf, First;
    if FindEntry(slots, other).Some? {
      var i := FindEntry(slots, other).value;
      assert i != k && Shown(slots, i);
      ReadSlotSame(image, image', g, L, slots[i]);
    }
  }

  lemma {:induction false} StoreKeeps(image: seq<byte>, g: Geometry, L: Layout, f: seq<byte>, fats: seq<seq<byte>>,
                                      k: nat, name: seq<byte>, data: seq<byte>)
    returns (L': Layout)
    requires Ready(image, g, L, f, k) && |fats| == g.fatCount && AreFats(fats, g.FatBytes()) &&
             forall j :: 0 <= j < |fats| ==> fats[j] == f
    requires |name| == 11 && name[0] != 0 && name[0] != FREE_SLOT && data != []
    requires FindEntry(Slots(image, g), name) == Some(k) ||
             (FindEntry(Slots(image, g), name) == None &&
              (Slots(image, g)[k][0] == 0 || Slots(image, g)[k][0] == FREE_SLOT))
    requires Store(image, g, fats, k, name, data).Ok?
    ensures Sound(Store(image, g, fats, k, name, data).value, g, L')
    ensures Updates(image, Store(image, g, fats, k, name, data).value, g, name, data)
    ensures FreeCount(TableOf(Store(image, g, fats, k, name, data).value, g), g.Top())
            == FreeCount(Table(f), g.Top()) - Needed(|data|, g.BlockBytes())
  {
    assert fats[0] == f;
    hide Fits, g.Roomy, g.Top, g.FatBytes, Allocated, Table, Slots, OthersListed, TailZero, Reached, Store, FindEntry,
         FreeCount, Needed, Block, FatCopy, DataBlock, LinkAll, RootEntry, g.BlockBytes, AreFats, Count, Agree,
         ReadGeometry, Shown, IsFile, ReadNamed, Listed, Mirrored, ReadSlot, CheckGeometry, First, TableOf;
    var image' := Store(image, g, fats, k, name, data).value;
    var slots := Slots(image, g);
    var cs := StoreWrites(image, g, fats, k, name, data);
    var entry := RootEntry(name, cs[0], |data|);
    L' := L[cs[0] := cs];
    SameGeometry(image, image');
    TakenHead(Table(f), g, cs, data);
    StoredTable(image', g, f, fats, cs, data, L);
    EntryFields(name, cs[0], |data|);
    EntryIsFile(name, cs[0], |data|);
    ListedAfter(slots, L, k, entry, cs);
    TakenHead(Table(f), g, cs, data);
    StoreReads(image', g, L', cs, data, Table(f), name);
    FindWritten(slots, k, entry);
    ReadNamedAt(image', g, name, k);
    ShownFound(slots, name, k);
    forall other: seq<byte> | other != name ensures ReadNamed(image', g, other) == ReadNamed(image, g, other) {
      OtherReads(image, image', g, L, cs, k, entry, other);
    }
  }

  lemma {:induction false} TakenHead(t: seq<nat>, g: Geometry, cs: seq<nat>, data: seq<byte>)
    requires Taken(t, g, cs, data)
    ensures cs[0] != 0 && InRange(g, cs) && |cs| == Needed(|data|, g.BlockBytes())
  {
    assert 2 <= cs[0] < g.Top();
  }

  lemma {:induction false} ReadNamedAt(image: seq<byte>, g: Geometry, name: seq<byte>, k: nat)
    requires Fits(g, |image|) && FindEntry(Slots(image, g), name) == Some(k)
    ensures ReadNamed(image, g, name) == ReadSlot(image, g, Slots(image, g)[k])
  {
  }

  lemma {:induction false} ShownFound(slots: seq<seq<byte>>, name: seq<byte>, k: nat)
    requires IsSlots(slots)
    ensures FindEntry(slots, name) == Some(k) ==> Shown(slots, k) && slots[k][..11] == name
  {
    FindFromFinds(slots, name, 0);
  }

  // ----- the injection -----

  /** The first cluster of the file that an injection replaces; 0 when it replaces none. */
  function Replaced(image: seq<byte>, g: Geometry, name: seq<byte>): nat
    requires Fits(g, |image|)
  {
    match FindEntry(Slots(image, g), name)
    case None => 0
    case Some(i) => First(Slots(image, g)[i])
  }

  /** When an injection of `data` under `name` is accepted. */
  ghost predicate Accepts(image: seq<byte>, g: Geometry, L: Layout, name: seq<byte>, data: seq<byte>, replace: bool)
    requires Fits(g, |image|) && |image| >= SECTOR && g.Roomy()
  {
    var slots := Slots(image, g);
    && (FindEntry(slots, name).Some? ==> replace)
    && (FindEntry(slots, name).None? ==> exists i :: 0 <= i < |slots| && slots[i][0] in {0, FREE_SLOT})
    && Prepare(FatCopy(image, g, 0), image[21]).Some?
    && g.BlockBytes() > 0
    && Needed(|data|, g.BlockBytes()) <= FreeCount(TableOf(image, g), g.Top()) + GivenBack(L, Replaced(image, g, name))
  }

  lemma {:induction false} PreparedAllocated(image: seq<byte>, g: Geometry, L: Layout)
    requires Sound(image, g, L) && Prepare(FatCopy(image, g, 0), image[21]).Some?
    ensures var t := Table(Prepare(FatCopy(image, g, 0), image[21]).value);
            && |t| == Count(g.FatBytes()) && Allocated(t, g.Top(), L) &&
               FreeCount(t, g.Top()) == FreeCount(TableOf(image, g), g.Top())
  {
    var fat := FatCopy(image, g, 0);
    var t, t' := Table(fat), Table(Prepare(fat, image[21]).value);
    PrepareTable(fat, image[21]);
    hide Table, Prepare, FatCopy, Slots, IsChain;
    FreeCountSame(t, t', 2, g.Top());
    forall s, c | s in L && c in L[s] ensures c < |t| && t'[c] == t[c] {
      OnChain(t, g.Top(), L, s, c);
    }
    AllocatedFrame(t, t', g.Top(), L);
  }

  lemma {:induction false} SubLayout(t: seq<nat>, top: nat, L: Layout, s: nat)
    requires Allocated(t, top, L)
    ensures Allocated(t, top, L - {s})
  {
  }

  lemma {:induction false} OthersAfterRelease(slots: seq<seq<byte>>, L: Layout, k: nat, first: nat)
    requires IsSlots(slots) && Listed(slots, L) && k < |slots|
    requires (first == 0 || (Shown(slots, k) && First(slots[k]) == first))
    requires 0 !in L
    ensures OthersListed(slots, L - {first}, k)
  {
    hide First, Shown;
    forall i | 0 <= i < |slots| && i != k && Shown(slots, i)
      ensures First(slots[i]) == 0 || First(slots[i]) in L - {first}
    {
      assert i < k || k < i;
    }
  }

  /** Where the entry goes. */
  lemma {:induction false} SlotChosen(slots: seq<seq<byte>>, name: seq<byte>)
    requires IsSlots(slots)
    ensures ChooseSlot(slots, name).Some? <==>
            FindEntry(slots, name).Some? || exists i :: 0 <= i < |slots| && slots[i][0] in {0, FREE_SLOT}
    ensures match ChooseSlot(slots, name)
            case None => true
            case Some(k) =>
              && Reached(slots, k)
              && (FindEntry(slots, name) == Some(k) ||
                  (FindEntry(slots, name) == None && slots[k][0] in {0, FREE_SLOT}))
  {
    FindFromFinds(slots, name, 0);
    FreeSlotFinds(slots, 0);
    hide FindFrom, FreeSlotFrom;
  }

  /** The FATs as the store receives them: all alike, with the replaced chain free. */
  ghost predicate LoadedAs(image: seq<byte>, g: Geometry, L: Layout, first: nat, fats: seq<seq<byte>>, f: seq<byte>)
    requires Fits(g, |image|)
  {
    && |f| == g.FatBytes() && g.Roomy() && (forall j :: 0 <= j < |fats| ==> fats[j] == f)
    && Allocated(Table(f), g.Top(), L - {first}) && Allocated(TableOf(image, g), g.Top(), L - {first})
    && FreeCount(Table(f), g.Top()) == FreeCount(TableOf(image, g), g.Top()) + GivenBack(L, first)
  }

  lemma {:induction false} ReleasedCopy(image: seq<byte>, g: Geometry, L: Layout, first: nat, p: seq<byte>)
    requires Sound(image, g, L) && Prepare(FatCopy(image, g, 0), image[21]) == Some(p) && (first == 0 || first in L)
    ensures Free(p, first, g.Top()).error.None? && LoadedAs(image, g, L, first, [], Free(p, first, g.Top()).fat)
  {
    PreparedAllocated(image, g, L);
    hide Table, Prepare, FatCopy, Slots, IsChain, Free, FreeCount, Allocated, Released, Listed, TableOf, ReadGeometry;
    FreeReleases(p, g.Top(), L, first);
    ReleasedAllocated(Table(p), g.Top(), L, first);
    ReleasedCount(Table(p), g.Top(), L, first);
    SubLayout(TableOf(image, g), g.Top(), L, first);
  }

  lemma {:induction false} LoadUnfold(image: seq<byte>, g: Geometry, existing: Option<nat>)
    requires Fits(g, |image|) && |image| >= SECTOR && g.Roomy() && (existing.Some? ==> existing.value < g.rootEntries)
    ensures match PrepareFats(image, g, g.fatCount)
            case None => LoadFats(image, g, existing).Err?
            case Some(fats) =>
              && (existing.None? ==> LoadFats(image, g, existing) == Ok(fats))
              && (existing.Some? ==>
                    var freed := FreeAll(fats, First(Slots(image, g)[existing.value]), g.Top(), g.FatBytes(),
                                         g.fatCount);
                    freed.Ok? ==> LoadFats(image, g, existing) == Ok(freed.value))
  {
    hide PrepareFats, FreeAll, First, Slot, Fits, g.Roomy;
  }

  lemma {:induction false} LoadFatsCorrect(image: seq<byte>, g: Geometry, L: Layout, name: seq<byte>)
      returns (f: seq<byte>)
    requires Sound(image, g, L)
    ensures LoadFats(image, g, FindEntry(Slots(image, g), name)).Ok? <==> Prepare(FatCopy(image, g, 0), image[21]).Some?
    ensures match LoadFats(image, g, FindEntry(Slots(image, g), name))
            case Err(_) => true
            case Ok(fats) => LoadedAs(image, g, L, Replaced(image, g, name), fats, f)
  {
    hide *;
    SoundParts(image, g, L);
    var slots, first := Slots(image, g), Replaced(image, g, name);
    var existing := FindEntry(slots, name);
    PrepareFatsMirrored(image, g, g.fatCount);
    FirstListed(slots, L, name);
    ReplacedFirst(image, g, name);
    LoadUnfold(image, g, existing);
    f := [];
    if Prepare(FatCopy(image, g, 0), image[21]).Some? {
      var p := Prepare(FatCopy(image, g, 0), image[21]).value;
      f := Free(p, first, g.Top()).fat;
      ReleasedCopy(image, g, L, first, p);
      var fats := PrepareFats(image, g, g.fatCount).value;
      FreeAllMirrored(fats, p, first, g.Top(), g.FatBytes(), g.fatCount);
      FreeNothing(p, g.Top());
      LoadedAll(image, g, L, first, LoadFats(image, g, existing).value, f);
    }
  }

  lemma {:induction false} ReplacedFirst(image: seq<byte>, g: Geometry, name: seq<byte>)
    requires Fits(g, |image|)
    ensures match FindEntry(Slots(image, g), name)
            case None => Replaced(image, g, name) == 0
            case Some(i) => Replaced(image, g, name) == First(Slots(image, g)[i])
  {
    hide First, Fits, Slot, FindEntry;
  }

  lemma {:induction false} SoundParts(image: seq<byte>, g: Geometry, L: Layout)
    requires Sound(image, g, L)
    ensures Fits(g, |image|) && |image| >= SECTOR && g.fatCount >= 1 && g.Roomy() && g.Top() <= Count(g.FatBytes())
    ensures |image| > 21 && |FatCopy(image, g, 0)| >= SECTOR
    ensures Mirrored(image, g) && IsSlots(Slots(image, g)) && Listed(Slots(image, g), L)
  {
  }

  lemma {:induction false} LoadedAll(image: seq<byte>, g: Geometry, L: Layout, first: nat, fats: seq<seq<byte>>,
                                     f: seq<byte>)
    requires Fits(g, |image|) && LoadedAs(image, g, L, first, [], f) && forall j :: 0 <= j < |fats| ==> fats[j] == f
    ensures LoadedAs(image, g, L, first, fats, f)
  {
  }

  lemma {:induction false} FreeNothing(f: seq<byte>, top: nat)
    ensures Free(f, 0, top) == Freed(f, None)
  {
  }

  lemma {:induction false} FirstListed(slots: seq<seq<byte>>, L: Layout, name: seq<byte>)
    requires IsSlots(slots) && Listed(slots, L)
    ensures match FindEntry(slots, name)
            case None => true
            case Some(i) => First(slots[i]) == 0 || First(slots[i]) in L
  {
    if FindEntry(slots, name).Some? { ShownFound(slots, name, FindEntry(slots, name).value); }
  }

  lemma {:induction false} FreeFromLength(t: seq<nat>, i: nat, top: nat)
    requires i <= top <= |t|
    ensures |Chains.FreeFrom(t, i, top)| <= top - i
    decreases top - i
  {
    if i < top { FreeFromLength(t, i + 1, top); }
  }

  lemma {:induction false} ProductBound(a: nat, b: nat, m: nat, n: nat)
    requires a <= m && b <= n
    ensures a * b <= m * n
  {
    MulMonotone(a, m, b);
    MulMonotone(b, n, m);
  }

  /** A store succeeds exactly when enough clusters are free; its size then always fits the entry. */
  lemma {:induction false} StoreSucceeds(image: seq<byte>, g: Geometry, fats: seq<seq<byte>>, slot: nat,
                                         name: seq<byte>, data: seq<byte>)
    requires Fits(g, |image|) && g.Roomy() && |fats| == g.fatCount && AreFats(fats, g.FatBytes())
    requires slot < g.rootEntries && |name| == 11 && data != [] && g.BlockBytes() > 0
    ensures Store(image, g, fats, slot, name, data).Ok? <==>
            Needed(|data|, g.BlockBytes()) <= FreeCount(Table(fats[0]), g.Top())
  {
    var t, block := Table(fats[0]), g.BlockBytes();
    var n := Needed(|data|, block);
    FreeFromLength(t, 2, g.Top());
    if n <= FreeCount(t, g.Top()) {
      NeededCovers(|data|, block);
      ProductBound(n, block, 4085, 255 * SECTOR);
    }
    hide Needed, FreeCount, PutBlocks, PutFats, LinkAll, RootEntry, Table, Fits, Count;
  }

  lemma {:induction false} AcceptsWhen(image: seq<byte>, g: Geometry, L: Layout, name: seq<byte>, data: seq<byte>,
                                       replace: bool)
    requires Sound(image, g, L)
    ensures var existing := FindEntry(Slots(image, g), name);
            Accepts(image, g, L, name, data, replace) <==>
            && (existing.Some? ==> replace) && ChooseSlot(Slots(image, g), name).Some?
            && Prepare(FatCopy(image, g, 0), image[21]).Some? && g.BlockBytes() > 0
            && Needed(|data|, g.BlockBytes()) <= FreeCount(TableOf(image, g), g.Top())
               + GivenBack(L, Replaced(image, g, name))
  {
    SlotChosen(Slots(image, g), name);
    hide Needed, FreeCount, GivenBack, Replaced, Prepare, FatCopy, ChooseSlot, FindEntry, TableOf, Fits, Allocated,
         Listed;
  }

  lemma {:induction false} StoreReady(image: seq<byte>, g: Geometry, L: Layout, name: seq<byte>, fats: seq<seq<byte>>,
                                      f: seq<byte>, k: nat)
    requires Sound(image, g, L) && LoadedAs(image, g, L, Replaced(image, g, name), fats, f)
    requires ChooseSlot(Slots(image, g), name) == Some(k)
    ensures Ready(image, g, L - {Replaced(image, g, name)}, f, k)
  {
    var slots, first := Slots(image, g), Replaced(image, g, name);
    SlotChosen(slots, name);
    ShownFound(slots, name, k);
    NoZero(TableOf(image, g), g.Top(), L);
    hide Slots, FindEntry, First, Shown, Reached, ChooseSlot, Listed, OthersListed, Allocated, Table, FreeCount,
         TableOf, ReadGeometry, TailZero, FatCopy, Mirrored;
    OthersAfterRelease(slots, L, k, first);
  }

  /** What an accepted injection achieves. */
  ghost predicate Achieves(image: seq<byte>, image': seq<byte>, g: Geometry, L: Layout, L': Layout, name: seq<byte>,
                           data: seq<byte>)
    requires Fits(g, |image|) && |image'| == |image| && g.Roomy() && g.BlockBytes() > 0
  {
    && Sound(image', g, L') && Updates(image, image', g, name, data)
    && FreeCount(TableOf(image', g), g.Top()) + Needed(|data|, g.BlockBytes())
       == FreeCount(TableOf(image, g), g.Top()) + GivenBack(L, Replaced(image, g, name))
  }

  lemma {:induction false} AcceptedIff(image: seq<byte>, g: Geometry, L: Layout, name: seq<byte>, data: seq<byte>,
                                       replace: bool)
    requires Sound(image, g, L) && |name| == 11 && data != []
    ensures InjectNamed(image, g, name, data, replace).Ok? <==> Accepts(image, g, L, name, data, replace)
  {
    BlockPositive(g, |image|);
    hide Sound, ReadGeometry, Slots, ChooseSlot, FindEntry, Replaced, LoadFats, Store, Accepts, Prepare, FatCopy,
         Needed, FreeCount, GivenBack, Fits, TableOf, Allocated, g.BlockBytes, g.Roomy, g.Top, g.FatBytes, Count, Table,
         AreFats, Reached;
    var slots := Slots(image, g);
    AcceptsWhen(image, g, L, name, data, replace);
    SlotChosen(slots, name);
    var f := LoadFatsCorrect(image, g, L, name);
    if ChooseSlot(slots, name).Some? && LoadFats(image, g, FindEntry(slots, name)).Ok? {
      var k, fats := ChooseSlot(slots, name).value, LoadFats(image, g, FindEntry(slots, name)).value;
      FirstCopy(fats, f, g, |image|);
      StoreSucceeds(image, g, fats, k, name, data);
    }
  }

  /** The parts of an accepted injection. */
  lemma {:induction false} AcceptedParts(image: seq<byte>, g: Geometry, name: seq<byte>, data: seq<byte>, replace: bool)
    requires Fits(g, |image|) && |image| >= SECTOR && |name| == 11 && data != [] && g.BlockBytes() > 0
    requires InjectNamed(image, g, name, data, replace).Ok?
    ensures var slots := Slots(image, g);
            && ChooseSlot(slots, name).Some? && LoadFats(image, g, FindEntry(slots, name)).Ok?
            && InjectNamed(image, g, name, data, replace)
               == Store(image, g, LoadFats(image, g, FindEntry(slots, name)).value, ChooseSlot(slots, name).value, name,
                        data)
  {
    hide Slots, ChooseSlot, LoadFats, FindEntry, Store, Fits;
  }

  lemma {:induction false} AchievesFrom(image: seq<byte>, image': seq<byte>, g: Geometry, L: Layout, L': Layout,
                                        name: seq<byte>, data: seq<byte>, fats: seq<seq<byte>>, f: seq<byte>)
    requires Fits(g, |image|) && |image'| == |image| && g.Roomy() && g.BlockBytes() > 0 && |f| == g.FatBytes()
    requires LoadedAs(image, g, L, Replaced(image, g, name), fats, f)
    requires Sound(image', g, L') && Updates(image, image', g, name, data)
    requires FreeCount(TableOf(image', g), g.Top()) == FreeCount(Table(f), g.Top()) - Needed(|data|, g.BlockBytes())
    ensures Achieves(image, image', g, L, L', name, data)
  {
    hide Fits, Sound, Updates, FreeCount, TableOf, Table, Needed, GivenBack, Replaced, Allocated, g.BlockBytes, g.Roomy,
         g.Top, g.FatBytes;
  }

  lemma {:induction false} LoadedCopies(image: seq<byte>, g: Geometry, L: Layout, first: nat, fats: seq<seq<byte>>,
                                        f: seq<byte>)
    requires Fits(g, |image|) && LoadedAs(image, g, L, first, fats, f)
    ensures |f| == g.FatBytes() && g.Roomy() && forall j :: 0 <= j < |fats| ==> fats[j] == f
  {
    hide Fits, Allocated, FreeCount, GivenBack, Table, TableOf;
  }

  lemma {:induction false} AcceptedAchieves(image: seq<byte>, g: Geometry, L: Layout, name: seq<byte>, data: seq<byte>,
                                            replace: bool)
    returns (L': Layout)
    requires Sound(image, g, L) && |name| == 11 && name[0] != 0 && name[0] != FREE_SLOT && data != []
    requires InjectNamed(image, g, name, data, replace).Ok?
    ensures g.BlockBytes() > 0
    ensures Achieves(image, InjectNamed(image, g, name, data, replace).value, g, L, L', name, data)
  {
    BlockPositive(g, |image|);
    hide *;
    SoundParts(image, g, L);
    var slots := Slots(image, g);
    AcceptedParts(image, g, name, data, replace);
    SlotChosen(slots, name);
    var f := LoadFatsCorrect(image, g, L, name);
    var k, fats := ChooseSlot(slots, name).value, LoadFats(image, g, FindEntry(slots, name)).value;
    LoadedCopies(image, g, L, Replaced(image, g, name), fats, f);
    StoreReady(image, g, L, name, fats, f, k);
    L' := StoreKeeps(image, g, L - {Replaced(image, g, name)}, f, fats, k, name, data);
    AchievesFrom(image, InjectNamed(image, g, name, data, replace).value, g, L, L', name, data, fats, f);
  }

  /** The main result for a name: accepted exactly when there is a slot, a formatted FAT and room, counting what a
      replacement gives back; and then it updates that name only, and the free clusters add up. */
  lemma {:induction false} Injection(image: seq<byte>, g: Geometry, L: Layout, name: seq<byte>, data: seq<byte>,
                                     replace: bool)
    returns (L': Layout)
    requires Sound(image, g, L) && |name| == 11 && name[0] != 0 && name[0] != FREE_SLOT && data != []
    ensures InjectNamed(image, g, name, data, replace).Ok? <==> Accepts(image, g, L, name, data, replace)
    ensures g.BlockBytes() > 0
    ensures match InjectNamed(image, g, name, data, replace)
            case Err(_) => true
            case Ok(image') => Achieves(image, image', g, L, L', name, data)
  {
    BlockPositive(g, |image|);
    hide Sound, InjectNamed, Accepts, Achieves, Fits, g.BlockBytes;
    L' := L;
    AcceptedIff(image, g, L, name, data, replace);
    if InjectNamed(image, g, name, data, replace).Ok? {
      L' := AcceptedAchieves(image, g, L, name, data, replace);
    }
  }

  lemma {:induction false} FirstCopy(fats: seq<seq<byte>>, f: seq<byte>, g: Geometry, len: nat)
    requires Fits(g, len) && |fats| == g.fatCount && forall j :: 0 <= j < g.fatCount ==> fats[j] == f
    ensures fats[0] == f
  {
  }
}
