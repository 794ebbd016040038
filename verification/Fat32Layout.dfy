/** Which bytes belong to which cluster: framing of cluster writes, and directory entries by chain position. */
module Fat32Layout {
  import opened Arithmetic
  import opened Bytes
  import opened Chains
  import opened LongNames
  import opened Directory
  import opened Fat32Volume

  // ----- writes confined to some clusters -----

  /** `image'` differs from `image` only inside the clusters `cs`. */
  predicate Touches(image: seq<byte>, image': seq<byte>, lba: int, g: Geometry, cs: set<nat>)
    requires Fits(g, lba, |image|)
  {
    && |image'| == |image|
    && (forall c :: 2 <= c < g.Top() && c !in cs ==> Block(image', lba, g, c) == Block(image, lba, g, c))
    && FatImage(image', lba, g) == FatImage(image, lba, g)
    && SameFats(image, image', lba, g)
    && SameOutside(image, image', lba, g)
  }

  /** Every FAT copy is the same. */
  predicate SameFats(image: seq<byte>, image': seq<byte>, lba: int, g: Geometry)
    requires Fits(g, lba, |image|) && |image'| == |image|
  {
    forall i :: 0 <= i < g.fatCount ==> FatCopy(image', lba, g, i) == FatCopy(image, lba, g, i)
  }

  /** Bytes written behind the FATs leave them alone. */
  lemma {:induction false} SpliceBehindFats(image: seq<byte>, lba: int, g: Geometry, off: nat, b: seq<byte>)
    requires Fits(g, lba, |image|) && AreaStart(lba, g) <= off && off + |b| <= |image|
    ensures FatImage(Splice(image, off, b), lba, g) == FatImage(image, lba, g)
    ensures SameFats(image, Splice(image, off, b), lba, g)
  {
    hide Splice, AreaStart, AreaEnd, Fits, FatOffset;
    FitsBasics(g, lba, |image|);
    FatCopyBounds(lba, g, |image|, 0);
    SpliceWindow(image, off, b, FatOffset(lba, g, 0), FatOffset(lba, g, 0) + g.FatBytes());
    forall i | 0 <= i < g.fatCount ensures FatCopy(Splice(image, off, b), lba, g, i) == FatCopy(image, lba, g, i) {
      FatCopyBounds(lba, g, |image|, i);
      SpliceWindow(image, off, b, FatOffset(lba, g, i), FatOffset(lba, g, i) + g.FatBytes());
    }
  }

  lemma {:induction false} TouchesTrans(a: seq<byte>, b: seq<byte>, c: seq<byte>, lba: int, g: Geometry, s: set<nat>,
                                        u: set<nat>)
    requires Fits(g, lba, |a|) && Touches(a, b, lba, g, s) && Touches(b, c, lba, g, u)
    ensures Touches(a, c, lba, g, s + u)
  {
    hide Block, FatImage, FatCopy;
    SameOutsideTrans(a, b, c, lba, g);
  }

  lemma {:induction false} TouchesMore(a: seq<byte>, b: seq<byte>, lba: int, g: Geometry, s: set<nat>, u: set<nat>)
    requires Fits(g, lba, |a|) && Touches(a, b, lba, g, s) && s <= u
    ensures Touches(a, b, lba, g, u)
  {
    hide Block, FatImage, SameOutside, SameFats;
  }

  /** Bytes written inside one cluster stay inside it. */
  lemma {:induction false} SpliceInBlock(image: seq<byte>, lba: int, g: Geometry, off: nat, b: seq<byte>, c: nat)
    requires Fits(g, lba, |image|) && 2 <= c < g.Top()
    requires BlockOffset(lba, g, c) <= off && off + |b| <= BlockOffset(lba, g, c) + g.BlockBytes()
    ensures off + |b| <= |image|
    ensures Touches(image, Splice(image, off, b), lba, g, {c})
  {
    BlockBounds(lba, g, |image|, c);
    FatCopyBounds(lba, g, |image|, 0);
    var image' := Splice(image, off, b);
    forall d | 2 <= d < g.Top() && d != c ensures Block(image', lba, g, d) == Block(image, lba, g, d) {
      BlockBounds(lba, g, |image|, d);
      if d < c { BlocksApart(lba, g, d, c); } else { BlocksApart(lba, g, c, d); }
      hide BlockOffset;
      SpliceWindow(image, off, b, BlockOffset(lba, g, d), BlockOffset(lba, g, d) + g.BlockBytes());
    }
    SpliceBehindFats(image, lba, g, off, b);
    assert SameOutside(image, image', lba, g) by { hide BlockOffset; }
  }

  function PutBlock(image: seq<byte>, lba: int, g: Geometry, c: nat, b: seq<byte>): (r: seq<byte>)
    requires Fits(g, lba, |image|) && 2 <= c < g.Top() && |b| == g.BlockBytes()
    ensures |r| == |image|
  {
    BlockBounds(lba, g, |image|, c);
    Splice(image, BlockOffset(lba, g, c), b)
  }

  lemma {:induction false} PutBlockReads(image: seq<byte>, lba: int, g: Geometry, c: nat, b: seq<byte>)
    requires Fits(g, lba, |image|) && 2 <= c < g.Top() && |b| == g.BlockBytes()
    ensures Block(PutBlock(image, lba, g, c, b), lba, g, c) == b
    ensures Touches(image, PutBlock(image, lba, g, c, b), lba, g, {c})
  {
    BlockBounds(lba, g, |image|, c);
    SpliceInBlock(image, lba, g, BlockOffset(lba, g, c), b, c);
    SpliceWindow(image, BlockOffset(lba, g, c), b, BlockOffset(lba, g, c), BlockOffset(lba, g, c) + |b|);
  }

  lemma {:induction false} TouchesSameBlocks(image: seq<byte>, image': seq<byte>, lba: int, g: Geometry, s: set<nat>,
                                             cs: seq<nat>)
    requires Fits(g, lba, |image|) && Touches(image, image', lba, g, s) && InRange(g, cs)
    requires forall c :: c in cs ==> c !in s
    ensures SameBlocks(image, image', lba, g, cs)
  {
    hide Block;
  }

  // ----- entries by position in the chain -----

  /** The offsets of a cluster's entries. */
  function BlockOffsets(lba: int, g: Geometry, c: nat): (r: seq<nat>)
    requires lba >= 0 && c >= 2
    ensures |r| == g.BlockSlots()
  {
    seq(g.BlockSlots(), j => BlockOffset(lba, g, c) + 32 * j)
  }

  function Offsets(lba: int, g: Geometry, chain: seq<nat>): seq<nat>
    requires lba >= 0 && InRange(g, chain)
  {
    if chain == [] then []
    else Offsets(lba, g, chain[..|chain| - 1]) + BlockOffsets(lba, g, chain[|chain| - 1])
  }

  lemma {:induction false} OffsetsSnoc(lba: int, g: Geometry, chain: seq<nat>, c: nat)
    requires lba >= 0 && InRange(g, chain) && 2 <= c < g.Top()
    ensures InRange(g, chain + [c])
    ensures Offsets(lba, g, chain + [c]) == Offsets(lba, g, chain) + BlockOffsets(lba, g, c)
  {
    hide BlockOffsets;
    assert (chain + [c])[..|chain|] == chain;
  }

  lemma {:induction false} OffsetsAppend(lba: int, g: Geometry, a: seq<nat>, b: seq<nat>)
    requires lba >= 0 && InRange(g, a) && InRange(g, b)
    ensures InRange(g, a + b)
    ensures Offsets(lba, g, a + b) == Offsets(lba, g, a) + Offsets(lba, g, b)
    decreases |b|
  {
    if b == [] {
      assert a + b == a;
    } else {
      var n := |b| - 1;
      OffsetsAppend(lba, g, a, b[..n]);
      assert a + b == (a + b[..n]) + [b[n]] && b == b[..n] + [b[n]];
      OffsetsSnoc(lba, g, a + b[..n], b[n]);
      OffsetsSnoc(lba, g, b[..n], b[n]);
      hide *;
      ConcatAssoc(Offsets(lba, g, a), Offsets(lba, g, b[..n]), BlockOffsets(lba, g, b[n]));
    }
  }

  lemma {:induction false} OffsetsAt(lba: int, g: Geometry, chain: seq<nat>, i: nat, j: nat)
    requires lba >= 0 && InRange(g, chain) && i < |chain| && j < g.BlockSlots()
    ensures InRange(g, chain[..i]) && InRange(g, chain[..i + 1])
    ensures |Offsets(lba, g, chain[..i + 1])| == |Offsets(lba, g, chain[..i])| + g.BlockSlots()
            <= |Offsets(lba, g, chain)|
    ensures Offsets(lba, g, chain)[|Offsets(lba, g, chain[..i])| + j] == BlockOffset(lba, g, chain[i]) + 32 * j
  {
    hide BlockOffset;
    assert chain[..i + 1] == chain[..i] + [chain[i]] && chain == chain[..i + 1] + chain[i + 1..];
    OffsetsSnoc(lba, g, chain[..i], chain[i]);
    OffsetsAppend(lba, g, chain[..i + 1], chain[i + 1..]);
    assert BlockOffsets(lba, g, chain[i])[j] == BlockOffset(lba, g, chain[i]) + 32 * j;
    hide Offsets, BlockOffsets;
  }

  /** The entry at `off` lies inside cluster `c`. */
  predicate Within(lba: int, g: Geometry, off: nat, c: nat)
    requires lba >= 0 && c >= 2
  {
    BlockOffset(lba, g, c) <= off && off + 32 <= BlockOffset(lba, g, c) + g.BlockBytes()
  }

  lemma {:induction false} OffsetOwner(lba: int, g: Geometry, chain: seq<nat>, i: nat) returns (c: nat)
    requires lba >= 0 && InRange(g, chain) && i < |Offsets(lba, g, chain)|
    ensures c in chain && 2 <= c < g.Top() && Within(lba, g, Offsets(lba, g, chain)[i], c)
    decreases |chain|
  {
    var front, last := chain[..|chain| - 1], chain[|chain| - 1];
    if i < |Offsets(lba, g, front)| {
      c := OffsetOwner(lba, g, front, i);
    } else {
      c := last;
      hide BlockOffset;
      var j := i - |Offsets(lba, g, front)|;
      assert Offsets(lba, g, chain)[i] == BlockOffsets(lba, g, last)[j];
    }
  }

  predicate Apart(a: nat, b: nat) { a + 32 <= b || b + 32 <= a }

  lemma {:induction false} WithinApart(lba: int, g: Geometry, a: nat, c: nat, b: nat, d: nat)
    requires lba >= 0 && 2 <= c && 2 <= d && c != d && Within(lba, g, a, c) && Within(lba, g, b, d)
    ensures Apart(a, b)
  {
    if c < d { BlocksApart(lba, g, c, d); } else { BlocksApart(lba, g, d, c); }
    hide BlockOffset;
  }

  /** Different entries of a chain never overlap. */
  lemma {:induction false} OffsetsApart(lba: int, g: Geometry, chain: seq<nat>, i: nat, j: nat)
    requires lba >= 0 && InRange(g, chain) && Distinct(chain) && i < j < |Offsets(lba, g, chain)|
    ensures Apart(Offsets(lba, g, chain)[i], Offsets(lba, g, chain)[j])
    decreases |chain|
  {
    var front, last := chain[..|chain| - 1], chain[|chain| - 1];
    var n := |Offsets(lba, g, front)|;
    if j < n {
      OffsetsApart(lba, g, front, i, j);
    } else {
      assert Offsets(lba, g, chain)[j] == BlockOffsets(lba, g, last)[j - n];
      if i < n {
        var c := OffsetOwner(lba, g, front, i);
        hide BlockOffset;
        assert Within(lba, g, Offsets(lba, g, chain)[j], last);
        WithinApart(lba, g, Offsets(lba, g, front)[i], c, Offsets(lba, g, chain)[j], last);
      } else {
        hide BlockOffset;
        assert Offsets(lba, g, chain)[i] == BlockOffsets(lba, g, last)[i - n];
      }
    }
  }

  predicate InImage(offs: seq<nat>, len: nat) {
    forall i :: 0 <= i < |offs| ==> offs[i] + 32 <= len
  }

  lemma {:induction false} OffsetsInImage(lba: int, g: Geometry, chain: seq<nat>, len: nat)
    requires Fits(g, lba, len) && InRange(g, chain)
    ensures InImage(Offsets(lba, g, chain), len)
  {
    forall i | 0 <= i < |Offsets(lba, g, chain)| ensures Offsets(lba, g, chain)[i] + 32 <= len {
      var c := OffsetOwner(lba, g, chain, i);
      BlockBounds(lba, g, len, c);
      hide BlockOffset;
    }
  }

  function SlotAt(image: seq<byte>, off: nat): (s: Slot)
    requires off + 32 <= |image|
    ensures |s.raw| == 32
  {
    Slot(off, image[off..off + 32])
  }

  function SlotsAt(image: seq<byte>, offs: seq<nat>): (r: seq<Slot>)
    requires InImage(offs, |image|)
    ensures |r| == |offs| && Shaped(r)
  {
    seq(|offs|, i requires 0 <= i < |offs| => SlotAt(image, offs[i]))
  }

  /** A directory's entries, in chain order. */
  function DirSlots(image: seq<byte>, lba: int, g: Geometry, chain: seq<nat>): (r: seq<Slot>)
    requires Fits(g, lba, |image|) && InRange(g, chain)
    ensures Shaped(r) && |r| == |Offsets(lba, g, chain)|
  {
    OffsetsInImage(lba, g, chain, |image|);
    SlotsAt(image, Offsets(lba, g, chain))
  }

  lemma {:induction false} SlotInBlock(image: seq<byte>, image': seq<byte>, lba: int, g: Geometry, off: nat, c: nat)
    requires Fits(g, lba, |image|) && |image'| == |image| && 2 <= c < g.Top() && Within(lba, g, off, c)
    requires Block(image', lba, g, c) == Block(image, lba, g, c)
    ensures off + 32 <= |image| && SlotAt(image', off) == SlotAt(image, off)
  {
    BlockBounds(lba, g, |image|, c);
    var base := BlockOffset(lba, g, c);
    hide BlockOffset;
    SubWindow(image', base, base + g.BlockBytes(), off - base, off - base + 32);
    SubWindow(image, base, base + g.BlockBytes(), off - base, off - base + 32);
  }

  /** Entries are read from their chain's clusters only. */
  lemma {:induction false} DirSlotsFrame(image: seq<byte>, image': seq<byte>, lba: int, g: Geometry, chain: seq<nat>)
    requires Fits(g, lba, |image|) && |image'| == |image| && InRange(g, chain)
    requires SameBlocks(image, image', lba, g, chain)
    ensures DirSlots(image', lba, g, chain) == DirSlots(image, lba, g, chain)
  {
    var offs := Offsets(lba, g, chain);
    OffsetsInImage(lba, g, chain, |image|);
    forall i | 0 <= i < |offs| ensures SlotAt(image', offs[i]) == SlotAt(image, offs[i]) {
      var c := OffsetOwner(lba, g, chain, i);
      hide Block, BlockOffset, SlotAt;
      SlotInBlock(image, image', lba, g, offs[i], c);
    }
  }

  // ----- writing entries -----

  function PutEntries(image: seq<byte>, offs: seq<nat>, raws: seq<seq<byte>>, n: nat): (r: seq<byte>)
    requires n <= |offs| == |raws| && InImage(offs, |image|) && Whole(raws)
    ensures |r| == |image|
    decreases n
  {
    if n == 0 then image else Splice(PutEntries(image, offs, raws, n - 1), offs[n - 1], raws[n - 1])
  }

  predicate AllApart(offs: seq<nat>) {
    forall i, j :: 0 <= i < j < |offs| ==> Apart(offs[i], offs[j])
  }

  /** Reading any entry after writing: the last one written there, or what was there. */
  lemma {:induction false} PutEntriesReads(image: seq<byte>, offs: seq<nat>, raws: seq<seq<byte>>, n: nat, off: nat,
                                           k: int)
    requires n <= |offs| == |raws| && InImage(offs, |image|) && Whole(raws)
    requires AllApart(offs) && off + 32 <= |image|
    requires (0 <= k < n && off == offs[k]) || (k == -1 && forall i :: 0 <= i < n ==> Apart(offs[i], off))
    ensures SlotAt(PutEntries(image, offs, raws, n), off) == if k >= 0 then Slot(off, raws[k]) else SlotAt(image, off)
    decreases n
  {
    if n > 0 {
      var before := PutEntries(image, offs, raws, n - 1);
      SpliceWindow(before, offs[n - 1], raws[n - 1], off, off + 32);
      if k < n - 1 { PutEntriesReads(image, offs, raws, n - 1, off, k); }
    }
  }

  /** A run of consecutive chain positions. */
  predicate RunOf(run: seq<nat>, offs: seq<nat>, s: nat) {
    s + |run| <= |offs| && run == offs[s..s + |run|]
  }

  predicate Whole(raws: seq<seq<byte>>) {
    forall k :: 0 <= k < |raws| ==> |raws[k]| == 32
  }

  lemma {:induction false} WholeEntries(name: Name, short: seq<byte>)
    requires EntryCount(name) <= 20 && |short| == 32
    ensures Whole(NewEntries(name, short))
  {
  }

  lemma {:induction false} RunFacts(run: seq<nat>, offs: seq<nat>, s: nat, len: nat)
    requires RunOf(run, offs, s) && InImage(offs, len) && AllApart(offs)
    ensures InImage(run, len) && AllApart(run)
    ensures forall i, j :: 0 <= i < |offs| && !(s <= i < s + |run|) && 0 <= j < |run| ==> Apart(run[j], offs[i])
  {
    forall i, j | 0 <= i < |offs| && !(s <= i < s + |run|) && 0 <= j < |run| ensures Apart(run[j], offs[i]) {
      assert run[j] == offs[s + j];
    }
  }

  lemma {:induction false} PutEntriesSlot(image: seq<byte>, offs: seq<nat>, run: seq<nat>, raws: seq<seq<byte>>, s: nat,
                                          i: nat)
    requires InImage(offs, |image|) && AllApart(offs) && RunOf(run, offs, s) && |raws| == |run| && Whole(raws)
    requires i < |offs| && InImage(run, |image|)
    ensures SlotAt(PutEntries(image, run, raws, |raws|), offs[i])
            == if s <= i < s + |run| then Slot(offs[i], raws[i - s]) else SlotAt(image, offs[i])
  {
    hide *;
    RunFacts(run, offs, s, |image|);
    RunIndex(run, raws, offs, s, i);
    InImageAt(offs, |image|, i);
    if s <= i < s + |run| {
      PutEntriesReads(image, run, raws, |raws|, offs[i], i - s);
    } else {
      PutEntriesReads(image, run, raws, |raws|, offs[i], -1);
    }
  }

  lemma {:induction false} SlotsAtIndex(image: seq<byte>, offs: seq<nat>, i: nat)
    requires InImage(offs, |image|) && i < |offs|
    ensures SlotsAt(image, offs)[i] == SlotAt(image, offs[i])
  {
  }

  lemma {:induction false} RunIndex(run: seq<nat>, raws: seq<seq<byte>>, offs: seq<nat>, s: nat, i: nat)
    requires RunOf(run, offs, s) && |raws| == |run| && i < |offs|
    ensures s <= i < s + |run| ==> run[i - s] == offs[i] && SlotsOf(run, raws)[i - s] == Slot(offs[i], raws[i - s])
    ensures s + |run| <= |offs|
  {
  }

  lemma {:induction false} InImageAt(offs: seq<nat>, len: nat, i: nat)
    requires InImage(offs, len) && i < |offs|
    ensures offs[i] + 32 <= len
  {
  }

  lemma {:induction false} PutEntriesIndex(image: seq<byte>, offs: seq<nat>, run: seq<nat>, raws: seq<seq<byte>>,
                                           s: nat, i: nat)
    requires InImage(offs, |image|) && AllApart(offs) && RunOf(run, offs, s) && |raws| == |run| && Whole(raws)
    requires i < |offs| && InImage(run, |image|)
    ensures SlotsAt(PutEntries(image, run, raws, |raws|), offs)[i]
            == if s <= i < s + |run| then SlotsOf(run, raws)[i - s] else SlotsAt(image, offs)[i]
  {
    hide *;
    var image' := PutEntries(image, run, raws, |raws|);
    SlotsAtIndex(image', offs, i);
    SlotsAtIndex(image, offs, i);
    RunIndex(run, raws, offs, s, i);
    PutEntriesSlot(image, offs, run, raws, s, i);
  }

  /** Writing a run of a chain's entries replaces exactly those entries. */
  lemma {:induction false} PutEntriesSlots(image: seq<byte>, offs: seq<nat>, run: seq<nat>, raws: seq<seq<byte>>,
                                           s: nat)
    requires InImage(offs, |image|) && AllApart(offs) && RunOf(run, offs, s) && |raws| == |run| && Whole(raws)
    requires InImage(run, |image|)
    ensures SlotsAt(PutEntries(image, run, raws, |raws|), offs)
            == SlotsAt(image, offs)[..s] + SlotsOf(run, raws) + SlotsAt(image, offs)[s + |run|..]
  {
    hide SlotsAt, SlotsOf, PutEntries, AllApart, InImage, Whole;
    var image' := PutEntries(image, run, raws, |raws|);
    var olds, news, mid := SlotsAt(image, offs), SlotsAt(image', offs), SlotsOf(run, raws);
    forall i | 0 <= i < |offs| ensures news[i] == if s <= i < s + |mid| then mid[i - s] else olds[i] {
      PutEntriesIndex(image, offs, run, raws, s, i);
    }
    WindowReplaced(olds, news, s, mid);
  }

  /** Entries written at chain positions stay in the chain's clusters. */
  lemma {:induction false} PutEntriesTouches(image: seq<byte>, lba: int, g: Geometry, chain: seq<nat>, s: nat,
                                             raws: seq<seq<byte>>, n: nat)
    requires Fits(g, lba, |image|) && InRange(g, chain) && InImage(Offsets(lba, g, chain), |image|)
    requires s + |raws| <= |Offsets(lba, g, chain)| && n <= |raws| && Whole(raws)
    ensures InImage(Offsets(lba, g, chain)[s..s + |raws|], |image|)
    ensures Touches(image, PutEntries(image, Offsets(lba, g, chain)[s..s + |raws|], raws, n), lba, g, SetOf(chain))
    decreases n
  {
    hide Offsets, SameOutside, Block, FatImage;
    var run := Offsets(lba, g, chain)[s..s + |raws|];
    var owners := SetOf(chain);
    if n > 0 {
      hide Touches, Fits, BlockOffset;
      PutEntriesTouches(image, lba, g, chain, s, raws, n - 1);
      var before := PutEntries(image, run, raws, n - 1);
      var c := OffsetOwner(lba, g, chain, s + n - 1);
      SpliceInBlock(before, lba, g, run[n - 1], raws[n - 1], c);
      TouchesMore(before, Splice(before, run[n - 1], raws[n - 1]), lba, g, {c}, owners);
      TouchesTrans(image, before, Splice(before, run[n - 1], raws[n - 1]), lba, g, owners, owners);
      assert owners + owners == owners;
    } else {
      assert SameOutside(image, image, lba, g) by { TouchesNothing(image, lba, g); }
    }
  }

  lemma {:induction false} TouchesNothing(image: seq<byte>, lba: int, g: Geometry)
    requires Fits(g, lba, |image|)
    ensures SameOutside(image, image, lba, g) && Touches(image, image, lba, g, {})
  {
  }

  // ----- writing the allocation table -----

  function PutFats(image: seq<byte>, lba: int, g: Geometry, fat: seq<byte>, n: nat): (r: seq<byte>)
    requires Fits(g, lba, |image|) && |fat| == g.FatBytes() && n <= g.fatCount
    ensures |r| == |image|
    decreases n
  {
    if n == 0 then image
    else
      FatCopyBounds(lba, g, |image|, n - 1);
      Splice(PutFats(image, lba, g, fat, n - 1), FatOffset(lba, g, n - 1), fat)
  }

  function FatCopy(image: seq<byte>, lba: int, g: Geometry, copy: nat): (r: seq<byte>)
    requires Fits(g, lba, |image|) && copy < g.fatCount
  {
    FatCopyBounds(lba, g, |image|, copy);
    image[FatOffset(lba, g, copy)..FatOffset(lba, g, copy) + g.FatBytes()]
  }

  lemma {:induction false} FatCopiesApart(lba: int, g: Geometry, i: nat, j: nat)
    requires lba >= 0 && i < j
    ensures FatOffset(lba, g, i) + g.FatBytes() <= FatOffset(lba, g, j)
  {
    MulMonotone(i + 1, j, g.spf);
  }

  lemma {:induction false} PutFatsUnfold(image: seq<byte>, lba: int, g: Geometry, fat: seq<byte>, n: nat)
    requires Fits(g, lba, |image|) && |fat| == g.FatBytes() && 1 <= n <= g.fatCount
    ensures FatOffset(lba, g, n - 1) + |fat| <= |image|
    ensures PutFats(image, lba, g, fat, n) == Splice(PutFats(image, lba, g, fat, n - 1), FatOffset(lba, g, n - 1), fat)
  {
    FatCopyBounds(lba, g, |image|, n - 1);
    hide Fits, FatOffset, Splice;
  }

  lemma {:induction false} FatCopySplice(image: seq<byte>, lba: int, g: Geometry, fat: seq<byte>, at: nat, copy: nat)
    requires Fits(g, lba, |image|) && |fat| == g.FatBytes() && copy <= at < g.fatCount
    ensures FatOffset(lba, g, at) + |fat| <= |image|
    ensures FatCopy(Splice(image, FatOffset(lba, g, at), fat), lba, g, copy)
            == if copy == at then fat else FatCopy(image, lba, g, copy)
  {
    FatCopyBounds(lba, g, |image|, at);
    FatCopyBounds(lba, g, |image|, copy);
    if copy < at { FatCopiesApart(lba, g, copy, at); }
    hide Fits, FatOffset, Splice;
    SpliceWindow(image, FatOffset(lba, g, at), fat, FatOffset(lba, g, copy), FatOffset(lba, g, copy) + g.FatBytes());
  }

  /** Every FAT copy ends up as the table written. */
  lemma {:induction false} PutFatsCopies(image: seq<byte>, lba: int, g: Geometry, fat: seq<byte>, n: nat, copy: nat)
    requires Fits(g, lba, |image|) && |fat| == g.FatBytes() && copy < n <= g.fatCount
    ensures FatCopy(PutFats(image, lba, g, fat, n), lba, g, copy) == fat
    decreases n
  {
    hide *;
    PutFatsUnfold(image, lba, g, fat, n);
    FatCopySplice(PutFats(image, lba, g, fat, n - 1), lba, g, fat, n - 1, copy);
    if copy < n - 1 { PutFatsCopies(image, lba, g, fat, n - 1, copy); }
  }

  lemma {:induction false} FatSpliceFrame(image: seq<byte>, lba: int, g: Geometry, fat: seq<byte>, at: nat)
    requires Fits(g, lba, |image|) && |fat| == g.FatBytes() && at < g.fatCount
    ensures FatOffset(lba, g, at) + |fat| <= AreaStart(lba, g) <= |image|
    ensures SameOutside(image, Splice(image, FatOffset(lba, g, at), fat), lba, g)
    ensures Splice(image, FatOffset(lba, g, at), fat)[AreaStart(lba, g)..] == image[AreaStart(lba, g)..]
  {
    FatCopyBounds(lba, g, |image|, at);
    hide Fits, FatOffset, AreaStart, AreaEnd;
    SpliceWindow(image, FatOffset(lba, g, at), fat, AreaStart(lba, g), |image|);
  }

  lemma {:induction false} PutFatsNone(image: seq<byte>, lba: int, g: Geometry, fat: seq<byte>)
    requires Fits(g, lba, |image|) && |fat| == g.FatBytes()
    ensures PutFats(image, lba, g, fat, 0) == image && AreaStart(lba, g) <= |image|
    ensures SameOutside(image, image, lba, g)
  {
    TouchesNothing(image, lba, g);
    FatCopyBounds(lba, g, |image|, 0);
  }

  /** The bytes from the data area on are left alone when the FATs are written. */
  lemma {:induction false} PutFatsFrame(image: seq<byte>, lba: int, g: Geometry, fat: seq<byte>, n: nat)
    requires Fits(g, lba, |image|) && |fat| == g.FatBytes() && n <= g.fatCount
    ensures SameOutside(image, PutFats(image, lba, g, fat, n), lba, g)
    ensures AreaStart(lba, g) <= |image|
    ensures PutFats(image, lba, g, fat, n)[AreaStart(lba, g)..] == image[AreaStart(lba, g)..]
    decreases n
  {
    hide *;
    PutFatsNone(image, lba, g, fat);
    if n > 0 {
      PutFatsFrame(image, lba, g, fat, n - 1);
      PutFatsUnfold(image, lba, g, fat, n);
      var before := PutFats(image, lba, g, fat, n - 1);
      FatSpliceFrame(before, lba, g, fat, n - 1);
      SameOutsideTrans(image, before, PutFats(image, lba, g, fat, n), lba, g);
    }
  }

  lemma {:induction false} AreaBlocks(image: seq<byte>, image': seq<byte>, lba: int, g: Geometry, c: nat)
    requires Fits(g, lba, |image|) && |image'| == |image| && 2 <= c < g.Top()
    requires AreaStart(lba, g) <= |image| && image'[AreaStart(lba, g)..] == image[AreaStart(lba, g)..]
    ensures Block(image', lba, g, c) == Block(image, lba, g, c)
  {
    BlockBounds(lba, g, |image|, c);
    hide BlockOffset, AreaEnd;
    var a, base := AreaStart(lba, g), BlockOffset(lba, g, c);
    hide AreaStart;
    SubWindow(image', a, |image'|, base - a, base - a + g.BlockBytes());
    SubWindow(image, a, |image|, base - a, base - a + g.BlockBytes());
    assert image'[a..|image'|] == image'[a..] && image[a..|image|] == image[a..];
  }
}
