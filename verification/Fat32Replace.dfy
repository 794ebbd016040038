/** Replacing a file: when wiping the old entries is exact, and what the replacement leaves behind. */
module Fat32Replace {
  import opened Arithmetic
  import opened Bytes
  import opened DataBlocks
  import opened Chains
  import opened LongNames
  import opened Directory
  import opened Fat32Volume
  import opened Fat32Layout
  import opened Fat32Slots
  import opened Fat32Files
  import opened Fat32Live
  import opened Fat32Store
  import opened Fat32Inject

  // ----- the wiped range -----

  predicate InBlock(lba: int, g: Geometry, c: nat, x: nat)
    requires lba >= 0 && c >= 2
  {
    BlockOffset(lba, g, c) <= x < BlockOffset(lba, g, c) + g.BlockBytes()
  }

  /** A byte of a cluster on a live chain. */
  ghost predicate LiveByte(lba: int, g: Geometry, L: Layout, x: nat)
    requires lba >= 0
  {
    exists s, c :: s in L && c in L[s] && c >= 2 && InBlock(lba, g, c, x)
  }

  predicate InRun(offs: seq<nat>, a: nat, b: nat, x: nat)
    requires b < |offs|
  {
    exists i :: a <= i <= b && offs[i] <= x < offs[i] + 32
  }

  /** The wipe is exact: it runs upward, and every live byte it covers outside the record's own entries is already what
      it writes. A record whose entries are physically adjacent always meets this. */
  ghost predicate WipeSafe(image: seq<byte>, lba: int, g: Geometry, L: Layout, offs: seq<nat>, a: nat, b: nat)
    requires lba >= 0 && a <= b < |offs| && offs[b] + 32 <= |image|
  {
    && offs[a] <= offs[b]
    && forall x :: offs[a] <= x < offs[b] + 32 && LiveByte(lba, g, L, x) && !InRun(offs, a, b, x) ==>
       image[x] == DELETED
  }

  /** Entries a..b, one after the other in the image: a run inside one cluster, or across adjacent ascending ones. */
  predicate Adjacent(offs: seq<nat>, a: nat, b: nat)
    requires a <= b < |offs|
  {
    forall i :: a <= i <= b ==> offs[i] == offs[a] + 32 * (i - a)
  }

  /** The same from the image alone: upward, and every covered byte of a cluster in use, but for the victim's own chain
      `ch` and the record's own entries, is already what the wipe writes. */
  ghost predicate SafeRange(image: seq<byte>, lba: int, g: Geometry, t: seq<nat>, ch: seq<nat>, offs: seq<nat>, a: nat,
                            b: nat)
    requires lba >= 0 && a <= b < |offs| && offs[b] + 32 <= |image| && g.Top() <= |t|
  {
    && offs[a] <= offs[b]
    && forall c: nat, x: nat ::
      InUse(t, g, ch, c) && InBlock(lba, g, c, x) && offs[a] <= x < offs[b] + 32 && !InRun(offs, a, b, x) ==>
         image[x] == DELETED
  }

  /** A cluster in use outside the chain `ch`. */
  predicate InUse(t: seq<nat>, g: Geometry, ch: seq<nat>, c: nat)
    requires g.Top() <= |t|
  {
    2 <= c < g.Top() && t[c] != 0 && c !in ch
  }

  lemma {:induction false} RangeIsSafe(image: seq<byte>, lba: int, g: Geometry, t: seq<nat>, L: Layout, c: nat,
                                       offs: seq<nat>, a: nat, b: nat)
    requires lba >= 0 && a <= b < |offs| && offs[b] + 32 <= |image| && ChainsOk(t, g, L)
    requires SafeRange(image, lba, g, t, ChainAt(L, c), offs, a, b)
    ensures WipeSafe(image, lba, g, L - {c}, offs, a, b)
  {
    hide InBlock, InRun, IsChain;
    forall x | offs[a] <= x < offs[b] + 32 && LiveByte(lba, g, L - {c}, x) && !InRun(offs, a, b, x)
      ensures image[x] == DELETED
    {
      var s, e :| s in L - {c} && e in (L - {c})[s] && e >= 2 && InBlock(lba, g, e, x);
      LiveInUse(t, g, L, c, s, e);
      assert InUse(t, g, ChainAt(L, c), e);
    }
  }

  lemma {:induction false} LiveInUse(t: seq<nat>, g: Geometry, L: Layout, c: nat, s: nat, e: nat)
    requires ChainsOk(t, g, L) && s in L && s != c && e in L[s]
    ensures InUse(t, g, ChainAt(L, c), e)
  {
    ChainNotFree(t, L[s], g.Top(), EOF, e);
    assert c in L ==> Disjoint(L[s], L[c]);
  }

  /** On a volume without lost clusters the two conditions are one. */
  lemma {:induction false} SafeRangeIff(image: seq<byte>, lba: int, g: Geometry, t: seq<nat>, L: Layout, c: nat,
                                        offs: seq<nat>, a: nat, b: nat)
    requires lba >= 0 && a <= b < |offs| && offs[b] + 32 <= |image| && ChainsOk(t, g, L) && NoLeaks(t, g, L)
    ensures SafeRange(image, lba, g, t, ChainAt(L, c), offs, a, b) <==> WipeSafe(image, lba, g, L - {c}, offs, a, b)
  {
    hide InBlock, InRun, ChainsOk;
    TopBound(t, g, L);
    if SafeRange(image, lba, g, t, ChainAt(L, c), offs, a, b) { RangeIsSafe(image, lba, g, t, L, c, offs, a, b); }
    if WipeSafe(image, lba, g, L - {c}, offs, a, b) {
      forall e: nat, x: nat | InUse(t, g, ChainAt(L, c), e) && InBlock(lba, g, e, x) && offs[a] <= x < offs[b] + 32 &&
          !InRun(offs, a, b, x)
        ensures image[x] == DELETED
      {
        var s :| s in L && e in L[s];
        assert s in L - {c} && e in (L - {c})[s];
        assert LiveByte(lba, g, L - {c}, x);
      }
    }
  }

  lemma {:induction false} AdjacentInRun(offs: seq<nat>, a: nat, b: nat, x: nat)
    requires a <= b < |offs| && Adjacent(offs, a, b) && offs[a] <= x < offs[b] + 32
    ensures InRun(offs, a, b, x)
  {
    var i := a + (x - offs[a]) / 32;
    assert a <= i <= b && offs[i] <= x < offs[i] + 32;
  }

  /** Adjacent entries are always safe to wipe. */
  lemma {:induction false} AdjacentRange(image: seq<byte>, lba: int, g: Geometry, t: seq<nat>, ch: seq<nat>,
                                         offs: seq<nat>, a: nat, b: nat)
    requires lba >= 0 && a <= b < |offs| && offs[b] + 32 <= |image| && g.Top() <= |t| && Adjacent(offs, a, b)
    ensures SafeRange(image, lba, g, t, ch, offs, a, b)
  {
    hide InBlock, InRun;
    assert offs[b] == offs[a] + 32 * (b - a);
    forall x | offs[a] <= x < offs[b] + 32 ensures InRun(offs, a, b, x) { AdjacentInRun(offs, a, b, x); }
  }

  /** Live bytes outside the run survive the wipe. */
  ghost predicate WipeKeeps(image: seq<byte>, image': seq<byte>, lba: int, g: Geometry, L: Layout, offs: seq<nat>,
                            a: nat, b: nat)
    requires lba >= 0 && b < |offs|
  {
    |image'| == |image| && forall x :: 0 <= x < |image| && LiveByte(lba, g, L, x) && !InRun(offs, a, b, x) ==>
        image'[x] == image[x]
  }

  lemma {:induction false} SafeKeeps(image: seq<byte>, lba: int, g: Geometry, L: Layout, offs: seq<nat>, a: nat, b: nat)
    requires lba >= 0 && a <= b < |offs| && offs[b] + 32 <= |image| && WipeSafe(image, lba, g, L, offs, a, b)
    ensures WipeKeeps(image, Wipe(image, offs[a], offs[b] + 32), lba, g, L, offs, a, b)
  {
    hide LiveByte, InRun;
  }

  lemma {:induction false} KeepsSafe(image: seq<byte>, lba: int, g: Geometry, L: Layout, offs: seq<nat>, a: nat, b: nat)
    requires lba >= 0 && a <= b < |offs| && offs[b] + 32 <= |image| && offs[a] <= offs[b]
    requires WipeKeeps(image, Wipe(image, offs[a], offs[b] + 32), lba, g, L, offs, a, b)
    ensures WipeSafe(image, lba, g, L, offs, a, b)
  {
    hide LiveByte, InRun;
    var image' := Wipe(image, offs[a], offs[b] + 32);
    forall x | offs[a] <= x < offs[b] + 32 && LiveByte(lba, g, L, x) && !InRun(offs, a, b, x)
      ensures image[x] == DELETED
    {
      assert image'[x] == image[x];
    }
  }

  lemma {:induction false} BlockKept(image: seq<byte>, image': seq<byte>, lba: int, g: Geometry, L: Layout,
                                     chain: seq<nat>, a: nat, b: nat, s: nat, c: nat)
    requires Fits(g, lba, |image|) && InRange(g, chain) && b < |Offsets(lba, g, chain)| && s in L && c in L[s]
    requires 2 <= c < g.Top() && c !in chain
    requires WipeKeeps(image, image', lba, g, L, Offsets(lba, g, chain), a, b)
    ensures Block(image', lba, g, c) == Block(image, lba, g, c)
  {
    var offs, base := Offsets(lba, g, chain), BlockOffset(lba, g, c);
    BlockBounds(lba, g, |image|, c);
    forall x | base <= x < base + g.BlockBytes() ensures image'[x] == image[x] {
      assert InBlock(lba, g, c, x) && LiveByte(lba, g, L, x);
      if InRun(offs, a, b, x) {
        var i :| a <= i <= b && offs[i] <= x < offs[i] + 32;
        hide Offsets, Fits;
        var e := OffsetOwner(lba, g, chain, i);
        BlocksMiss(lba, g, c, e, x, offs[i]);
      }
    }
    hide Offsets, Fits, BlockOffset;
  }

  lemma {:induction false} BlocksMiss(lba: int, g: Geometry, c: nat, e: nat, x: nat, off: nat)
    requires lba >= 0 && 2 <= c && 2 <= e && c != e && InBlock(lba, g, c, x) && Within(lba, g, off, e)
    ensures !(off <= x < off + 32)
  {
    if c < e { BlocksApart(lba, g, c, e); } else { BlocksApart(lba, g, e, c); }
  }

  lemma {:induction false} SlotKept(image: seq<byte>, image': seq<byte>, lba: int, g: Geometry, L: Layout,
                                    chain: seq<nat>, a: nat, b: nat, s: nat, i: nat)
    requires Fits(g, lba, |image|) && InRange(g, chain) && Distinct(chain) && s in L && L[s] == chain
    requires a <= b < |Offsets(lba, g, chain)| && i < |Offsets(lba, g, chain)| && (i < a || b < i)
    requires WipeKeeps(image, image', lba, g, L, Offsets(lba, g, chain), a, b)
    ensures Offsets(lba, g, chain)[i] + 32 <= |image|
    ensures SlotAt(image', Offsets(lba, g, chain)[i]) == SlotAt(image, Offsets(lba, g, chain)[i])
  {
    var offs := Offsets(lba, g, chain);
    var off := offs[i];
    OffsetsInImage(lba, g, chain, |image|);
    var c := OffsetOwner(lba, g, chain, i);
    forall x | off <= x < off + 32 ensures image'[x] == image[x] {
      assert InBlock(lba, g, c, x) && LiveByte(lba, g, L, x);
      if InRun(offs, a, b, x) {
        var j :| a <= j <= b && offs[j] <= x < offs[j] + 32;
        hide Offsets, Fits;
        if i < j { OffsetsApart(lba, g, chain, i, j); } else { OffsetsApart(lba, g, chain, j, i); }
      }
    }
    hide Offsets, Fits, BlockOffset;
    assert image'[off..off + 32] == image[off..off + 32];
  }

  /** An entry apart from both ends of the range is wholly inside it or wholly outside. */
  lemma {:induction false} SlotWiped(image: seq<byte>, lo: nat, hi: nat, off: nat)
    requires lo < hi <= |image| && off + 32 <= |image|
    ensures lo <= off && off + 32 <= hi ==> SlotAt(Wipe(image, lo, hi), off).raw[0] == DELETED
    ensures off + 32 <= lo || hi <= off ==> SlotAt(Wipe(image, lo, hi), off) == SlotAt(image, off)
  {
    SpliceWindow(image, lo, Fill(DELETED, hi - lo), off, off + 32);
  }

  lemma {:induction false} RunWiped(image: seq<byte>, lba: int, g: Geometry, chain: seq<nat>, a: nat, b: nat, i: nat)
    requires Fits(g, lba, |image|) && InRange(g, chain) && Distinct(chain) && a <= i <= b < |Offsets(lba, g, chain)|
    requires Offsets(lba, g, chain)[a] <= Offsets(lba, g, chain)[b]
    ensures InImage(Offsets(lba, g, chain), |image|)
    ensures var offs := Offsets(lba, g, chain);
            var image' := Wipe(image, offs[a], offs[b] + 32);
            && (i == a || i == b ==> SlotAt(image', offs[i]).raw[0] == DELETED)
            && (SlotAt(image', offs[i]).raw[0] == DELETED || SlotAt(image', offs[i]) == SlotAt(image, offs[i]))
  {
    hide Offsets, Fits, Wipe, SlotAt;
    FitsBasics(g, lba, |image|);
    var offs := Offsets(lba, g, chain);
    OffsetsInImage(lba, g, chain, |image|);
    if a < i { OffsetsApart(lba, g, chain, a, i); }
    if i < b { OffsetsApart(lba, g, chain, i, b); }
    SlotWiped(image, offs[a], offs[b] + 32, offs[i]);
  }

  lemma {:induction false} WipedSlots(image: seq<byte>, lba: int, g: Geometry, L: Layout, d: nat, a: nat, b: nat)
    requires Fits(g, lba, |image|) && d in L && InRange(g, L[d]) && Distinct(L[d]) && a <= b < |Offsets(lba, g, L[d])|
    requires Offsets(lba, g, L[d])[b] + 32 <= |image| && Offsets(lba, g, L[d])[a] <= Offsets(lba, g, L[d])[b]
    requires WipeKeeps(image, Wipe(image, Offsets(lba, g, L[d])[a], Offsets(lba, g, L[d])[b] + 32), lba, g, L,
                       Offsets(lba, g, L[d]), a, b)
    ensures Wiped(DirSlots(image, lba, g, L[d]),
                  DirSlots(Wipe(image, Offsets(lba, g, L[d])[a], Offsets(lba, g, L[d])[b] + 32), lba, g, L[d]), a, b)
  {
    hide Offsets, Fits, Wipe, SlotAt, WipeKeeps, Distinct;
    FitsBasics(g, lba, |image|);
    var chain, offs := L[d], Offsets(lba, g, L[d]);
    var image' := Wipe(image, offs[a], offs[b] + 32);
    OffsetsInImage(lba, g, chain, |image|);
    forall i | 0 <= i < |offs|
      ensures i < a || b < i ==> SlotAt(image', offs[i]) == SlotAt(image, offs[i])
      ensures a <= i <= b ==>
              SlotAt(image', offs[i]).raw[0] == DELETED || SlotAt(image', offs[i]) == SlotAt(image, offs[i])
      ensures i == a || i == b ==> SlotAt(image', offs[i]).raw[0] == DELETED
    {
      if a <= i <= b { RunWiped(image, lba, g, chain, a, b, i); }
        else { SlotKept(image, image', lba, g, L, chain, a, b, d, i); }
    }
  }

  /** Slots a..b hold record `k`. */
  ghost predicate RecordAt(slots: seq<Slot>, k: nat, a: nat, b: nat)
    requires Shaped(slots)
  {
    && k < |Records(slots)| && IsRun(slots, a, b)
    && Records(slots)[k].lfnStart == slots[a].off && Records(slots)[k].offset == slots[b].off
    && Records(slots[..b]) == Records(slots)[..k] && Records(slots[b + 1..]) == Records(slots)[k + 1..]
    && Records(slots)[k].alias == slots[b].raw[..11]
  }

  lemma {:induction false} FindRecord(slots: seq<Slot>, k: nat) returns (a: nat, b: nat)
    requires Shaped(slots) && k < |Records(slots)|
    ensures RecordAt(slots, k, a, b)
  {
    hide Records, IsRun;
    a, b := RecordRun(slots, k);
    RunBounds(slots, a, b);
    var left, right := Records(slots[..b]), Records(slots[b + 1..]);
    assert Records(slots)[..k] == left && Records(slots)[k + 1..] == right;
  }

  /** The chain a record's file starts, as far as it can be walked. */
  function OwnChain(t: seq<nat>, g: Geometry, c: nat): seq<nat>
    requires g.Top() <= |t|
  {
    match FileChain(t, g, c) case Ok(ch) => ch case Err(_) => []
  }

  /** Record `k` of a directory can be wiped without harm. */
  ghost predicate Replaceable(image: seq<byte>, lba: int, g: Geometry, t: seq<nat>, chain: seq<nat>, k: nat)
    requires Fits(g, lba, |image|) && InRange(g, chain) && g.Top() <= |t|
  {
    var offs := Offsets(lba, g, chain);
    exists a: nat, b: nat ::
      && RecordAt(DirSlots(image, lba, g, chain), k, a, b) && a <= b < |offs| && offs[b] + 32 <= |image|
      && SafeRange(image, lba, g, t, OwnChain(t, g, Records(DirSlots(image, lba, g, chain))[k].cluster), offs, a, b)
  }

  /** Two positions of the data area in the same cluster. */
  predicate SameCluster(lba: int, g: Geometry, x: int, y: int)
    requires lba >= 0 && g.BlockBytes() > 0
  {
    (x - AreaStart(lba, g)) / g.BlockBytes() == (y - AreaStart(lba, g)) / g.BlockBytes()
  }

  lemma {:induction false} ClusterOf(lba: int, g: Geometry, c: nat, o: nat)
    requires lba >= 0 && c >= 2 && o < g.BlockBytes()
    ensures (BlockOffset(lba, g, c) + o - AreaStart(lba, g)) / g.BlockBytes() == c - 2
  {
    BlockFromStart(lba, g, c);
    hide BlockOffset, AreaStart;
    DivideWhole(c - 2, g.BlockBytes(), o);
  }

  lemma {:induction false} BlockFromStart(lba: int, g: Geometry, c: nat)
    requires lba >= 0 && c >= 2
    ensures BlockOffset(lba, g, c) == AreaStart(lba, g) + (c - 2) * g.BlockBytes()
  {
  }

  lemma {:induction false} OffsetPlace(lba: int, g: Geometry, chain: seq<nat>, n: nat) returns (i: nat, u: nat)
    requires lba >= 0 && InRange(g, chain) && n < |Offsets(lba, g, chain)|
    ensures i < |chain| && u < g.BlockSlots() && InRange(g, chain[..i]) && n == |Offsets(lba, g, chain[..i])| + u
    ensures Offsets(lba, g, chain)[n] == BlockOffset(lba, g, chain[i]) + 32 * u
    decreases |chain|
  {
    hide BlockOffset;
    var m := |chain| - 1;
    var front := chain[..m];
    if n < |Offsets(lba, g, front)| {
      i, u := OffsetPlace(lba, g, front, n);
      assert front[..i] == chain[..i];
    } else {
      i, u := m, n - |Offsets(lba, g, front)|;
      OffsetsAt(lba, g, chain, i, u);
    }
  }

  lemma {:induction false} OneClusterAdjacent(lba: int, g: Geometry, chain: seq<nat>, a: nat, b: nat)
    requires lba >= 0 && InRange(g, chain) && Distinct(chain) && a <= b < |Offsets(lba, g, chain)| && g.BlockBytes() > 0
    requires SameCluster(lba, g, Offsets(lba, g, chain)[a], Offsets(lba, g, chain)[b])
    ensures Adjacent(Offsets(lba, g, chain), a, b)
  {
    hide Offsets, BlockOffset, AreaStart;
    var i, u := OffsetPlace(lba, g, chain, a);
    var j, w := OffsetPlace(lba, g, chain, b);
    ClusterOf(lba, g, chain[i], 32 * u);
    ClusterOf(lba, g, chain[j], 32 * w);
    assert i == j;
    forall n | a <= n <= b ensures Offsets(lba, g, chain)[n] == Offsets(lba, g, chain)[a] + 32 * (n - a) {
      OffsetsAt(lba, g, chain, i, u + (n - a));
    }
  }

  /** A record whose first and last entry lie in one cluster can always be wiped without harm. */
  lemma {:induction false} OneCluster(image: seq<byte>, lba: int, g: Geometry, t: seq<nat>, chain: seq<nat>, k: nat)
    requires Fits(g, lba, |image|) && InRange(g, chain) && Distinct(chain) && g.Top() <= |t| && g.BlockBytes() > 0
    requires k < |Records(DirSlots(image, lba, g, chain))|
    requires var r := Records(DirSlots(image, lba, g, chain))[k]; SameCluster(lba, g, r.lfnStart, r.offset)
    ensures Replaceable(image, lba, g, t, chain, k)
  {
    hide Fits, InRange, Distinct, Records, DirSlots, Offsets, RecordAt, SameCluster, SafeRange, Adjacent, OwnChain,
         AreaStart, AreaEnd;
    FitsBasics(g, lba, |image|);
    var offs, slots := Offsets(lba, g, chain), DirSlots(image, lba, g, chain);
    var a, b := FindRecord(slots, k);
    RecordAtRun(slots, k, a, b);
    RunBounds(slots, a, b);
    RunInArea(image, lba, g, chain, a, b);
    VictimOffsets(image, lba, g, chain, k, a, b);
    OneClusterAdjacent(lba, g, chain, a, b);
    AdjacentRange(image, lba, g, t, OwnChain(t, g, Records(slots)[k].cluster), offs, a, b);
  }

  /** Wiping a record's entries removes it and leaves every other live byte alone exactly when the wipe is safe. */
  lemma {:induction false} WipeExact(image: seq<byte>, lba: int, g: Geometry, t: seq<nat>, dirs: set<nat>, L: Layout,
                                     M: Layout, d: nat, k: nat, a: nat, b: nat)
    requires Fits(g, lba, |image|) && Live(image, lba, g, t, dirs, L) && d in dirs && d in L && InRange(g, L[d])
    requires d in M && M[d] == L[d]
    requires RecordAt(DirSlots(image, lba, g, L[d]), k, a, b)
    requires b < |Offsets(lba, g, L[d])| && Offsets(lba, g, L[d])[b] + 32 <= |image|
    ensures var offs, slots := Offsets(lba, g, L[d]), DirSlots(image, lba, g, L[d]);
            var image' := Wipe(image, offs[a], offs[b] + 32);
            WipeSafe(image, lba, g, M, offs, a, b)
            <==> && WipeKeeps(image, image', lba, g, M, offs, a, b)
                 && Records(DirSlots(image', lba, g, L[d])) == Without(Records(slots), k)
  {
    hide Live, Offsets, Fits, WipeSafe, WipeKeeps, DirSlots, Records, IsRun, InRange, TailZero, Wiped;
    FitsBasics(g, lba, |image|);
    var offs, slots := Offsets(lba, g, L[d]), DirSlots(image, lba, g, L[d]);
    LiveChain(image, lba, g, t, dirs, L, d);
    RunBounds(slots, a, b);
    var image' := Wipe(image, offs[a], offs[b] + 32);
    if WipeSafe(image, lba, g, M, offs, a, b) {
      SafeUpward(image, lba, g, M, offs, a, b);
      SafeKeeps(image, lba, g, M, offs, a, b);
      WipedSlots(image, lba, g, M, d, a, b);
      RemoveRecord(slots, DirSlots(image', lba, g, L[d]), a, b);
    } else if WipeKeeps(image, image', lba, g, M, offs, a, b) {
      if offs[a] <= offs[b] {
        KeepsSafe(image, lba, g, M, offs, a, b);
      } else {
        OffsetsApart(lba, g, L[d], a, b);
        assert image' == image;
        WithoutShorter(Records(slots), k);
      }
    }
  }

  lemma {:induction false} RunBounds(slots: seq<Slot>, a: nat, b: nat)
    requires Shaped(slots) && IsRun(slots, a, b)
    ensures a <= b < |slots|
  {
  }

  lemma {:induction false} SafeUpward(image: seq<byte>, lba: int, g: Geometry, L: Layout, offs: seq<nat>, a: nat,
                                      b: nat)
    requires lba >= 0 && a <= b < |offs| && offs[b] + 32 <= |image| && WipeSafe(image, lba, g, L, offs, a, b)
    ensures offs[a] <= offs[b]
  {
  }

  lemma {:induction false} WithoutShorter(recs: seq<Record>, k: nat)
    requires k < |recs|
    ensures Without(recs, k) != recs
  {
    assert |Without(recs, k)| == |recs| - 1;
  }

  // ----- freeing the old file -----

  lemma {:induction false} ReleaseFatTable(fat: seq<byte>, ch: seq<nat>, n: nat)
    requires n <= |ch| && forall i :: 0 <= i < |ch| ==> 4 * ch[i] + 4 <= |fat|
    ensures Table(ReleaseFat(fat, ch, n)) == Chains.Release(Table(fat), ch, n)
    decreases n
  {
    hide Table, SetEntry;
    if n > 0 {
      ReleaseFatTable(fat, ch, n - 1);
      TableSet(ReleaseFat(fat, ch, n - 1), ch[n - 1], 0);
    }
  }

  /** The chain a record points to, if it has one. */
  ghost function ChainAt(L: Layout, c: nat): seq<nat> {
    if c in L then L[c] else []
  }

  lemma {:induction false} ReleasedChains(t: seq<nat>, g: Geometry, L: Layout, c: nat)
    requires ChainsOk(t, g, L) && c in L
    requires forall i :: 0 <= i < |L[c]| ==> L[c][i] < |t|
    ensures ChainsOk(Chains.Release(t, L[c], |L[c]|), g, L - {c})
    ensures FreeCount(Chains.Release(t, L[c], |L[c]|), g.Top()) == FreeCount(t, g.Top()) + |L[c]|
  {
    hide IsChain, FreeCount;
    LiveInRange(t, g, L, c);
    ReleaseChain(t, L[c], g.Top(), EOF);
    var M, t' := L - {c}, Chains.Release(t, L[c], |L[c]|);
    forall s | s in M ensures IsChain(t', M[s], g.Top(), EOF) && M[s] != [] && M[s][0] == s {
      assert Disjoint(M[s], L[c]);
      LiveInRange(t, g, L, s);
      forall x | x in M[s] ensures 0 <= x < |t| && t'[x] == t[x] { InLive(t, g, L, s, x); }
      ChainFrame(t, t', M[s], g.Top(), EOF);
    }
  }

  /** A replacement's victim: a listed file, or a directory nothing else leads to. */
  ghost predicate Victim(image: seq<byte>, lba: int, g: Geometry, t: seq<nat>, dirs: set<nat>, L: Layout, d: nat,
                         k: nat)
    requires Fits(g, lba, |image|)
  {
    && Live(image, lba, g, t, dirs, L) && d in dirs
    && k < |ListingOf(image, lba, g, dirs, L)[d]| && Removable(ListingOf(image, lba, g, dirs, L), d, k)
  }

  lemma {:induction false} VictimFrom(image: seq<byte>, lba: int, g: Geometry, t: seq<nat>, dirs: set<nat>, L: Layout,
                                      d: nat, k: nat)
    requires Fits(g, lba, |image|) && Live(image, lba, g, t, dirs, L) && d in dirs && DirsIn(g, dirs, L)
    requires k < |ListingOf(image, lba, g, dirs, L)[d]|
    requires !ListingOf(image, lba, g, dirs, L)[d][k].IsDirectory()
    ensures Victim(image, lba, g, t, dirs, L, d, k)
  {
    hide ChainsOk, DirsClean, ListingOf, Fits, DotEntry;
    var R: Listing := ListingOf(image, lba, g, dirs, L);
    assert RecordOk(R[d][k], R.Keys, L.Keys);
    if R[d][k].cluster in R.Keys { LiveHead(t, g, L, R[d][k].cluster); }
  }

  lemma {:induction false} VictimChain(image: seq<byte>, lba: int, g: Geometry, t: seq<nat>, dirs: set<nat>, L: Layout,
                                       d: nat, k: nat)
    requires Fits(g, lba, |image|) && Victim(image, lba, g, t, dirs, L, d, k)
    ensures DirsIn(g, dirs, L) && ChainsOk(t, g, L) && d in L && g.Top() <= |t|
    ensures var c := ListingOf(image, lba, g, dirs, L)[d][k].cluster;
            && c != ROOT && c != d && (c in L || c < 2)
            && FileChain(t, g, c) == Ok(ChainAt(L, c)) && InRange(g, ChainAt(L, c))
  {
    hide ChainsOk, DirSlots, DirsClean, InRange, Fits, ChainFrom, Records, DotEntry;
    LiveParts(image, lba, g, t, dirs, L);
    LiveChain(image, lba, g, t, dirs, L, d);
    var R := ListingOf(image, lba, g, dirs, L);
    var r := R[d][k];
    assert RecordOk(r, R.Keys, L.Keys);
    hide RecordOk, OwnersOk;
    TopBound(t, g, L);
    if r.cluster in L {
      LiveInRange(t, g, L, r.cluster);
      WalkReturnsChain(t, L[r.cluster], g.Top(), EOF);
    } else {
      NoBlocks(image, lba, g);
      assert ChainFrom(t, r.cluster, g.Top(), EOF) == Some([]) by { ShortWalk(t, r.cluster, g.Top()); }
    }
  }

  lemma {:induction false} ShortWalk(t: seq<nat>, c: nat, top: nat)
    requires top <= |t| && c < 2
    ensures ChainFrom(t, c, top, EOF) == Some([])
  {
  }

  /** After the old chain is freed and the old entries are wiped. */
  ghost predicate Removed(image: seq<byte>, t: seq<nat>, lba: int, g: Geometry, dirs: set<nat>, L: Layout, d: nat,
                          k: nat, image': seq<byte>, t': seq<nat>, rest: set<nat>, M: Layout)
    requires Fits(g, lba, |image|) && |image'| == |image| && DirsIn(g, dirs, L) && DirsIn(g, rest, M) && d in dirs
    requires k < |ListingOf(image, lba, g, dirs, L)[d]|
  {
    var R := ListingOf(image, lba, g, dirs, L);
    && rest == dirs - {R[d][k].cluster} && M == L - {R[d][k].cluster}
    && Live(image', lba, g, t', rest, M)
    && ListingOf(image', lba, g, rest, M) == Dropped(R, d, k)
    && (forall s :: s in M && s != d ==> InRange(g, L[s]) && SameBlocks(image, image', lba, g, L[s]))
    && g.Top() <= |t| && g.Top() <= |t'|
    && FreeCount(t', g.Top()) == FreeCount(t, g.Top()) + |ChainAt(L, R[d][k].cluster)|
    && (NoLeaks(t, g, L) ==> NoLeaks(t', g, M))
    && SameOutside(image, image', lba, g)
  }

  lemma {:induction false} WipeOutside(image: seq<byte>, lba: int, g: Geometry, lo: nat, hi: nat)
    requires Fits(g, lba, |image|) && AreaStart(lba, g) <= lo && hi <= AreaEnd(lba, g)
    ensures hi <= |image| && SameOutside(image, Wipe(image, lo, hi), lba, g)
  {
    FatCopyBounds(lba, g, |image|, 0);
    hide Fits, FatOffset, AreaStart, AreaEnd;
  }

  lemma {:induction false} WipedOthers(image: seq<byte>, image': seq<byte>, t: seq<nat>, lba: int, g: Geometry,
                                       L: Layout, M: Layout, d: nat, a: nat, b: nat, s: nat)
    requires Fits(g, lba, |image|) && ChainsOk(t, g, L) && d in L && InRange(g, L[d]) && b < |Offsets(lba, g, L[d])|
    requires s in M && s in L && M[s] == L[s] && s != d
    requires WipeKeeps(image, image', lba, g, M, Offsets(lba, g, L[d]), a, b)
    ensures InRange(g, L[s]) && |image'| == |image| && SameBlocks(image, image', lba, g, L[s])
  {
    LiveInRange(t, g, L, s);
    assert Disjoint(L[s], L[d]);
    hide Fits, Offsets, ChainsOk, Block, WipeKeeps;
    KeptLength(image, image', lba, g, M, Offsets(lba, g, L[d]), a, b);
    forall i | 0 <= i < |L[s]| ensures Block(image', lba, g, L[s][i]) == Block(image, lba, g, L[s][i]) {
      BlockKept(image, image', lba, g, M, L[d], a, b, s, L[s][i]);
    }
  }

  lemma {:induction false} KeptLength(image: seq<byte>, image': seq<byte>, lba: int, g: Geometry, L: Layout,
                                      offs: seq<nat>, a: nat, b: nat)
    requires lba >= 0 && b < |offs| && WipeKeeps(image, image', lba, g, L, offs, a, b)
    ensures |image'| == |image|
  {
  }

  lemma {:induction false} MinusDirs(g: Geometry, dirs: set<nat>, L: Layout, c: nat)
    requires DirsIn(g, dirs, L)
    ensures DirsIn(g, dirs - {c}, L - {c}) && (L - {c}).Keys == L.Keys - {c}
    ensures forall s :: s in L - {c} ==> s in L && (L - {c})[s] == L[s]
  {
    hide InRange;
  }

  lemma {:induction false} WipeLive(image: seq<byte>, lba: int, g: Geometry, t: seq<nat>, t': seq<nat>, dirs: set<nat>,
                                    L: Layout, d: nat, k: nat, a: nat, b: nat)
    requires Fits(g, lba, |image|) && Victim(image, lba, g, t, dirs, L, d, k) && DirsIn(g, dirs, L) && d in L
    requires InRange(g, L[d])
    requires RecordAt(DirSlots(image, lba, g, L[d]), k, a, b)
    requires a <= b < |Offsets(lba, g, L[d])| && Offsets(lba, g, L[d])[b] + 32 <= |image|
    requires var c := ListingOf(image, lba, g, dirs, L)[d][k].cluster;
             && WipeSafe(image, lba, g, L - {c}, Offsets(lba, g, L[d]), a, b)
             && InRange(g, ChainAt(L, c)) && g.Top() <= |t|
             && t' == Chains.Release(t, ChainAt(L, c), |ChainAt(L, c)|)
    ensures var c := ListingOf(image, lba, g, dirs, L)[d][k].cluster;
            && DirsIn(g, dirs - {c}, L - {c})
            && Removed(image, t, lba, g, dirs, L, d, k,
                       Wipe(image, Offsets(lba, g, L[d])[a], Offsets(lba, g, L[d])[b] + 32), t', dirs - {c}, L - {c})
  {
    hide *;
    FitsBasics(g, lba, |image|);
    VictimParts(image, lba, g, t, dirs, L, d, k);
    var R: Listing := ListingOf(image, lba, g, dirs, L);
    var c, offs := R[d][k].cluster, Offsets(lba, g, L[d]);
    var rest, M, image' := dirs - {c}, L - {c}, Wipe(image, offs[a], offs[b] + 32);
    VictimChain(image, lba, g, t, dirs, L, d, k);
    LiveParts(image, lba, g, t, dirs, L);
    LiveChain(image, lba, g, t, dirs, L, d);
    MinusDirs(g, dirs, L, c);
    WipeDir(image, lba, g, t, dirs, L, M, d, k, a, b);
    RunInArea(image, lba, g, L[d], a, b);
    WipeOutside(image, lba, g, offs[a], offs[b] + 32);
    ReleasedAll(t, g, L, c);
    forall s | s in M && s != d ensures InRange(g, L[s]) && SameBlocks(image, image', lba, g, L[s]) {
      WipedOthers(image, image', t, lba, g, L, M, d, a, b, s);
    }
    OwnersRemove(R, L.Keys, d, k);
    DroppedAt(R, d, k);
    var R' := Dropped(R, d, k);
    forall e | e in rest
      ensures e in M && InRange(g, M[e]) && TailZero(DirSlots(image', lba, g, M[e]))
      ensures Records(DirSlots(image', lba, g, M[e])) == R'[e]
    {
      LiveChain(image, lba, g, t, dirs, L, e);
      InRangeOf(g, rest, M, e);
      if e != d { DirSlotsFrame(image, image', lba, g, L[e]); }
    }
    LiveFrom(image', lba, g, t', rest, M, R');
    RemovedFrom(image, t, lba, g, dirs, L, d, k, image', t', rest, M);
  }

  lemma {:induction false} DroppedAt(R: Listing, d: nat, k: nat)
    requires d in R && k < |R[d]|
    ensures d in Dropped(R, d, k) && Dropped(R, d, k)[d] == Without(R[d], k)
    ensures forall e :: e in R && e != d && e != R[d][k].cluster ==>
            e in Dropped(R, d, k) && Dropped(R, d, k)[e] == R[e]
  {
  }

  lemma {:induction false} VictimParts(image: seq<byte>, lba: int, g: Geometry, t: seq<nat>, dirs: set<nat>, L: Layout,
                                       d: nat, k: nat)
    requires Fits(g, lba, |image|) && DirsIn(g, dirs, L) && Victim(image, lba, g, t, dirs, L, d, k)
    ensures Live(image, lba, g, t, dirs, L) && d in dirs
    ensures k < |ListingOf(image, lba, g, dirs, L)[d]| && Removable(ListingOf(image, lba, g, dirs, L), d, k)
  {
  }

  lemma {:induction false} RemovedFrom(image: seq<byte>, t: seq<nat>, lba: int, g: Geometry, dirs: set<nat>, L: Layout,
                                       d: nat, k: nat, image': seq<byte>, t': seq<nat>, rest: set<nat>, M: Layout)
    requires Fits(g, lba, |image|) && |image'| == |image| && DirsIn(g, dirs, L) && DirsIn(g, rest, M) && d in dirs
    requires k < |ListingOf(image, lba, g, dirs, L)[d]|
    requires rest == dirs - {ListingOf(image, lba, g, dirs, L)[d][k].cluster}
    requires M == L - {ListingOf(image, lba, g, dirs, L)[d][k].cluster} && Live(image', lba, g, t', rest, M)
    requires ListingOf(image', lba, g, rest, M) == Dropped(ListingOf(image, lba, g, dirs, L), d, k)
    requires forall s :: s in M && s != d ==> s in L && InRange(g, L[s]) && SameBlocks(image, image', lba, g, L[s])
    requires g.Top() <= |t| && g.Top() <= |t'|
    requires FreeCount(t', g.Top()) == FreeCount(t, g.Top())
             + |ChainAt(L, ListingOf(image, lba, g, dirs, L)[d][k].cluster)|
    requires NoLeaks(t, g, L) ==> NoLeaks(t', g, M)
    requires SameOutside(image, image', lba, g)
    ensures Removed(image, t, lba, g, dirs, L, d, k, image', t', rest, M)
  {
    hide Live, ListingOf, SameBlocks, SameOutside, FreeCount, InRange, Fits, Dropped, DirsIn, NoLeaks;
  }

  /** The directory after a safe wipe. */
  lemma {:induction false} WipeDir(image: seq<byte>, lba: int, g: Geometry, t: seq<nat>, dirs: set<nat>, L: Layout,
                                   M: Layout, d: nat, k: nat, a: nat, b: nat)
    requires Fits(g, lba, |image|) && Live(image, lba, g, t, dirs, L) && d in dirs && d in L && InRange(g, L[d])
    requires d in M && M[d] == L[d]
    requires RecordAt(DirSlots(image, lba, g, L[d]), k, a, b)
    requires a <= b < |Offsets(lba, g, L[d])| && Offsets(lba, g, L[d])[b] + 32 <= |image|
    requires WipeSafe(image, lba, g, M, Offsets(lba, g, L[d]), a, b)
    ensures var offs, slots := Offsets(lba, g, L[d]), DirSlots(image, lba, g, L[d]);
            var image' := Wipe(image, offs[a], offs[b] + 32);
            && k < |Records(slots)| && Records(DirSlots(image', lba, g, L[d])) == Without(Records(slots), k)
            && TailZero(DirSlots(image', lba, g, L[d]))
            && WipeKeeps(image, image', lba, g, M, offs, a, b)
  {
    hide *;
    FitsBasics(g, lba, |image|);
    var offs, slots := Offsets(lba, g, L[d]), DirSlots(image, lba, g, L[d]);
    var image' := Wipe(image, offs[a], offs[b] + 32);
    LiveChain(image, lba, g, t, dirs, L, d);
    RecordAtRun(slots, k, a, b);
    WipeExact(image, lba, g, t, dirs, L, M, d, k, a, b);
    SafeUpward(image, lba, g, M, offs, a, b);
    WipedSlots(image, lba, g, M, d, a, b);
    RemoveRecord(slots, DirSlots(image', lba, g, L[d]), a, b);
  }

  lemma {:induction false} RecordAtRun(slots: seq<Slot>, k: nat, a: nat, b: nat)
    requires Shaped(slots) && RecordAt(slots, k, a, b)
    ensures IsRun(slots, a, b) && k < |Records(slots)|
  {
  }

  lemma {:induction false} RunInArea(image: seq<byte>, lba: int, g: Geometry, chain: seq<nat>, a: nat, b: nat)
    requires Fits(g, lba, |image|) && InRange(g, chain) && a <= b < |Offsets(lba, g, chain)|
    ensures AreaStart(lba, g) <= Offsets(lba, g, chain)[a]
    ensures Offsets(lba, g, chain)[b] + 32 <= AreaEnd(lba, g) <= |image|
  {
    DirSlotsPlaced(image, lba, g, chain);
    hide Fits, Offsets, AreaStart, AreaEnd;
    var slots := DirSlots(image, lba, g, chain);
    OffsetsInImage(lba, g, chain, |image|);
    assert slots[a].off == Offsets(lba, g, chain)[a] && slots[b].off == Offsets(lba, g, chain)[b];
  }

  lemma {:induction false} ReleasedNoLeaks(t: seq<nat>, g: Geometry, L: Layout, c: nat)
    requires ChainsOk(t, g, L) && c in L && InRange(g, L[c]) && g.Top() <= |t|
    ensures NoLeaks(t, g, L) ==> NoLeaks(Chains.Release(t, L[c], |L[c]|), g, L - {c})
  {
    hide ChainsOk, IsChain, FreeCount, Chains.Release, Distinct;
    LiveInRange(t, g, L, c);
    ReleaseChain(t, L[c], g.Top(), EOF);
    var M, t' := L - {c}, Chains.Release(t, L[c], |L[c]|);
    if NoLeaks(t, g, L) {
      forall x | 2 <= x < g.Top() && t'[x] != 0 ensures exists s :: s in M && x in M[s] {
        var s :| s in L && x in L[s];
        assert s in M && x in M[s];
      }
    }
  }

  lemma {:induction false} ReleasedAll(t: seq<nat>, g: Geometry, L: Layout, c: nat)
    requires ChainsOk(t, g, L) && InRange(g, ChainAt(L, c)) && g.Top() <= |t|
    ensures var ch := ChainAt(L, c);
            && ChainsOk(Chains.Release(t, ch, |ch|), g, L - {c}) && g.Top() <= |Chains.Release(t, ch, |ch|)|
            && FreeCount(Chains.Release(t, ch, |ch|), g.Top()) == FreeCount(t, g.Top()) + |ch|
            && (NoLeaks(t, g, L) ==> NoLeaks(Chains.Release(t, ch, |ch|), g, L - {c}))
  {
    if c in L {
      ReleasedNoLeaks(t, g, L, c);
      hide ChainsOk, FreeCount, Chains.Release, NoLeaks;
      ReleasedChains(t, g, L, c);
    } else {
      assert Chains.Release(t, [], 0) == t && L - {c} == L;
    }
  }

  // ----- the whole replacement -----

  /** What a successful replacement of record `k` leaves behind. */
  ghost predicate Replaced(image: seq<byte>, t: seq<nat>, lba: int, g: Geometry, dirs: set<nat>, L: Layout, d: nat,
                           k: nat, name: Name, data: seq<byte>, image': seq<byte>, L': Layout, j: nat, r: Record)
    requires Fits(g, lba, |image|) && |image'| == |image| && DirsIn(g, dirs, L) && g.Top() <= |t| && d in dirs
    requires k < |ListingOf(image, lba, g, dirs, L)[d]|
  {
    var t' := Table(FatImage(image', lba, g));
    var R := ListingOf(image, lba, g, dirs, L);
    && Live(image', lba, g, t', dirs - {R[d][k].cluster}, L')
    && j <= |Without(R[d], k)|
    && ListingOf(image', lba, g, dirs - {R[d][k].cluster}, L') == Dropped(R, d, k)[d := With(Without(R[d], k), j, r)]
    && Describes(r, name, R[d][k].alias, r.cluster, |data|)
    && ReadRecord(image', lba, g, t', r) == Ok(data) && (r.cluster < 2 || r.cluster !in L - {R[d][k].cluster})
    && KeepsFiles(image, image', lba, g, dirs, L - {R[d][k].cluster}, L')
    && (forall i :: 0 <= i < g.fatCount ==> FatCopy(image', lba, g, i) == FatImage(image', lba, g))
    && d in L && d in L' && |L[d]| <= |L'[d]| && InRange(g, L[d]) && R[d][k].offset + 32 <= |image|
    && Lands(Wipe(image, R[d][k].lfnStart, R[d][k].offset + 32), lba, g, L[d], name, j, |L'[d]| - |L[d]|)
    && FreeCount(t', g.Top()) == FreeCount(t, g.Top())
       + |ChainAt(L, R[d][k].cluster)| - Needed(|data|, g.BlockBytes()) - (|L'[d]| - |L[d]|)
    && (NoLeaks(t, g, L) ==> NoLeaks(t', g, L'))
    && SameOutside(image, image', lba, g)
  }

  lemma {:induction false} VictimAlias(image: seq<byte>, lba: int, g: Geometry, t: seq<nat>, dirs: set<nat>, L: Layout,
                                       d: nat, k: nat, a: nat, b: nat)
    requires Fits(g, lba, |image|) && Live(image, lba, g, t, dirs, L) && DirsIn(g, dirs, L) && d in dirs && d in L
    requires InRange(g, L[d])
    requires RecordAt(DirSlots(image, lba, g, L[d]), k, a, b)
    ensures var recs := ListingOf(image, lba, g, dirs, L)[d];
            && k < |recs| && |recs[k].alias| == 11 && recs[k].alias[0] !in {0, DELETED}
            && forall i :: 0 <= i < |Without(recs, k)| ==> Without(recs, k)[i].alias != recs[k].alias
  {
    hide ChainsOk, DirsClean, Fits, InRange, DirSlots, TailZero, Parse;
    LiveParts(image, lba, g, t, dirs, L);
    LiveChain(image, lba, g, t, dirs, L, d);
    var recs := ListingOf(image, lba, g, dirs, L)[d];
    assert DistinctAliases(recs);
    forall i | 0 <= i < |recs| - 1 ensures Without(recs, k)[i].alias != recs[k].alias { WithoutIndex(recs, k, i); }
  }

  lemma {:induction false} KeepsTrans(a: seq<byte>, b: seq<byte>, c: seq<byte>, lba: int, g: Geometry, dirs: set<nat>,
                                      d: nat, L: Layout, M: Layout, N: Layout)
    requires Fits(g, lba, |a|) && |b| == |a| && |c| == |a| && d in dirs
    requires forall s :: s in M ==> s in L && M[s] == L[s]
    requires forall s :: s in M && s != d ==> InRange(g, L[s]) && SameBlocks(a, b, lba, g, L[s])
    requires KeepsFiles(b, c, lba, g, dirs, M, N)
    ensures KeepsFiles(a, c, lba, g, dirs, M, N)
  {
    hide SameBlocks, Fits, Blocks, InRange;
    forall s | s in M && s !in dirs
      ensures ChainBytes(b, lba, g, M, s) == ChainBytes(a, lba, g, M, s)
    {
      BlocksFrame(a, b, lba, g, M[s]);
    }
  }

  /** Replacing a file, or a directory nothing else leads to, whose wipe is safe: its record is exchanged for one that
      reads as the new data, and nothing else moves. */
  lemma {:induction false} ReplaceCorrect(image: seq<byte>, lba: int, g: Geometry, fat: seq<byte>, dirs: set<nat>,
                                          L: Layout, d: nat, k: nat, q: Request, a: nat, b: nat)
      returns (L': Layout, j: nat, r: Record)
    requires Fits(g, lba, |image|) && |fat| == g.FatBytes() && Victim(image, lba, g, Table(fat), dirs, L, d, k)
    requires DirsIn(g, dirs, L) && d in L && InRange(g, L[d])
    requires RecordAt(DirSlots(image, lba, g, L[d]), k, a, b)
    requires a <= b < |Offsets(lba, g, L[d])| && Offsets(lba, g, L[d])[b] + 32 <= |image| && g.Top() <= |Table(fat)|
    requires WipeSafe(image, lba, g, L - {ListingOf(image, lba, g, dirs, L)[d][k].cluster}, Offsets(lba, g, L[d]), a, b)
    requires var v := ListingOf(image, lba, g, dirs, L)[d][k];
             |v.alias| == 11 && v.offset + 32 <= |image| && Replace(image, lba, g, fat, d, v, q).error == None
    ensures Replaced(image, Table(fat), lba, g, dirs, L, d, k, q.name, q.data,
                     Replace(image, lba, g, fat, d, ListingOf(image, lba, g, dirs, L)[d][k], q).image, L', j, r)
  {
    hide *;
    FitsBasics(g, lba, |image|);
    var t := Table(fat);
    VictimParts(image, lba, g, t, dirs, L, d, k);
    VictimChain(image, lba, g, t, dirs, L, d, k);
    LiveChain(image, lba, g, t, dirs, L, d);
    VictimAlias(image, lba, g, t, dirs, L, d, k, a, b);
    var R: Listing := ListingOf(image, lba, g, dirs, L);
    var v, offs := R[d][k], Offsets(lba, g, L[d]);
    var ch, rest, M := ChainAt(L, v.cluster), dirs - {v.cluster}, L - {v.cluster};
    VictimOffsets(image, lba, g, L[d], k, a, b);
    ReplaceUnfold(image, lba, g, fat, d, v, q, ch);
    ReleaseFatTable(fat, ch, |ch|);
    var fat1, t1 := ReleaseFat(fat, ch, |ch|), Chains.Release(t, ch, |ch|);
    WipeLive(image, lba, g, t, t1, dirs, L, d, k, a, b);
    var image1 := Wipe(image, offs[a], offs[b] + 32);
    RemovedParts(image, t, lba, g, dirs, L, d, k, image1, t1, rest, M);
    L', j, r := StoreCorrect(image1, lba, g, fat1, rest, M, d, q.name, v.alias, q.data);
    ReplacedFrom(image, t, lba, g, dirs, L, d, k, q.name, q.data, image1, t1, rest, M,
                 Replace(image, lba, g, fat, d, v, q).image, L', j, r);
  }

  lemma {:induction false} VictimOffsets(image: seq<byte>, lba: int, g: Geometry, chain: seq<nat>, k: nat, a: nat,
                                         b: nat)
    requires Fits(g, lba, |image|) && InRange(g, chain) && RecordAt(DirSlots(image, lba, g, chain), k, a, b)
    requires a <= b < |Offsets(lba, g, chain)|
    ensures var r := Records(DirSlots(image, lba, g, chain))[k];
            r.lfnStart == Offsets(lba, g, chain)[a] && r.offset == Offsets(lba, g, chain)[b]
  {
    hide Records, IsRun, Offsets, Fits;
    OffsetsInImage(lba, g, chain, |image|);
  }

  lemma {:induction false} ReplaceUnfold(image: seq<byte>, lba: int, g: Geometry, fat: seq<byte>, d: nat, v: Record,
                                         q: Request, ch: seq<nat>)
    requires Fits(g, lba, |image|) && |fat| == g.FatBytes() && |v.alias| == 11 && v.offset + 32 <= |image|
    requires g.Top() <= |Table(fat)|
    requires FileChain(Table(fat), g, v.cluster) == Ok(ch)
    ensures forall i :: 0 <= i < |ch| ==> 4 * ch[i] + 4 <= |fat|
    ensures Replace(image, lba, g, fat, d, v, q)
            == Store(Wipe(image, v.lfnStart, v.offset + 32), lba, g, ReleaseFat(fat, ch, |ch|), d, q.name, v.alias,
                     q.data)
  {
    hide Store, Wipe, ReleaseFat, Table, FileChain;
    FitsBasics(g, lba, |image|);
  }

  lemma {:induction false} RemovedParts(image: seq<byte>, t: seq<nat>, lba: int, g: Geometry, dirs: set<nat>, L: Layout,
                                        d: nat, k: nat, image': seq<byte>, t': seq<nat>, rest: set<nat>, M: Layout)
    requires Fits(g, lba, |image|) && |image'| == |image| && DirsIn(g, dirs, L) && DirsIn(g, rest, M) && d in dirs
    requires k < |ListingOf(image, lba, g, dirs, L)[d]| && Removed(image, t, lba, g, dirs, L, d, k, image', t', rest, M)
    requires d != ListingOf(image, lba, g, dirs, L)[d][k].cluster
    ensures Live(image', lba, g, t', rest, M) && g.Top() <= |t'| && d in rest
    ensures ListingOf(image', lba, g, rest, M)[d] == Without(ListingOf(image, lba, g, dirs, L)[d], k)
  {
    hide Live, ListingOf, Without, SameBlocks, SameOutside, NoLeaks;
  }

  lemma {:induction false} ReplacedFrom(image: seq<byte>, t: seq<nat>, lba: int, g: Geometry, dirs: set<nat>, L: Layout,
                                        d: nat, k: nat, name: Name, data: seq<byte>, image1: seq<byte>, t1: seq<nat>,
                                        rest: set<nat>, M: Layout, image2: seq<byte>, L': Layout, j: nat, r: Record)
    requires Fits(g, lba, |image|) && |image1| == |image| && |image2| == |image| && DirsIn(g, dirs, L)
    requires DirsIn(g, rest, M) && g.Top() <= |t| && g.Top() <= |t1| && d in dirs
    requires k < |ListingOf(image, lba, g, dirs, L)[d]|
    requires ListingOf(image, lba, g, dirs, L)[d][k].offset + 32 <= |image|
    requires d != ListingOf(image, lba, g, dirs, L)[d][k].cluster
    requires image1 == Wipe(image, ListingOf(image, lba, g, dirs, L)[d][k].lfnStart,
                            ListingOf(image, lba, g, dirs, L)[d][k].offset + 32)
    requires Removed(image, t, lba, g, dirs, L, d, k, image1, t1, rest, M)
    requires Stored(image1, t1, lba, g, rest, M, d, name, ListingOf(image, lba, g, dirs, L)[d][k].alias, data, image2,
                    L', j, r)
    ensures Replaced(image, t, lba, g, dirs, L, d, k, name, data, image2, L', j, r)
  {
    hide Live, ListingOf, Without, With, SameBlocks, SameOutside, FreeCount, Table, FatImage, FatCopy, ReadRecord,
         Describes, KeepsFiles, InRange, Fits, ChainAt, Needed, DirsIn, NoLeaks, Lands, Wipe, Dropped;
    var R: Listing := ListingOf(image, lba, g, dirs, L);
    SameOutsideTrans(image, image1, image2, lba, g);
    MinusDirs(g, dirs, L, R[d][k].cluster);
    KeepsTrans(image, image1, image2, lba, g, rest, d, L, M, L');
    KeepsMore(image, image2, lba, g, rest, dirs, M, L');
    DroppedAt(R, d, k);
    assert M[d] == L[d];
  }

  lemma {:induction false} KeepsMore(image: seq<byte>, image': seq<byte>, lba: int, g: Geometry, rest: set<nat>,
                                     dirs: set<nat>, M: Layout, L': Layout)
    requires Fits(g, lba, |image|) && |image'| == |image| && rest <= dirs
    requires KeepsFiles(image, image', lba, g, rest, M, L')
    ensures KeepsFiles(image, image', lba, g, dirs, M, L')
  {
    hide ChainBytes;
  }
}
