/** Reserving consecutive directory entries, growing the directory when no run is long enough. */
module Fat32Slots {
  import opened Bytes
  import opened Chains
  import opened Fat32Volume
  import opened Fat32Layout
  import opened Directory

  // ----- the first run that fits -----

  predicate Fit(slots: seq<Slot>, s: nat, req: nat)
    requires Shaped(slots)
  {
    s + req <= |slots| && forall i :: s <= i < s + req ==> Free(slots[i])
  }

  /** The least position from `i` on where `req` consecutive entries are free. */
  function FirstFit(slots: seq<Slot>, req: nat, i: nat): (r: Option<nat>)
    requires Shaped(slots)
    ensures r.Some? ==> i <= r.value && Fit(slots, r.value, req) && forall j :: i <= j < r.value ==> !Fit(slots, j, req)
    ensures r.None? ==> forall j :: i <= j ==> !Fit(slots, j, req)
    decreases |slots| - i
  {
    if i + req > |slots| then None
    else if Fit(slots, i, req) then Some(i)
    else if i == |slots| then None
    else FirstFit(slots, req, i + 1)
  }

  /** How many entries at the end are free. */
  function Trailing(slots: seq<Slot>): (r: nat)
    requires Shaped(slots)
    ensures r <= |slots|
  {
    if slots == [] || !Free(slots[|slots| - 1]) then 0 else 1 + Trailing(slots[..|slots| - 1])
  }

  lemma {:induction false} TrailingFree(slots: seq<Slot>)
    requires Shaped(slots)
    ensures forall i :: |slots| - Trailing(slots) <= i < |slots| ==> Free(slots[i])
    ensures Trailing(slots) < |slots| ==> !Free(slots[|slots| - Trailing(slots) - 1])
    decreases |slots|
  {
    if slots != [] && Free(slots[|slots| - 1]) { TrailingFree(slots[..|slots| - 1]); }
  }

  lemma {:induction false} EndsFrom(slots: seq<Slot>, p: nat, q: nat)
    requires Shaped(slots) && TailZero(slots) && p <= q < |slots| && End(slots[p])
    ensures End(slots[q]) && Free(slots[q])
  {
  }

  lemma {:induction false} NoEndTake(slots: seq<Slot>, s: nat)
    requires Shaped(slots) && s <= |slots| && forall p :: 0 <= p < s ==> !End(slots[p])
    ensures NoEnd(slots[..s])
  {
  }

  lemma {:induction false} FitFromEnd(slots: seq<Slot>, p: nat, req: nat)
    requires Shaped(slots) && TailZero(slots) && p < |slots| && p + req <= |slots| && End(slots[p])
    ensures Fit(slots, p, req)
  {
    hide TailZero, Free;
    forall i | p <= i < p + req ensures Free(slots[i]) { EndsFrom(slots, p, i); }
  }

  /** No end mark precedes the first fitting run. */
  lemma {:induction false} NoEndBeforeFit(slots: seq<Slot>, req: nat, s: nat)
    requires Shaped(slots) && TailZero(slots) && FirstFit(slots, req, 0) == Some(s)
    ensures NoEnd(slots[..s])
  {
    hide FirstFit, TailZero, NoEnd, Free;
    forall p | 0 <= p < s ensures !End(slots[p]) {
      if End(slots[p]) { FitFromEnd(slots, p, req); }
    }
    NoEndTake(slots, s);
  }

  lemma {:induction false} NoEndBefore(slots: seq<Slot>, s: nat)
    requires Shaped(slots) && TailZero(slots) && s <= |slots| && (s > 0 ==> !Free(slots[s - 1]))
    ensures NoEnd(slots[..s])
  {
    hide TailZero, NoEnd, Free;
    forall p | 0 <= p < s ensures !End(slots[p]) {
      if End(slots[p]) { EndsFrom(slots, p, s - 1); }
    }
    NoEndTake(slots, s);
  }

  lemma {:induction false} NoEndBeforeTrailing(slots: seq<Slot>)
    requires Shaped(slots) && TailZero(slots)
    ensures NoEnd(slots[..|slots| - Trailing(slots)])
  {
    TrailingFree(slots);
    NoEndBefore(slots, |slots| - Trailing(slots));
  }

  // ----- growing the chain -----

  datatype Growth = Growth(image: seq<byte>, fat: seq<byte>, chain: seq<nat>, ok: bool)

  function Extend(fat: seq<byte>, previous: nat, c: nat): (r: seq<byte>)
    requires 4 * previous + 4 <= |fat| && 4 * c + 4 <= |fat|
    ensures |r| == |fat|
  {
    SetEntry(SetEntry(fat, previous, c), c, EOF)
  }

  /** One cleared cluster after another is linked to the end until `have` entries reach `req`. */
  function Grow(image: seq<byte>, lba: int, g: Geometry, fat: seq<byte>, chain: seq<nat>, have: nat,
                req: nat): (r: Growth)
    requires Fits(g, lba, |image|) && |fat| == g.FatBytes() && chain != [] && InRange(g, chain)
    ensures |r.image| == |image| && |r.fat| == |fat| && InRange(g, r.chain) && r.chain != []
    decreases if have < req then req - have else 0
  {
    if have >= req then Growth(image, fat, chain, true)
    else match Allocate(Table(fat), 1, g.Top())
      case None => Growth(image, fat, chain, false)
      case Some(cs) =>
        Grow(PutBlock(image, lba, g, cs[0], Fill(0, g.BlockBytes())), lba, g,
             Extend(fat, chain[|chain| - 1], cs[0]), chain + [cs[0]], have + g.BlockSlots(), req)
  }

  lemma {:induction false} GrowRoom(image: seq<byte>, lba: int, g: Geometry, fat: seq<byte>, chain: seq<nat>, have: nat,
                                    req: nat)
    requires Fits(g, lba, |image|) && |fat| == g.FatBytes() && chain != [] && InRange(g, chain)
    ensures Grow(image, lba, g, fat, chain, have, req).ok ==>
              |Offsets(lba, g, Grow(image, lba, g, fat, chain, have, req).chain)| + have >= |Offsets(lba, g, chain)|
                  + req
    decreases if have < req then req - have else 0
  {
    hide *;
    if have >= req {
      GrowNone(image, lba, g, fat, chain, have, req);
    } else if Grow(image, lba, g, fat, chain, have, req).ok {
      var c := GrowSome(image, lba, g, fat, chain, have, req);
      OffsetsSnoc(lba, g, chain, c);
      GrowRoom(PutBlock(image, lba, g, c, Fill(0, g.BlockBytes())), lba, g,
               Extend(fat, chain[|chain| - 1], c), chain + [c], have + g.BlockSlots(), req);
    }
  }

  /** `chain'` is `chain` grown by clusters that were free and now hold zeros; nothing else moved. */
  predicate Grown(image: seq<byte>, t: seq<nat>, chain: seq<nat>, image': seq<byte>, t': seq<nat>, chain': seq<nat>,
                  lba: int, g: Geometry)
    requires Fits(g, lba, |image|) && chain != []
  {
    && |image'| == |image| && |t'| == |t| && g.Top() <= |t|
    && chain <= chain' && IsChain(t', chain', g.Top(), EOF)
    && (forall c :: c in chain'[|chain|..] ==>
        2 <= c < g.Top() && t[c] == 0 && Block(image', lba, g, c) == Fill(0, g.BlockBytes()))
    && (forall c :: 0 <= c < |t| && c !in chain'[|chain|..] && c != chain[|chain| - 1] ==> t'[c] == t[c])
    && Touches(image, image', lba, g, SetOf(chain'[|chain|..]))
    && FreeCount(t', g.Top()) == FreeCount(t, g.Top()) - (|chain'| - |chain|)
  }

  lemma {:induction false} GrownNone(image: seq<byte>, t: seq<nat>, chain: seq<nat>, lba: int, g: Geometry)
    requires Fits(g, lba, |image|) && IsChain(t, chain, g.Top(), EOF)
    ensures Grown(image, t, chain, image, t, chain, lba, g)
  {
    TouchesNothing(image, lba, g);
    assert chain[|chain|..] == [];
    assert SetOf(chain[|chain|..]) == {};
    hide Touches, FreeCount, Block;
  }

  lemma {:induction false} ExtendTable(fat: seq<byte>, previous: nat, c: nat)
    requires 4 * previous + 4 <= |fat| && 4 * c + 4 <= |fat| && c <= EOF
    ensures Table(Extend(fat, previous, c)) == Table(fat)[previous := c][c := EOF]
  {
    TableSet(fat, previous, c);
    TableSet(SetEntry(fat, previous, c), c, EOF);
    hide Table, SetEntry;
  }

  lemma {:induction false} ExtendChain(t: seq<nat>, chain: seq<nat>, c: nat, top: nat)
    requires IsChain(t, chain, top, EOF) && 2 <= c < top && t[c] == 0
    ensures IsChain(t[chain[|chain| - 1] := c][c := EOF], chain + [c], top, EOF)
    ensures FreeCount(t[chain[|chain| - 1] := c][c := EOF], top) == FreeCount(t, top) - 1
  {
    var last := chain[|chain| - 1];
    ChainNotFree(t, chain, top, EOF, last);
    assert c !in chain by { if c in chain { ChainNotFree(t, chain, top, EOF, c); } }
    FreeCountUpdate(t, top, last, c);
    FreeCountTake(t[last := c], top, c, EOF);
    hide FreeCount;
  }

  lemma {:induction false} GrownOne(image: seq<byte>, t: seq<nat>, chain: seq<nat>, c: nat, lba: int, g: Geometry)
    requires Fits(g, lba, |image|) && IsChain(t, chain, g.Top(), EOF) && 2 <= c < g.Top() && t[c] == 0
    ensures Grown(image, t, chain, PutBlock(image, lba, g, c, Fill(0, g.BlockBytes())),
                  t[chain[|chain| - 1] := c][c := EOF], chain + [c], lba, g)
  {
    ExtendChain(t, chain, c, g.Top());
    PutBlockReads(image, lba, g, c, Fill(0, g.BlockBytes()));
    hide Touches, FreeCount, Block, IsChain, PutBlock, Fits;
    var chain' := chain + [c];
    assert chain'[|chain|..] == [c];
    assert SetOf(chain'[|chain|..]) == {c};
  }

  /** Growing twice is growing once. */
  lemma {:induction false} GrownTrans(image: seq<byte>, t: seq<nat>, chain: seq<nat>, image1: seq<byte>, t1: seq<nat>,
                                      chain1: seq<nat>, image2: seq<byte>, t2: seq<nat>, chain2: seq<nat>, lba: int,
                                      g: Geometry)
    requires Fits(g, lba, |image|) && IsChain(t, chain, g.Top(), EOF) && |image1| == |image| && chain1 != []
    requires Grown(image, t, chain, image1, t1, chain1, lba, g) && Grown(image1, t1, chain1, image2, t2, chain2, lba, g)
    ensures Grown(image, t, chain, image2, t2, chain2, lba, g)
  {
    var a, b, ab := chain1[|chain|..], chain2[|chain1|..], chain2[|chain|..];
    assert ab == a + b;
    var sa, sb, sab := SetOf(a), SetOf(b), SetOf(ab);
    assert sab == sa + sb;
    TouchesTrans(image, image1, image2, lba, g, sa, sb);
    forall c | c in ab ensures 2 <= c < g.Top() && t[c] == 0 && Block(image2, lba, g, c) == Fill(0, g.BlockBytes()) {
      GrownTransCluster(image, t, chain, image1, t1, chain1, image2, t2, chain2, lba, g, c);
    }
    hide Touches, Block, FreeCount, IsChain, Fits;
    forall c | 0 <= c < |t| && c !in ab && c != chain[|chain| - 1] ensures t2[c] == t[c] {
      assert c !in a && c !in b;
      assert chain1[|chain1| - 1] in a || chain1 == chain;
    }
  }

  lemma {:induction false} GrownTransCluster(image: seq<byte>, t: seq<nat>, chain: seq<nat>, image1: seq<byte>,
                                             t1: seq<nat>, chain1: seq<nat>, image2: seq<byte>, t2: seq<nat>,
                                             chain2: seq<nat>, lba: int, g: Geometry, c: nat)
    requires Fits(g, lba, |image|) && IsChain(t, chain, g.Top(), EOF) && |image1| == |image| && chain1 != []
    requires Grown(image, t, chain, image1, t1, chain1, lba, g) && Grown(image1, t1, chain1, image2, t2, chain2, lba, g)
    requires c in chain2[|chain|..]
    ensures 2 <= c < g.Top() && t[c] == 0 && Block(image2, lba, g, c) == Fill(0, g.BlockBytes())
  {
    hide Block, FreeCount, Fits, SameOutside, FatImage;
    var a, b := chain1[|chain|..], chain2[|chain1|..];
    assert chain2[|chain|..] == a + b;
    if c in b {
      assert t1[c] == 0;
      assert c !in chain1 by { if c in chain1 { ChainNotFree(t1, chain1, g.Top(), EOF, c); } }
      assert c !in a;
      assert c != chain[|chain| - 1] by { assert chain[|chain| - 1] in chain1; }
    } else {
      assert c in chain1;
      assert c !in b by { if c in b { ChainNotFree(t1, chain1, g.Top(), EOF, c); } }
    }
  }

  /** What growth achieves: enough entries, with no cluster more than needed. */
  predicate GrowthOk(image: seq<byte>, t: seq<nat>, chain: seq<nat>, have: nat, req: nat, r: Growth, lba: int,
                     g: Geometry)
    requires Fits(g, lba, |image|) && chain != []
  {
    && Grown(image, t, chain, r.image, Table(r.fat), r.chain, lba, g)
    && have + (|r.chain| - |chain|) * g.BlockSlots() >= req
    && (|r.chain| > |chain| ==> have + (|r.chain| - |chain| - 1) * g.BlockSlots() < req)
  }

  lemma {:induction false} GrowthNone(image: seq<byte>, lba: int, g: Geometry, fat: seq<byte>, chain: seq<nat>,
                                      have: nat, req: nat)
    requires Fits(g, lba, |image|) && IsChain(Table(fat), chain, g.Top(), EOF) && have >= req
    ensures GrowthOk(image, Table(fat), chain, have, req, Growth(image, fat, chain, true), lba, g)
  {
    GrownNone(image, Table(fat), chain, lba, g);
    hide Grown, IsChain, Table, Fits;
  }

  lemma {:induction false} GrownLonger(image: seq<byte>, t: seq<nat>, chain: seq<nat>, image': seq<byte>, t': seq<nat>,
                                       chain': seq<nat>, lba: int, g: Geometry)
    requires Fits(g, lba, |image|) && chain != [] && Grown(image, t, chain, image', t', chain', lba, g)
    ensures |image'| == |image| && |chain| <= |chain'| && chain'[0] == chain[0] && IsChain(t', chain', g.Top(), EOF)
  {
  }

  lemma {:induction false} GrowthCons(image: seq<byte>, t: seq<nat>, chain: seq<nat>, image1: seq<byte>, t1: seq<nat>,
                                      c: nat, have: nat, req: nat, r: Growth, lba: int, g: Geometry)
    requires Fits(g, lba, |image|) && IsChain(t, chain, g.Top(), EOF) && |image1| == |image| && have < req
    requires Grown(image, t, chain, image1, t1, chain + [c], lba, g)
    requires GrowthOk(image1, t1, chain + [c], have + g.BlockSlots(), req, r, lba, g)
    ensures GrowthOk(image, t, chain, have, req, r, lba, g)
  {
    hide Grown, Table, IsChain, Fits;
    GrownTrans(image, t, chain, image1, t1, chain + [c], r.image, Table(r.fat), r.chain, lba, g);
    GrownLonger(image1, t1, chain + [c], r.image, Table(r.fat), r.chain, lba, g);
    var n := g.BlockSlots();
    MulStep(|r.chain| - |chain|, n);
  }

  lemma {:induction false} GrowStep(image: seq<byte>, lba: int, g: Geometry, fat: seq<byte>, chain: seq<nat>, c: nat)
    requires Fits(g, lba, |image|) && |fat| == g.FatBytes() && IsChain(Table(fat), chain, g.Top(), EOF)
    requires 2 <= c < g.Top() && Table(fat)[c] == 0
    ensures IsChain(Table(Extend(fat, chain[|chain| - 1], c)), chain + [c], g.Top(), EOF)
    ensures Grown(image, Table(fat), chain, PutBlock(image, lba, g, c, Fill(0, g.BlockBytes())),
                  Table(Extend(fat, chain[|chain| - 1], c)), chain + [c], lba, g)
  {
    ExtendTable(fat, chain[|chain| - 1], c);
    ExtendChain(Table(fat), chain, c, g.Top());
    GrownOne(image, Table(fat), chain, c, lba, g);
    hide *;
  }

  lemma {:induction false} GrowCorrect(image: seq<byte>, lba: int, g: Geometry, fat: seq<byte>, chain: seq<nat>,
                                       have: nat, req: nat)
    requires Fits(g, lba, |image|) && |fat| == g.FatBytes() && chain != [] && InRange(g, chain)
    requires IsChain(Table(fat), chain, g.Top(), EOF)
    requires Grow(image, lba, g, fat, chain, have, req).ok
    ensures GrowthOk(image, Table(fat), chain, have, req, Grow(image, lba, g, fat, chain, have, req), lba, g)
    decreases if have < req then req - have else 0
  {
    hide *;
    if have >= req {
      GrowNone(image, lba, g, fat, chain, have, req);
      GrowthNone(image, lba, g, fat, chain, have, req);
    } else {
      var c := GrowSome(image, lba, g, fat, chain, have, req);
      GrowStep(image, lba, g, fat, chain, c);
      var image1, fat1 := PutBlock(image, lba, g, c, Fill(0, g.BlockBytes())), Extend(fat, chain[|chain| - 1], c);
      GrowCorrect(image1, lba, g, fat1, chain + [c], have + g.BlockSlots(), req);
      GrowthCons(image, Table(fat), chain, image1, Table(fat1), c, have, req,
                 Grow(image, lba, g, fat, chain, have, req), lba, g);
    }
  }

  lemma {:induction false} GrowNone(image: seq<byte>, lba: int, g: Geometry, fat: seq<byte>, chain: seq<nat>, have: nat,
                                    req: nat)
    requires Fits(g, lba, |image|) && |fat| == g.FatBytes() && chain != [] && InRange(g, chain) && have >= req
    ensures Grow(image, lba, g, fat, chain, have, req) == Growth(image, fat, chain, true)
  {
  }

  lemma {:induction false} GrowSome(image: seq<byte>, lba: int, g: Geometry, fat: seq<byte>, chain: seq<nat>, have: nat,
                                    req: nat) returns (c: nat)
    requires Fits(g, lba, |image|) && |fat| == g.FatBytes() && chain != [] && InRange(g, chain) && have < req
    requires Grow(image, lba, g, fat, chain, have, req).ok
    ensures 2 <= c < g.Top() && g.Top() <= |Table(fat)| && Table(fat)[c] == 0 && InRange(g, chain + [c])
    ensures g.BlockSlots() >= 16 && lba >= 1
    ensures 4 * chain[|chain| - 1] + 4 <= |fat| && 4 * c + 4 <= |fat|
    ensures Grow(image, lba, g, fat, chain, have, req)
            == Grow(PutBlock(image, lba, g, c, Fill(0, g.BlockBytes())), lba, g,
                    Extend(fat, chain[|chain| - 1], c), chain + [c], have + g.BlockSlots(), req)
  {
    hide PutBlock, Extend, Table;
    assert Allocate(Table(fat), 1, g.Top()).Some?;
    c := Allocate(Table(fat), 1, g.Top()).value[0];
  }

  lemma {:induction false} MulStep(a: int, n: nat)
    ensures a * n == (a - 1) * n + n && (a - 1) * n == (a - 2) * n + n
  {
  }

  // ----- entries of a grown directory -----

  lemma {:induction false} ZeroEntries(image: seq<byte>, lba: int, g: Geometry, cs: seq<nat>, i: nat)
    requires Fits(g, lba, |image|) && InRange(g, cs) && i < |Offsets(lba, g, cs)|
    requires forall c :: c in cs ==> Block(image, lba, g, c) == Fill(0, g.BlockBytes())
    ensures End(DirSlots(image, lba, g, cs)[i])
  {
    var off := Offsets(lba, g, cs)[i];
    var c := OffsetOwner(lba, g, cs, i);
    OffsetsInImage(lba, g, cs, |image|);
    BlockBounds(lba, g, |image|, c);
    hide Offsets, BlockOffset, Fits;
    assert image[off] == Block(image, lba, g, c)[off - BlockOffset(lba, g, c)];
  }

  lemma {:induction false} DirSlotsAppend(image: seq<byte>, lba: int, g: Geometry, a: seq<nat>, b: seq<nat>)
    requires Fits(g, lba, |image|) && InRange(g, a) && InRange(g, b)
    ensures InRange(g, a + b)
    ensures DirSlots(image, lba, g, a + b) == DirSlots(image, lba, g, a) + DirSlots(image, lba, g, b)
  {
    OffsetsAppend(lba, g, a, b);
    OffsetsInImage(lba, g, a, |image|);
    OffsetsInImage(lba, g, b, |image|);
    hide Offsets, SlotAt, Fits;
  }

  /** A grown directory shows its old entries followed by end marks. */
  lemma {:induction false} GrownSlots(image: seq<byte>, t: seq<nat>, chain: seq<nat>, image': seq<byte>, t': seq<nat>,
                                      chain': seq<nat>, lba: int, g: Geometry)
    requires Fits(g, lba, |image|) && IsChain(t, chain, g.Top(), EOF)
    requires Grown(image, t, chain, image', t', chain', lba, g)
    ensures InRange(g, chain) && InRange(g, chain')
    ensures var olds, news := DirSlots(image, lba, g, chain), DirSlots(image', lba, g, chain');
            && |news| >= |olds| && news[..|olds|] == olds
            && forall i :: |olds| <= i < |news| ==> End(news[i])
  {
    var ext := chain'[|chain|..];
    assert chain' == chain + ext;
    assert InRange(g, chain) && InRange(g, ext);
    forall c | c in chain ensures c !in ext { ChainNotFree(t, chain, g.Top(), EOF, c); }
    TouchesSameBlocks(image, image', lba, g, SetOf(ext), chain);
    DirSlotsFrame(image, image', lba, g, chain);
    DirSlotsAppend(image', lba, g, chain, ext);
    forall i | 0 <= i < |Offsets(lba, g, ext)| ensures End(DirSlots(image', lba, g, ext)[i]) {
      ZeroEntries(image', lba, g, ext, i);
    }
    hide *;
  }

  lemma {:induction false} OffsetsLength(lba: int, g: Geometry, chain: seq<nat>)
    requires lba >= 0 && InRange(g, chain)
    ensures |Offsets(lba, g, chain)| == |chain| * g.BlockSlots()
    decreases |chain|
  {
    if chain != [] {
      hide BlockOffset;
      OffsetsLength(lba, g, chain[..|chain| - 1]);
      MulStep(|chain|, g.BlockSlots());
    }
  }

  // ----- placing a run -----

  datatype Placement = Placement(image: seq<byte>, fat: seq<byte>, chain: seq<nat>, start: nat, ok: bool)

  /** Where `req` consecutive entries go: the first free run, or the trailing one once the chain has grown. */
  function Place(image: seq<byte>, lba: int, g: Geometry, fat: seq<byte>, chain: seq<nat>, req: nat): (p: Placement)
    requires Fits(g, lba, |image|) && |fat| == g.FatBytes() && chain != [] && InRange(g, chain)
    ensures |p.image| == |image| && |p.fat| == |fat| && InRange(g, p.chain) && p.chain != []
    ensures p.ok ==> p.start + req <= |Offsets(lba, g, p.chain)|
  {
    var slots := DirSlots(image, lba, g, chain);
    match FirstFit(slots, req, 0)
    case Some(s) => Placement(image, fat, chain, s, true)
    case None =>
      GrowRoom(image, lba, g, fat, chain, Trailing(slots), req);
      var r := Grow(image, lba, g, fat, chain, Trailing(slots), req);
      Placement(r.image, r.fat, r.chain, |slots| - Trailing(slots), r.ok)
  }

  /** The run is ready to be overwritten: free, with no end mark before it, and no record was disturbed. */
  predicate Ready(olds: seq<Slot>, news: seq<Slot>, start: nat, req: nat)
    requires Shaped(olds) && Shaped(news)
  {
    && start + req <= |news|
    && AllFree(news[start..start + req])
    && NoEnd(news[..start])
    && TailZero(news)
    && Records(news) == Records(olds)
  }

  /** The entries reserved are the first run of that length, and clusters are added only when there was none, and no
      more than it takes. */
  predicate Economical(olds: seq<Slot>, news: seq<Slot>, start: nat, req: nat, added: nat, perCluster: nat)
    requires Shaped(olds) && Shaped(news)
  {
    && FirstFit(news, req, 0) == Some(start)
    && (added > 0 ==> forall s :: 0 <= s < |olds| ==> !Fit(olds, s, req))
    && (added > 0 ==> Trailing(olds) + (added - 1) * perCluster < req)
  }

  lemma {:induction false} ReadyInPlace(slots: seq<Slot>, req: nat, s: nat)
    requires Shaped(slots) && TailZero(slots) && FirstFit(slots, req, 0) == Some(s)
    ensures Ready(slots, slots, s, req)
  {
    NoEndBeforeFit(slots, req, s);
    hide FirstFit, TailZero, NoEnd, Free, Parse;
  }

  lemma {:induction false} TailZeroGrown(olds: seq<Slot>, news: seq<Slot>)
    requires Shaped(olds) && Shaped(news) && TailZero(olds) && |news| >= |olds| && news[..|olds|] == olds
    requires forall i :: |olds| <= i < |news| ==> End(news[i])
    ensures TailZero(news)
  {
    forall i, j | 0 <= i < j < |news| && End(news[i]) ensures End(news[j]) {
      if j < |olds| {
        assert news[i] == olds[i] && news[j] == olds[j];
      }
    }
  }

  lemma {:induction false} GrownRecords(olds: seq<Slot>, news: seq<Slot>)
    requires Shaped(olds) && Shaped(news) && |news| >= |olds| && news[..|olds|] == olds
    requires forall i :: |olds| <= i < |news| ==> End(news[i])
    ensures Records(news) == Records(olds)
  {
    var zeros := news[|olds|..];
    assert news == olds + zeros;
    hide Records, End;
    ParseZeros(olds, zeros);
  }

  lemma {:induction false} GrownRunFree(olds: seq<Slot>, news: seq<Slot>, req: nat)
    requires Shaped(olds) && Shaped(news) && |news| >= |olds| && news[..|olds|] == olds
    requires forall i :: |olds| <= i < |news| ==> End(news[i])
    requires |olds| - Trailing(olds) + req <= |news|
    ensures AllFree(news[|olds| - Trailing(olds)..|olds| - Trailing(olds) + req])
  {
    TrailingFree(olds);
    hide Trailing;
    var start := |olds| - Trailing(olds);
    forall i | start <= i < start + req ensures Free(news[i]) {
      if i < |olds| { assert news[i] == olds[i]; }
    }
  }

  lemma {:induction false} ReadyGrown(olds: seq<Slot>, news: seq<Slot>, req: nat)
    requires Shaped(olds) && Shaped(news) && TailZero(olds) && |news| >= |olds| && news[..|olds|] == olds
    requires forall i :: |olds| <= i < |news| ==> End(news[i])
    requires |olds| - Trailing(olds) + req <= |news|
    ensures Ready(olds, news, |olds| - Trailing(olds), req)
  {
    TailZeroGrown(olds, news);
    GrownRecords(olds, news);
    GrownRunFree(olds, news, req);
    NoEndBeforeTrailing(olds);
    hide Trailing, TailZero, NoEnd, AllFree, End, Records;
    var start := |olds| - Trailing(olds);
    assert news[..start] == olds[..start];
  }

  /** In the grown directory the trailing run is the first that fits. */
  lemma {:induction false} FirstFitGrown(olds: seq<Slot>, news: seq<Slot>, req: nat)
    requires Shaped(olds) && Shaped(news) && |news| >= |olds| && news[..|olds|] == olds
    requires FirstFit(olds, req, 0) == None && req > 0
    requires |olds| - Trailing(olds) + req <= |news|
    requires AllFree(news[|olds| - Trailing(olds)..|olds| - Trailing(olds) + req])
    ensures FirstFit(news, req, 0) == Some(|olds| - Trailing(olds))
  {
    TrailingFree(olds);
    var start := |olds| - Trailing(olds);
    assert Fit(news, start, req) by {
      forall i | start <= i < start + req ensures Free(news[i]) {
        assert news[i] == news[start..start + req][i - start];
      }
    }
    forall j | 0 <= j < start ensures !Fit(news, j, req) {
      hide Trailing, FirstFit;
      NotFitBefore(olds, news, j, req, start);
    }
    hide Trailing, Fit;
    match FirstFit(news, req, 0)
    case None =>
    case Some(s) =>
  }

  lemma {:induction false} NotFitBefore(olds: seq<Slot>, news: seq<Slot>, j: nat, req: nat, start: nat)
    requires Shaped(olds) && Shaped(news) && |news| >= |olds| && news[..|olds|] == olds
    requires j < start <= |olds| && req > 0 && !Free(olds[start - 1]) && !Fit(olds, j, req)
    ensures !Fit(news, j, req)
  {
    if j + req <= |olds| {
      var i :| j <= i < j + req && !Free(olds[i]);
      assert news[i] == olds[i];
    } else {
      assert news[start - 1] == olds[start - 1];
    }
  }

  lemma {:induction false} GrownEnough(image: seq<byte>, t: seq<nat>, chain: seq<nat>, r: Growth, lba: int, g: Geometry,
                                       have: nat, req: nat)
    requires Fits(g, lba, |image|) && IsChain(t, chain, g.Top(), EOF) && InRange(g, chain) && InRange(g, r.chain)
    requires GrowthOk(image, t, chain, have, req, r, lba, g)
    ensures |Offsets(lba, g, r.chain)| - |Offsets(lba, g, chain)| + have >= req
    ensures |Offsets(lba, g, chain)| <= |Offsets(lba, g, r.chain)|
  {
    OffsetsLength(lba, g, chain);
    OffsetsLength(lba, g, r.chain);
    GrownLonger(image, t, chain, r.image, Table(r.fat), r.chain, lba, g);
    hide Grown, IsChain, Fits, Table, Offsets;
    MulSplit(|r.chain|, |chain|, g.BlockSlots());
  }

  lemma {:induction false} MulSplit(a: nat, b: nat, n: nat)
    requires b <= a
    ensures (a - b) * n == a * n - b * n && (a - b) * n >= 0
  {
  }

  /** The finder, on a well-formed directory: a free run in chain order, the walker follows the grown chain, and the
      records are untouched. */
  lemma {:induction false} PlaceCorrect(image: seq<byte>, lba: int, g: Geometry, fat: seq<byte>, chain: seq<nat>,
                                        req: nat)
    requires Fits(g, lba, |image|) && |fat| == g.FatBytes() && chain != [] && InRange(g, chain)
    requires IsChain(Table(fat), chain, g.Top(), EOF) && TailZero(DirSlots(image, lba, g, chain)) && req > 0
    requires Place(image, lba, g, fat, chain, req).ok
    ensures PlacedOk(image, lba, g, fat, chain, req, Place(image, lba, g, fat, chain, req))
  {
    hide Grown, Ready, DirSlots, Table, IsChain, FirstFit, TailZero, Fits, ChainFrom, Grow, GrowthOk, Trailing, InRange,
         Fit;
    var olds := DirSlots(image, lba, g, chain);
    match FirstFit(olds, req, 0)
    case Some(s) =>
      GrownNone(image, Table(fat), chain, lba, g);
      WalkReturnsChain(Table(fat), chain, g.Top(), EOF);
      ReadyInPlace(olds, req, s);
    case None =>
      GrowCorrect(image, lba, g, fat, chain, Trailing(olds), req);
      hide PlacedOk;
      PlaceGrown(image, lba, g, fat, chain, req, Grow(image, lba, g, fat, chain, Trailing(olds), req));
  }

  predicate PlacedOk(image: seq<byte>, lba: int, g: Geometry, fat: seq<byte>, chain: seq<nat>, req: nat, p: Placement)
    requires Fits(g, lba, |image|) && |fat| == g.FatBytes() && chain != [] && InRange(g, chain)
    requires |p.image| == |image| && |p.fat| == |fat| && InRange(g, p.chain) && p.chain != []
  {
    var olds, news := DirSlots(image, lba, g, chain), DirSlots(p.image, lba, g, p.chain);
    && Grown(image, Table(fat), chain, p.image, Table(p.fat), p.chain, lba, g)
    && ChainFrom(Table(p.fat), chain[0], g.Top(), EOF) == Some(p.chain)
    && Ready(olds, news, p.start, req)
    && Economical(olds, news, p.start, req, |p.chain| - |chain|, g.BlockSlots())
  }

  lemma {:induction false} PlaceGrown(image: seq<byte>, lba: int, g: Geometry, fat: seq<byte>, chain: seq<nat>,
                                      req: nat, r: Growth)
    requires Fits(g, lba, |image|) && |fat| == g.FatBytes() && chain != [] && InRange(g, chain)
    requires IsChain(Table(fat), chain, g.Top(), EOF) && TailZero(DirSlots(image, lba, g, chain)) && req > 0
    requires |r.image| == |image| && |r.fat| == |fat| && InRange(g, r.chain) && r.chain != []
    requires FirstFit(DirSlots(image, lba, g, chain), req, 0) == None
    requires GrowthOk(image, Table(fat), chain, Trailing(DirSlots(image, lba, g, chain)), req, r, lba, g)
    ensures PlacedOk(image, lba, g, fat, chain, req,
                     Placement(r.image, r.fat, r.chain,
                               |DirSlots(image, lba, g, chain)| - Trailing(DirSlots(image, lba, g, chain)), true))
  {
    hide Grown, IsChain, Fits, Table, Trailing, FirstFit, DirSlots, ChainFrom, End, TailZero, Ready, Fit, Offsets,
         InRange;
    var olds, news := DirSlots(image, lba, g, chain), DirSlots(r.image, lba, g, r.chain);
    var t, t' := Table(fat), Table(r.fat);
    GrownSlots(image, t, chain, r.image, t', r.chain, lba, g);
    GrownEnough(image, t, chain, r, lba, g, Trailing(olds), req);
    GrownLonger(image, t, chain, r.image, t', r.chain, lba, g);
    WalkReturnsChain(t', r.chain, g.Top(), EOF);
    ReadyGrown(olds, news, req);
    ReadyRun(olds, news, |olds| - Trailing(olds), req);
    FirstFitGrown(olds, news, req);
  }

  lemma {:induction false} ReadyRun(olds: seq<Slot>, news: seq<Slot>, start: nat, req: nat)
    requires Shaped(olds) && Shaped(news) && Ready(olds, news, start, req)
    ensures start + req <= |news| && AllFree(news[start..start + req])
  {
  }

  // ----- where the run goes, and when there is room for it -----

  /** The place in the listing of a record written into the run reserved for `req` entries. */
  function InsertAt(slots: seq<Slot>, req: nat): nat
    requires Shaped(slots)
  {
    match FirstFit(slots, req, 0)
    case Some(s) => |Records(slots[..s])|
    case None => |Records(slots)|
  }

  lemma {:induction false} TailZeroRest(slots: seq<Slot>, s: nat)
    requires Shaped(slots) && TailZero(slots) && s <= |slots|
    ensures TailZero(slots[s..])
  {
    hide End;
    var run := slots[s..];
    forall i, j | 0 <= i < j < |run| && End(run[i])
      ensures End(run[j])
    {
      assert run[i] == slots[s + i] && run[j] == slots[s + j];
    }
  }

  lemma {:induction false} FreeTail(slots: seq<Slot>, s: nat)
    requires Shaped(slots) && TailZero(slots) && s < |slots| && NoEnd(slots[..s]) && AllFree(slots[s..])
    ensures Records(slots[..s]) == Records(slots)
  {
    hide Records, TailZero, NoEnd, AllFree;
    var pre, run := slots[..s], slots[s..];
    TailZeroRest(slots, s);
    assert pre + run + [] == slots && run + [] == run;
    ParseAcrossFree(pre, run, []);
    NoRecords();
  }

  lemma {:induction false} RecordsBeforeTrailing(slots: seq<Slot>)
    requires Shaped(slots) && TailZero(slots)
    ensures Records(slots[..|slots| - Trailing(slots)]) == Records(slots)
  {
    hide Trailing, Records, TailZero, NoEnd;
    var s := |slots| - Trailing(slots);
    TrailingFree(slots);
    NoEndBeforeTrailing(slots);
    if s < |slots| { FreeTail(slots, s); } else { assert slots[..s] == slots; }
  }

  lemma {:induction false} NoRecords()
    ensures Records([]) == []
  {
  }

  lemma {:induction false} PlaceIndex(image: seq<byte>, lba: int, g: Geometry, fat: seq<byte>, chain: seq<nat>,
                                      req: nat)
    requires Fits(g, lba, |image|) && |fat| == g.FatBytes() && chain != [] && InRange(g, chain)
    requires IsChain(Table(fat), chain, g.Top(), EOF) && TailZero(DirSlots(image, lba, g, chain)) && req > 0
    requires Place(image, lba, g, fat, chain, req).ok
    ensures var p := Place(image, lba, g, fat, chain, req);
            && p.start <= |DirSlots(p.image, lba, g, p.chain)|
            && |Records(DirSlots(p.image, lba, g, p.chain)[..p.start])| == InsertAt(DirSlots(image, lba, g, chain), req)
  {
    hide Grown, DirSlots, Table, IsChain, FirstFit, TailZero, Fits, Grow, GrowthOk, Trailing, InRange, Fit, Records,
         Offsets;
    var olds := DirSlots(image, lba, g, chain);
    match FirstFit(olds, req, 0)
    case Some(s) =>
    case None =>
      var r := Grow(image, lba, g, fat, chain, Trailing(olds), req);
      GrowCorrect(image, lba, g, fat, chain, Trailing(olds), req);
      GrowthParts(image, Table(fat), chain, Trailing(olds), req, r, lba, g);
      GrownSlots(image, Table(fat), chain, r.image, Table(r.fat), r.chain, lba, g);
      var news, s := DirSlots(r.image, lba, g, r.chain), |olds| - Trailing(olds);
      assert news[..s] == news[..|olds|][..s];
      RecordsBeforeTrailing(olds);
  }

  lemma {:induction false} GrowthParts(image: seq<byte>, t: seq<nat>, chain: seq<nat>, have: nat, req: nat, r: Growth,
                                       lba: int, g: Geometry)
    requires Fits(g, lba, |image|) && chain != [] && GrowthOk(image, t, chain, have, req, r, lba, g)
    ensures Grown(image, t, chain, r.image, Table(r.fat), r.chain, lba, g) && |r.image| == |image|
  {
    hide IsChain, Touches, FreeCount;
  }

  /** How many clusters of `per` entries bring `have` free entries to `req`. */
  function Rounds(have: nat, req: nat, per: nat): nat
    requires per > 0
    decreases if have < req then req - have else 0
  {
    if have >= req then 0 else 1 + Rounds(have + per, req, per)
  }

  /** How many clusters reserving `req` entries adds to a directory. */
  function Extension(slots: seq<Slot>, req: nat, per: nat): nat
    requires Shaped(slots) && per > 0
  {
    if FirstFit(slots, req, 0).Some? then 0 else Rounds(Trailing(slots), req, per)
  }

  lemma {:induction false} ExtendCount(fat: seq<byte>, g: Geometry, lba: int, len: nat, chain: seq<nat>, c: nat)
    requires Fits(g, lba, len) && |fat| == g.FatBytes() && IsChain(Table(fat), chain, g.Top(), EOF)
    requires 2 <= c < g.Top() && Table(fat)[c] == 0
    ensures 4 * chain[|chain| - 1] + 4 <= |fat| && 4 * c + 4 <= |fat|
    ensures IsChain(Table(Extend(fat, chain[|chain| - 1], c)), chain + [c], g.Top(), EOF)
    ensures FreeCount(Table(Extend(fat, chain[|chain| - 1], c)), g.Top()) == FreeCount(Table(fat), g.Top()) - 1
  {
    ExtendTable(fat, chain[|chain| - 1], c);
    ExtendChain(Table(fat), chain, c, g.Top());
    hide Table, Extend, IsChain, FreeCount;
  }

  lemma {:induction false} GrowTry(image: seq<byte>, lba: int, g: Geometry, fat: seq<byte>, chain: seq<nat>, have: nat,
                                   req: nat)
    requires Fits(g, lba, |image|) && |fat| == g.FatBytes() && chain != [] && InRange(g, chain) && have < req
    ensures g.Top() <= |Table(fat)| && g.BlockSlots() > 0
    ensures FreeCount(Table(fat), g.Top()) == 0 ==> !Grow(image, lba, g, fat, chain, have, req).ok
    ensures FreeCount(Table(fat), g.Top()) > 0 ==>
      exists c :: 2 <= c < g.Top() && Table(fat)[c] == 0 && Grows(image, lba, g, fat, chain, have, req, c)
  {
    hide PutBlock, Extend, Table, FreeCount;
    FitsBasics(g, lba, |image|);
    if Allocate(Table(fat), 1, g.Top()).Some? {
      var c := Allocate(Table(fat), 1, g.Top()).value[0];
      assert Grows(image, lba, g, fat, chain, have, req, c);
    }
  }

  /** One round of growth takes cluster `c`. */
  ghost predicate Grows(image: seq<byte>, lba: int, g: Geometry, fat: seq<byte>, chain: seq<nat>, have: nat, req: nat,
                        c: nat)
    requires Fits(g, lba, |image|) && |fat| == g.FatBytes() && chain != [] && InRange(g, chain)
    requires 2 <= c < g.Top()
  {
    && 4 * chain[|chain| - 1] + 4 <= |fat| && 4 * c + 4 <= |fat| && InRange(g, chain + [c])
    && Grow(image, lba, g, fat, chain, have, req)
       == Grow(PutBlock(image, lba, g, c, Fill(0, g.BlockBytes())), lba, g,
               Extend(fat, chain[|chain| - 1], c), chain + [c], have + g.BlockSlots(), req)
  }

  /** Growth succeeds exactly when that many clusters are free, and then adds exactly that many. */
  lemma {:induction false} GrowSucceeds(image: seq<byte>, lba: int, g: Geometry, fat: seq<byte>, chain: seq<nat>,
                                        have: nat, req: nat)
    requires Fits(g, lba, |image|) && |fat| == g.FatBytes() && chain != [] && InRange(g, chain)
    requires IsChain(Table(fat), chain, g.Top(), EOF) && g.BlockSlots() > 0 && g.Top() <= |Table(fat)|
    ensures var r, n := Grow(image, lba, g, fat, chain, have, req), Rounds(have, req, g.BlockSlots());
            (r.ok <==> n <= FreeCount(Table(fat), g.Top())) && (r.ok ==> |r.chain| == |chain| + n)
    decreases if have < req then req - have else 0
  {
    hide Grow, PutBlock, Extend, Table, FreeCount, IsChain, Fits, InRange;
    if have >= req {
      GrowNone(image, lba, g, fat, chain, have, req);
    } else {
      GrowTry(image, lba, g, fat, chain, have, req);
      if FreeCount(Table(fat), g.Top()) > 0 {
        var c :| 2 <= c < g.Top() && Table(fat)[c] == 0 && Grows(image, lba, g, fat, chain, have, req, c);
        ExtendCount(fat, g, lba, |image|, chain, c);
        GrowSucceeds(PutBlock(image, lba, g, c, Fill(0, g.BlockBytes())), lba, g,
                     Extend(fat, chain[|chain| - 1], c), chain + [c], have + g.BlockSlots(), req);
      }
    }
  }

  /** The finder succeeds exactly when the clusters it must add are free, and adds no more. */
  lemma {:induction false} PlaceSucceeds(image: seq<byte>, lba: int, g: Geometry, fat: seq<byte>, chain: seq<nat>,
                                         req: nat)
    requires Fits(g, lba, |image|) && |fat| == g.FatBytes() && chain != [] && InRange(g, chain)
    requires IsChain(Table(fat), chain, g.Top(), EOF) && g.BlockSlots() > 0 && g.Top() <= |Table(fat)|
    ensures var p, n := Place(image, lba, g, fat, chain, req),
            Extension(DirSlots(image, lba, g, chain), req, g.BlockSlots());
            (p.ok <==> n <= FreeCount(Table(fat), g.Top())) && (p.ok ==> |p.chain| == |chain| + n)
  {
    hide Grow, Table, FreeCount, IsChain, Fits, InRange, DirSlots, FirstFit, Trailing, Rounds;
    GrowSucceeds(image, lba, g, fat, chain, Trailing(DirSlots(image, lba, g, chain)), req);
  }

  lemma {:induction false} PlaceGrows(image: seq<byte>, lba: int, g: Geometry, fat: seq<byte>, chain: seq<nat>,
                                      req: nat)
    requires Fits(g, lba, |image|) && |fat| == g.FatBytes() && chain != [] && InRange(g, chain)
    requires IsChain(Table(fat), chain, g.Top(), EOF)
    requires Place(image, lba, g, fat, chain, req).ok
    ensures var p := Place(image, lba, g, fat, chain, req); Grown(image, Table(fat), chain, p.image, Table(p.fat),
          p.chain, lba, g)
  {
    hide Grown, DirSlots, Table, IsChain, FirstFit, Fits, Grow, GrowthOk, Trailing, InRange;
    var olds := DirSlots(image, lba, g, chain);
    match FirstFit(olds, req, 0)
    case Some(s) => GrownNone(image, Table(fat), chain, lba, g);
    case None =>
      GrowCorrect(image, lba, g, fat, chain, Trailing(olds), req);
      GrowthParts(image, Table(fat), chain, Trailing(olds), req, Grow(image, lba, g, fat, chain, Trailing(olds), req),
                  lba, g);
  }
}
