/** Whole injections and runs of them: what every one leaves alone, and what successful ones keep. */
module Fat32Runs {
  import opened Bytes
  import opened DataBlocks
  import opened Chains
  import opened LongNames
  import opened Directory
  import opened Fat32Volume
  import opened Fat32Layout
  import opened Fat32Slots
  import opened Fat32Files
  import opened Fat32Live
  import opened Fat32Store
  import opened Fat32Inject
  import opened Fat32Replace

  // ----- success or failure, any image -----

  lemma {:induction false} GrowOutside(image: seq<byte>, lba: int, g: Geometry, fat: seq<byte>, chain: seq<nat>,
                                       have: nat, req: nat)
    requires Fits(g, lba, |image|) && |fat| == g.FatBytes() && chain != [] && InRange(g, chain)
    ensures SameOutside(image, Grow(image, lba, g, fat, chain, have, req).image, lba, g)
    decreases if have < req then req - have else 0
  {
    hide Fits, SameOutside, Table, PutBlock, Extend, Touches;
    FitsBasics(g, lba, |image|);
    TouchesNothing(image, lba, g);
    if have < req {
      match Allocate(Table(fat), 1, g.Top())
      case None =>
      case Some(cs) =>
        var image1 := PutBlock(image, lba, g, cs[0], Fill(0, g.BlockBytes()));
        PutBlockReads(image, lba, g, cs[0], Fill(0, g.BlockBytes()));
        TouchesOutside(image, image1, lba, g, {cs[0]});
        GrowOutside(image1, lba, g, Extend(fat, chain[|chain| - 1], cs[0]), chain + [cs[0]], have + g.BlockSlots(),
                    req);
        SameOutsideTrans(image, image1, Grow(image, lba, g, fat, chain, have, req).image, lba, g);
    }
  }

  lemma {:induction false} PlaceOutside(image: seq<byte>, lba: int, g: Geometry, fat: seq<byte>, chain: seq<nat>,
                                        req: nat)
    requires Fits(g, lba, |image|) && |fat| == g.FatBytes() && chain != [] && InRange(g, chain)
    ensures SameOutside(image, Place(image, lba, g, fat, chain, req).image, lba, g)
  {
    hide Fits, SameOutside, Grow, FirstFit, DirSlots, Trailing, InRange;
    TouchesNothing(image, lba, g);
    GrowOutside(image, lba, g, fat, chain, Trailing(DirSlots(image, lba, g, chain)), req);
  }

  lemma {:induction false} CommitOutside(p: Placement, lba: int, g: Geometry, name: Name, alias: seq<byte>,
                                         data: seq<byte>, cs: seq<nat>)
    requires Fits(g, lba, |p.image|) && |p.fat| == g.FatBytes() && |alias| == 11 && InRange(g, p.chain)
    requires InRange(g, cs)
    requires EntryCount(name) <= 20 && p.start + EntryCount(name) + 1 <= |Offsets(lba, g, p.chain)|
    ensures SameOutside(p.image, Commit(p, lba, g, name, alias, data, cs).image, lba, g)
  {
    hide Fits, SameOutside, PutData, PutEntries, PutFats, LinkFat, NewEntries, ShortEntry, Offsets, InRange, InImage,
         Touches, Whole, EntryCount;
    FitsBasics(g, lba, |p.image|);
    var filled := PutData(p.image, lba, g, cs, data, |cs|);
    PutDataTouches(p.image, lba, g, cs, data, |cs|);
    TouchesOutside(p.image, filled, lba, g, SetOf(cs));
    if |data| < 0x1_0000_0000 {
      CommitWrites(filled, p.fat, lba, g, p.chain, p.start, NewEntries(name, ShortEntry(alias, FirstOf(cs), |data|)),
                   cs);
      SameOutsideTrans(p.image, filled, Commit(p, lba, g, name, alias, data, cs).image, lba, g);
    }
  }

  lemma {:induction false} CommitWrites(image: seq<byte>, fat: seq<byte>, lba: int, g: Geometry, chain: seq<nat>,
                                        start: nat, raws: seq<seq<byte>>, cs: seq<nat>)
    requires Fits(g, lba, |image|) && |fat| == g.FatBytes() && InRange(g, chain) && InRange(g, cs)
    requires start + |raws| <= |Offsets(lba, g, chain)| && forall i :: 0 <= i < |raws| ==> |raws[i]| == 32
    ensures InImage(Offsets(lba, g, chain)[start..start + |raws|], |image|)
    ensures forall i :: 0 <= i < |cs| ==> 4 * cs[i] + 4 <= |fat|
    ensures SameOutside(image, PutFats(PutEntries(image, Offsets(lba, g, chain)[start..start + |raws|], raws, |raws|),
                                       lba, g, LinkFat(fat, cs, |cs|), g.fatCount), lba, g)
  {
    hide SameOutside, PutEntries, PutFats, LinkFat, Offsets, Touches;
    OffsetsInImage(lba, g, chain, |image|);
    PutEntriesTouches(image, lba, g, chain, start, raws, |raws|);
    hide Fits;
    FitsBasics(g, lba, |image|);
    var named := PutEntries(image, Offsets(lba, g, chain)[start..start + |raws|], raws, |raws|);
    TouchesOutside(image, named, lba, g, SetOf(chain));
    PutFatsFrame(named, lba, g, LinkFat(fat, cs, |cs|), g.fatCount);
    SameOutsideTrans(image, named, PutFats(named, lba, g, LinkFat(fat, cs, |cs|), g.fatCount), lba, g);
  }

  lemma {:induction false} StoreOutside(image: seq<byte>, lba: int, g: Geometry, fat: seq<byte>, d: nat, name: Name,
                                        alias: seq<byte>, data: seq<byte>)
    requires Fits(g, lba, |image|) && |fat| == g.FatBytes() && |alias| == 11
    ensures SameOutside(image, Store(image, lba, g, fat, d, name, alias, data).image, lba, g)
  {
    hide Fits, SameOutside, Place, Commit, Table, Allocate, Needed, Offsets, DirChain, Decodable, Storable;
    FitsBasics(g, lba, |image|);
    TouchesNothing(image, lba, g);
    if Storable(name) && Decodable(name) && DirChain(Table(fat), g, d).Ok? {
      var chain := DirChain(Table(fat), g, d).value;
      var p := Place(image, lba, g, fat, chain, EntryCount(name) + 1);
      PlaceOutside(image, lba, g, fat, chain, EntryCount(name) + 1);
      if p.ok && Allocate(Table(p.fat), Needed(|data|, g.BlockBytes()), g.Top()).Some? {
        NameFits(name);
        var cs := Allocate(Table(p.fat), Needed(|data|, g.BlockBytes()), g.Top()).value;
        CommitOutside(p, lba, g, name, alias, data, cs);
        SameOutsideTrans(image, p.image, Commit(p, lba, g, name, alias, data, cs).image, lba, g);
      }
    }
  }

  lemma {:induction false} InjectIntoOutside(image: seq<byte>, lba: int, g: Geometry, d: nat, q: Request)
    requires Fits(g, lba, |image|)
    ensures SameOutside(image, InjectInto(image, lba, g, d, q).image, lba, g)
  {
    hide Fits, SameOutside, Store, Wipe, Table, DirRecords, Requested, Alias, FileChain, ReleaseFat, FirstExisting,
         FatImage;
    FitsBasics(g, lba, |image|);
    TouchesNothing(image, lba, g);
    var fat := FatImage(image, lba, g);
    match DirRecords(image, lba, g, Table(fat), d)
    case Err(_) =>
    case Ok(recs) =>
      match FirstExisting(recs, q.name, Requested(q))
      case None =>
        var alias := if Requested(q).Some? then Requested(q) else Alias(q.upper(q.name), AliasesOf(recs));
        if alias.Some? && (q.fatName == [] || Requested(q).Some?) {
          RequestedGood(q);
          StoreOutside(image, lba, g, fat, d, q.name, alias.value, q.data);
        }
      case Some(k) =>
        ReplaceOutside(image, lba, g, fat, d, recs[k], q);
  }

  lemma {:induction false} ReplaceOutside(image: seq<byte>, lba: int, g: Geometry, fat: seq<byte>, d: nat, v: Record,
                                          q: Request)
    requires Fits(g, lba, |image|) && |fat| == g.FatBytes() && |v.alias| == 11
    requires AreaStart(lba, g) <= v.lfnStart && v.offset + 32 <= AreaEnd(lba, g) <= |image|
    ensures SameOutside(image, Replace(image, lba, g, fat, d, v, q).image, lba, g)
  {
    hide Fits, SameOutside, Store, Wipe, Table, FileChain, ReleaseFat, AreaStart, AreaEnd;
    FitsBasics(g, lba, |image|);
    TouchesNothing(image, lba, g);
    match FileChain(Table(fat), g, v.cluster)
    case Err(_) =>
    case Ok(ch) =>
      var wiped := Wipe(image, v.lfnStart, v.offset + 32);
      WipeOutside(image, lba, g, v.lfnStart, v.offset + 32);
      ReplaceUnfold(image, lba, g, fat, d, v, q, ch);
      StoreOutside(wiped, lba, g, ReleaseFat(fat, ch, |ch|), d, q.name, v.alias, q.data);
      SameOutsideTrans(image, wiped, Replace(image, lba, g, fat, d, v, q).image, lba, g);
  }

  /** A path and what to store there. */
  datatype Op = Op(path: Name, q: Request)

  predicate WellPosed(op: Op) { op.q.name == FileNameOf(op.path) }

  function Apply(image: seq<byte>, lba: int, op: Op): Outcome
    requires WellPosed(op)
  {
    Inject(image, lba, op.path, op.q)
  }

  /** One injection, whatever its outcome, changes nothing outside the FATs and the data clusters of the partition. */
  lemma {:induction false} InjectOutside(image: seq<byte>, lba: int, op: Op)
    requires WellPosed(op)
    ensures |Apply(image, lba, op).image| == |image|
    ensures ReadGeometry(image, lba).Err? ==> Apply(image, lba, op).image == image
    ensures ReadGeometry(image, lba).Ok? ==>
            SameOutside(image, Apply(image, lba, op).image, lba, ReadGeometry(image, lba).value)
    ensures ReadGeometry(Apply(image, lba, op).image, lba) == ReadGeometry(image, lba)
  {
    hide ReadGeometry, Fits, SameOutside, InjectInto, Table, FatImage, Resolve, DirectoryOf, FileNameOf;
    match ReadGeometry(image, lba)
    case Err(_) =>
    case Ok(g) =>
      TouchesNothing(image, lba, g);
      FitsBasics(g, lba, |image|);
      match Resolve(image, lba, g, Table(FatImage(image, lba, g)), DirectoryOf(op.path), ROOT)
      case Err(_) =>
        GeometryFrame(image, Apply(image, lba, op).image, lba, g);
      case Ok(d) =>
        InjectIntoOutside(image, lba, g, d, op.q);
        GeometryFrame(image, Apply(image, lba, op).image, lba, g);
  }

  predicate AllWellPosed(ops: seq<Op>) {
    forall i :: 0 <= i < |ops| ==> WellPosed(ops[i])
  }

  /** The image after each operation in turn, successful or not. */
  function RunAll(image: seq<byte>, lba: int, ops: seq<Op>): (r: seq<byte>)
    requires AllWellPosed(ops)
    ensures |r| == |image|
    decreases |ops|
  {
    if ops == [] then image else Apply(RunAll(image, lba, ops[..|ops| - 1]), lba, ops[|ops| - 1]).image
  }

  /** Every run keeps the image length, every byte outside the partition and its reserved sectors, and the geometry. */
  lemma {:induction false} RunOutside(image: seq<byte>, lba: int, ops: seq<Op>)
    requires AllWellPosed(ops)
    ensures ReadGeometry(RunAll(image, lba, ops), lba) == ReadGeometry(image, lba)
    ensures ReadGeometry(image, lba).Err? ==> RunAll(image, lba, ops) == image
    ensures ReadGeometry(image, lba).Ok? ==>
            SameOutside(image, RunAll(image, lba, ops), lba, ReadGeometry(image, lba).value)
    decreases |ops|
  {
    hide ReadGeometry, Fits, SameOutside, Apply;
    if ops == [] {
      if ReadGeometry(image, lba).Ok? { TouchesNothing(image, lba, ReadGeometry(image, lba).value); }
    } else {
      var init, last := ops[..|ops| - 1], ops[|ops| - 1];
      RunOutside(image, lba, init);
      InjectOutside(RunAll(image, lba, init), lba, last);
      if ReadGeometry(image, lba).Ok? {
        SameOutsideTrans(image, RunAll(image, lba, init), RunAll(image, lba, ops), lba, ReadGeometry(image, lba).value);
      }
    }
  }
}
