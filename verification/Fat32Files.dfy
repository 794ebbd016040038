/** Storing and reading files on a FAT32 partition: the injection pipeline as a function of the image bytes. */
module Fat32Files {
  import opened Bytes
  import opened DataBlocks
  import opened Splitting
  import opened Chains
  import opened LongNames
  import opened Directory
  import opened Fat32Volume
  import opened Fat32Layout
  import opened Fat32Slots

  // ----- paths -----

  const SLASH: Unit := 0x2F
  const BACKSLASH: Unit := 0x5C
  const DOT: Name := [0x2E]
  const DOTDOT: Name := [0x2E, 0x2E]

  function Normalize(path: Name): Name {
    StripSlashes(seq(|path|, i requires 0 <= i < |path| => if path[i] == BACKSLASH then SLASH else path[i]))
  }

  function StripSlashes(s: Name): Name
    decreases |s|
  {
    if s != [] && s[0] == SLASH then StripSlashes(s[1..])
    else if s != [] && s[|s| - 1] == SLASH then StripSlashes(s[..|s| - 1])
    else s
  }

  /** The directory components and the file name of a path. */
  function DirectoryOf(path: Name): seq<Name> {
    var parts := Split(Normalize(path), SLASH);
    var inner := Normalize(Join(parts[..|parts| - 1], SLASH));
    if inner == [] then [] else Split(inner, SLASH)
  }

  function FileNameOf(path: Name): Name {
    var parts := Split(Normalize(path), SLASH);
    parts[|parts| - 1]
  }

  // ----- chains, directories and records -----

  /** The clusters a record points to; none for a first cluster below 2 or at the end mark. */
  function FileChain(t: seq<nat>, g: Geometry, first: nat): (r: Result<seq<nat>, Error>)
    requires g.Top() <= |t|
    ensures r.Ok? ==> InRange(g, r.value)
  {
    ChainFromSound(t, first, g.Top(), EOF);
    match ChainFrom(t, first, g.Top(), EOF)
    case None => Err(BadChain)
    case Some(ch) => Ok(ch)
  }

  function DirChain(t: seq<nat>, g: Geometry, first: nat): (r: Result<seq<nat>, Error>)
    requires g.Top() <= |t|
    ensures r.Ok? ==> r.value != [] && InRange(g, r.value)
  {
    var r := FileChain(t, g, first);
    if r == Ok([]) then Err(EmptyDirectoryChain) else r
  }

  /** Records keep within the data area and carry eleven-byte aliases. */
  predicate Placed(recs: seq<Record>, lo: nat, hi: nat) {
    forall k :: 0 <= k < |recs| ==>
      |recs[k].alias| == 11 && lo <= recs[k].offset && recs[k].offset + 32 <= hi && lo <= recs[k].lfnStart
  }

  predicate SlotsPlaced(slots: seq<Slot>, lo: nat, hi: nat) {
    forall i :: 0 <= i < |slots| ==> lo <= slots[i].off && slots[i].off + 32 <= hi
  }

  lemma {:induction false} ParsedPlaced(slots: seq<Slot>, st: Pending, lo: nat, hi: nat)
    requires Shaped(slots) && SlotsPlaced(slots, lo, hi) && (st.start.Some? ==> lo <= st.start.value)
    ensures Placed(Parse(slots, st), lo, hi)
    decreases |slots|
  {
    if slots != [] && !End(slots[0]) {
      hide DecodeLfn, LongNameOf, ShortName;
      ParsedPlaced(slots[1..], Absorb(st, slots[0]), lo, hi);
    }
  }

  lemma {:induction false} DirSlotsPlaced(image: seq<byte>, lba: int, g: Geometry, chain: seq<nat>)
    requires Fits(g, lba, |image|) && InRange(g, chain)
    ensures SlotsPlaced(DirSlots(image, lba, g, chain), AreaStart(lba, g), AreaEnd(lba, g))
    ensures AreaEnd(lba, g) <= |image|
  {
    FatCopyBounds(lba, g, |image|, 0);
    OffsetsInImage(lba, g, chain, |image|);
    var slots := DirSlots(image, lba, g, chain);
    forall i | 0 <= i < |slots| ensures AreaStart(lba, g) <= slots[i].off && slots[i].off + 32 <= AreaEnd(lba, g) {
      var c := OffsetOwner(lba, g, chain, i);
      BlockBounds(lba, g, |image|, c);
      hide Offsets, BlockOffset, AreaStart, AreaEnd, Fits;
    }
  }

  function DirRecords(image: seq<byte>, lba: int, g: Geometry, t: seq<nat>, first: nat): (r: Result<seq<Record>, Error>)
    requires Fits(g, lba, |image|) && g.Top() <= |t|
    ensures r.Ok? ==> Placed(r.value, AreaStart(lba, g), AreaEnd(lba, g)) && AreaEnd(lba, g) <= |image|
  {
    match DirChain(t, g, first)
    case Err(e) => Err(e)
    case Ok(chain) =>
      DirSlotsPlaced(image, lba, g, chain);
      ParsedPlaced(DirSlots(image, lba, g, chain), Idle, AreaStart(lba, g), AreaEnd(lba, g));
      Ok(Records(DirSlots(image, lba, g, chain)))
  }

  /** A record answers to its long name and to its alias. */
  predicate Answers(r: Record, name: Name) {
    NameEqual(r.name, name) || (|r.alias| == 11 && NameEqual(ShortName(r.alias), name))
  }

  function FirstAnswer(recs: seq<Record>, name: Name): (r: Option<nat>)
    ensures r.Some? ==> r.value < |recs| && Answers(recs[r.value], name) && forall k :: 0 <= k < r.value ==>
            !Answers(recs[k], name)
    ensures r.None? ==> forall k :: 0 <= k < |recs| ==> !Answers(recs[k], name)
  {
    if recs == [] then None
    else if Answers(recs[0], name) then Some(0)
    else match FirstAnswer(recs[1..], name)
      case None => None
      case Some(k) => Some(k + 1)
  }

  /** Walks the directory components from a cluster down. */
  function Resolve(image: seq<byte>, lba: int, g: Geometry, t: seq<nat>, parts: seq<Name>,
                   cluster: nat): (r: Result<nat, Error>)
    requires Fits(g, lba, |image|) && g.Top() <= |t|
    decreases |parts|
  {
    if parts == [] then Ok(cluster)
    else if parts[0] == [] || parts[0] == DOT || parts[0] == DOTDOT then Err(BadPath)
    else match Lookup(image, lba, g, t, cluster, parts[0])
      case Err(e) => Err(e)
      case Ok(None) => Err(NoDirectory)
      case Ok(Some(r)) =>
        if !r.IsDirectory() then Err(NoDirectory)
        else Resolve(image, lba, g, t, parts[1..], r.cluster)
  }

  /** The first record of a directory that answers to a name. */
  function Lookup(image: seq<byte>, lba: int, g: Geometry, t: seq<nat>, cluster: nat,
                  name: Name): (r: Result<Option<Record>, Error>)
    requires Fits(g, lba, |image|) && g.Top() <= |t|
  {
    match DirRecords(image, lba, g, t, cluster)
    case Err(e) => Err(e)
    case Ok(recs) => Ok(Pick(recs, name))
  }

  function Pick(recs: seq<Record>, name: Name): Option<Record> {
    match FirstAnswer(recs, name)
    case None => None
    case Some(k) => Some(recs[k])
  }

  // ----- reading -----

  function ReadRecord(image: seq<byte>, lba: int, g: Geometry, t: seq<nat>, r: Record): Result<seq<byte>, Error>
    requires Fits(g, lba, |image|) && g.Top() <= |t|
  {
    match FileChain(t, g, r.cluster)
    case Err(e) => Err(e)
    case Ok(ch) =>
      var bytes := Blocks(image, lba, g, ch);
      if |bytes| < r.size then Err(Incomplete) else Ok(bytes[..r.size])
  }

  /** The file a path names, read from the first FAT. */
  function ReadFile(image: seq<byte>, lba: int, path: Name): Result<seq<byte>, Error> {
    match ReadGeometry(image, lba)
    case Err(e) => Err(e)
    case Ok(g) =>
      var t := Table(FatImage(image, lba, g));
      match Resolve(image, lba, g, t, DirectoryOf(path), ROOT)
      case Err(e) => Err(e)
      case Ok(d) => ReadIn(image, lba, g, t, d, FileNameOf(path))
  }

  function ReadIn(image: seq<byte>, lba: int, g: Geometry, t: seq<nat>, d: nat, name: Name): Result<seq<byte>, Error>
    requires Fits(g, lba, |image|) && g.Top() <= |t|
  {
    match Lookup(image, lba, g, t, d, name)
    case Err(e) => Err(e)
    case Ok(None) => Err(NotFound)
    case Ok(Some(r)) => if r.IsDirectory() then Err(NotFound) else ReadRecord(image, lba, g, t, r)
  }

  // ----- storing -----

  /** The image as it is left, and the error that stopped the operation, if any. */
  datatype Outcome = Outcome(image: seq<byte>, error: Option<Error>)

  function ReleaseFat(fat: seq<byte>, ch: seq<nat>, n: nat): (r: seq<byte>)
    requires n <= |ch| && forall i :: 0 <= i < |ch| ==> 4 * ch[i] + 4 <= |fat|
    ensures |r| == |fat|
    decreases n
  {
    if n == 0 then fat else SetEntry(ReleaseFat(fat, ch, n - 1), ch[n - 1], 0)
  }

  function LinkFat(fat: seq<byte>, cs: seq<nat>, n: nat): (r: seq<byte>)
    requires n <= |cs| && forall i :: 0 <= i < |cs| ==> 4 * cs[i] + 4 <= |fat|
    ensures |r| == |fat|
    decreases n
  {
    if n == 0 then fat else SetEntry(LinkFat(fat, cs, n - 1), cs[n - 1], Successor(cs, n - 1, EOF))
  }

  /** Marks the bytes from `lo` up to `hi` deleted; nothing when the range is empty or reversed. */
  function Wipe(image: seq<byte>, lo: nat, hi: nat): (r: seq<byte>)
    requires hi <= |image|
    ensures |r| == |image|
  {
    if lo < hi then Splice(image, lo, Fill(DELETED, hi - lo)) else image
  }

  function PutData(image: seq<byte>, lba: int, g: Geometry, cs: seq<nat>, data: seq<byte>, n: nat): (r: seq<byte>)
    requires Fits(g, lba, |image|) && InRange(g, cs) && n <= |cs|
    ensures |r| == |image|
    decreases n
  {
    if n == 0 then image
    else PutBlock(PutData(image, lba, g, cs, data, n - 1), lba, g, cs[n - 1], DataBlock(data, g.BlockBytes(), n - 1))
  }

  function ShortEntry(alias: seq<byte>, first: nat, size: nat): (r: seq<byte>)
    requires |alias| == 11 && size < 0x1_0000_0000
    ensures |r| == 32
  {
    alias + [ATTR_ARCHIVE] + Fill(0, 8) + Le16(first / 0x1_0000 % 0x1_0000) + Fill(0, 4) + Le16(first % 0x1_0000)
        + Le32(size)
  }

  /** Reserves entries, stores the data and writes the entries and the FATs. */
  function Store(image: seq<byte>, lba: int, g: Geometry, fat: seq<byte>, d: nat, name: Name, alias: seq<byte>,
                 data: seq<byte>): (r: Outcome)
    requires Fits(g, lba, |image|) && |fat| == g.FatBytes() && |alias| == 11
    ensures |r.image| == |image|
  {
    if !Storable(name) || !Decodable(name) then Outcome(image, Some(BadLongName))
    else match DirChain(Table(fat), g, d)
      case Err(e) => Outcome(image, Some(e))
      case Ok(chain) =>
        Utf8AtLeast(name);
        var p := Place(image, lba, g, fat, chain, EntryCount(name) + 1);
        if !p.ok then Outcome(p.image, Some(NoSpace))
        else match Allocate(Table(p.fat), Needed(|data|, g.BlockBytes()), g.Top())
          case None => Outcome(p.image, Some(NoSpace))
          case Some(cs) => Commit(p, lba, g, name, alias, data, cs)
  }

  function FirstOf(cs: seq<nat>): nat {
    if cs == [] then 0 else cs[0]
  }

  /** Links and fills the data clusters, then writes the entries and every FAT copy. */
  function Commit(p: Placement, lba: int, g: Geometry, name: Name, alias: seq<byte>, data: seq<byte>,
                  cs: seq<nat>): (r: Outcome)
    requires Fits(g, lba, |p.image|) && |p.fat| == g.FatBytes() && |alias| == 11 && InRange(g, p.chain)
    requires InRange(g, cs)
    requires EntryCount(name) <= 20 && p.start + EntryCount(name) + 1 <= |Offsets(lba, g, p.chain)|
    ensures |r.image| == |p.image|
  {
    var filled := PutData(p.image, lba, g, cs, data, |cs|);
    if |data| >= 0x1_0000_0000 then Outcome(filled, Some(TooLarge))
    else
      var raws := NewEntries(name, ShortEntry(alias, FirstOf(cs), |data|));
      var offs := Offsets(lba, g, p.chain);
      OffsetsInImage(lba, g, p.chain, |p.image|);
      var named := PutEntries(filled, offs[p.start..p.start + |raws|], raws, |raws|);
      Outcome(PutFats(named, lba, g, LinkFat(p.fat, cs, |cs|), g.fatCount), None)
  }

  predicate Matches(r: Record, name: Name, requested: Option<seq<byte>>) {
    requested == Some(r.alias) || NameEqual(r.name, name)
  }

  function FirstExisting(recs: seq<Record>, name: Name, requested: Option<seq<byte>>): (r: Option<nat>)
    ensures r.Some? ==> r.value < |recs| && Matches(recs[r.value], name, requested)
                        && forall k :: 0 <= k < r.value ==> !Matches(recs[k], name, requested)
    ensures r.None? ==> forall k :: 0 <= k < |recs| ==> !Matches(recs[k], name, requested)
  {
    if recs == [] then None
    else if Matches(recs[0], name, requested) then Some(0)
    else match FirstExisting(recs[1..], name, requested)
      case None => None
      case Some(k) => Some(k + 1)
  }

  function AliasesOf(recs: seq<Record>): set<seq<byte>> {
    set k | 0 <= k < |recs| :: recs[k].alias
  }

  /** What the caller asks for; an empty `fatName` asks for no particular alias, and `upper` is the host's
      upper-casing. */
  datatype Request = Request(name: Name, fatName: Name, data: seq<byte>, replace: bool, upper: Name -> Name)

  /** The alias asked for, if one was. */
  function Requested(q: Request): Option<seq<byte>> {
    if q.fatName == [] then None else NameTo83(q.upper(q.fatName))
  }

  lemma {:induction false} RequestedGood(q: Request)
    ensures Requested(q).Some? ==> GoodAlias(Requested(q).value)
  {
  }

  /** Injection into the directory that starts at cluster `d`. */
  function InjectInto(image: seq<byte>, lba: int, g: Geometry, d: nat, q: Request): (r: Outcome)
    requires Fits(g, lba, |image|)
    ensures |r.image| == |image|
  {
    var fat := FatImage(image, lba, g);
    var t := Table(fat);
    match DirRecords(image, lba, g, t, d)
    case Err(e) => Outcome(image, Some(e))
    case Ok(recs) =>
      var requested := Requested(q);
      if q.fatName != [] && requested.None? then Outcome(image, Some(BadAlias))
      else match FirstExisting(recs, q.name, requested)
        case Some(k) =>
          if !q.replace then Outcome(image, Some(AlreadyExists)) else Replace(image, lba, g, fat, d, recs[k], q)
        case None =>
          var alias := if requested.Some? then requested else Alias(q.upper(q.name), AliasesOf(recs));
          if alias.None? then Outcome(image, Some(NoAlias))
            else Store(image, lba, g, fat, d, q.name, alias.value, q.data)
  }

  /** Frees the old chain, wipes the old entries and stores the file again under its alias. */
  function Replace(image: seq<byte>, lba: int, g: Geometry, fat: seq<byte>, d: nat, victim: Record,
                   q: Request): (r: Outcome)
    requires Fits(g, lba, |image|) && |fat| == g.FatBytes() && |victim.alias| == 11 && victim.offset + 32 <= |image|
    ensures |r.image| == |image|
  {
    match FileChain(Table(fat), g, victim.cluster)
    case Err(e) => Outcome(image, Some(e))
    case Ok(ch) =>
      Store(Wipe(image, victim.lfnStart, victim.offset + 32), lba, g, ReleaseFat(fat, ch, |ch|), d, q.name,
            victim.alias, q.data)
  }

  function Inject(image: seq<byte>, lba: int, path: Name, q: Request): (r: Outcome)
    requires q.name == FileNameOf(path)
    ensures |r.image| == |image|
  {
    if path == [] || path[|path| - 1] in {SLASH, BACKSLASH} then Outcome(image, Some(BadPath))
    else match ReadGeometry(image, lba)
      case Err(e) => Outcome(image, Some(e))
      case Ok(g) =>
        match Resolve(image, lba, g, Table(FatImage(image, lba, g)), DirectoryOf(path), ROOT)
        case Err(e) => Outcome(image, Some(e))
        case Ok(d) => InjectInto(image, lba, g, d, q)
  }
}
