/** Reading back by name what an injection stored: what a lookup finds afterwards, and when that is the new file. */
module Fat32ReadBack {
  import opened Bytes
  import opened DataBlocks
  import opened Chains
  import opened LongNames
  import opened Directory
  import opened Fat32Volume
  import opened Fat32Layout
  import opened Fat32Slots
  import opened Fat32Files
  import opened Fat32Live
  import opened Fat32Store
  import opened Fat32Inject
  import opened Fat32Replace
  import opened Fat32Runs
  import opened Fat32Theorems

  // ----- which record a lookup finds -----

  lemma {:induction false} NameEqualSelf(name: Name)
    ensures NameEqual(name, name)
  {
  }

  lemma {:induction false} FirstAnswerIs(recs: seq<Record>, name: Name, k: nat)
    requires k < |recs| && Answers(recs[k], name) && forall i :: 0 <= i < k ==> !Answers(recs[i], name)
    ensures FirstAnswer(recs, name) == Some(k)
  {
    hide Answers;
    match FirstAnswer(recs, name)
    case None =>
    case Some(i) =>
  }

  /** A lookup finds a new record exactly when it answers and no record listed before it does; otherwise it finds what
      it found without it. */
  lemma {:induction false} FoundNew(recs: seq<Record>, k: nat, r: Record, name: Name)
    requires k <= |recs|
    ensures FirstAnswer(With(recs, k, r), name) == Some(k) <==> Answers(r, name) && forall i :: 0 <= i < k ==>
            !Answers(recs[i], name)
    ensures Pick(With(recs, k, r), name)
            == if Answers(r, name) && forall i :: 0 <= i < k ==>
                !Answers(recs[i], name) then Some(r) else Pick(recs, name)
  {
    hide Answers, FirstAnswer, With;
    var all := With(recs, k, r);
    WithIndex(recs, k, r, k);
    forall i | 0 <= i < |recs|
      ensures recs[i] == all[if i < k then i else i + 1]
    {
      WithIndex(recs, k, r, if i < k then i else i + 1);
    }
    match FirstAnswer(all, name)
    case None =>
      FirstAnswerIff(recs, name);
      forall i | 0 <= i < |recs| ensures !Answers(recs[i], name) { assert recs[i] == all[if i < k then i else i + 1]; }
    case Some(m) =>
      forall i | 0 <= i < k && i < m ensures !Answers(recs[i], name) { assert recs[i] == all[i]; }
      if m < k {
        assert recs[m] == all[m];
        FirstAnswerIs(recs, name, m);
      } else if m > k {
        assert recs[m - 1] == all[m];
        forall i | k <= i < m - 1 ensures !Answers(recs[i], name) { assert recs[i] == all[i + 1]; }
        FirstAnswerIs(recs, name, m - 1);
      }
  }

  lemma {:induction false} FirstAnswerIff(recs: seq<Record>, name: Name)
    ensures FirstAnswer(recs, name).None? <==> forall i :: 0 <= i < |recs| ==> !Answers(recs[i], name)
  {
    hide Answers;
  }

  /** A record stored for `name` under `alias` answers to `name`. */
  predicate Reached(name: Name, alias: seq<byte>)
    requires |alias| == 11
  {
    (name != [] && Trim(name) == name) || NameEqual(ShortName(alias), name)
  }

  /** The record of a stored file answers to its name exactly when the reader's trimming leaves the name alone or the
      alias spells it. */
  lemma {:induction false} AnswersIff(r: Record, name: Name, alias: seq<byte>, first: nat, size: nat)
    requires |alias| == 11 && Describes(r, name, alias, first, size) && name != []
    ensures Answers(r, name) <==> Reached(name, alias)
  {
    TrimShorter(name);
    NameEqualSelf(name);
    hide ShortName, Trim;
  }

  // ----- reading a name in a directory -----

  /** Reading `name` among the records `recs`. */
  function ReadAmong(image: seq<byte>, lba: int, g: Geometry, t: seq<nat>, recs: seq<Record>,
                     name: Name): Result<seq<byte>, Error>
    requires Fits(g, lba, |image|) && g.Top() <= |t|
  {
    match Pick(recs, name)
    case None => Err(NotFound)
    case Some(r) => if r.IsDirectory() then Err(NotFound) else ReadRecord(image, lba, g, t, r)
  }

  lemma {:induction false} ReadInAmong(image: seq<byte>, lba: int, g: Geometry, t: seq<nat>, d: nat, recs: seq<Record>,
                                       name: Name)
    requires Fits(g, lba, |image|) && g.Top() <= |t| && DirRecords(image, lba, g, t, d) == Ok(recs)
    ensures ReadIn(image, lba, g, t, d, name) == ReadAmong(image, lba, g, t, recs, name)
  {
    hide DirRecords, ReadRecord, Pick;
  }

  /** The new record is in place, and reading it and the records around it is known. */
  ghost predicate Settled(image: seq<byte>, t: seq<nat>, image': seq<byte>, t': seq<nat>, lba: int, g: Geometry, d: nat,
                          rest: seq<Record>, k: nat, r: Record, data: seq<byte>)
    requires Fits(g, lba, |image|) && |image'| == |image| && g.Top() <= |t| && g.Top() <= |t'|
  {
    && k <= |rest| && DirRecords(image', lba, g, t', d) == Ok(With(rest, k, r))
    && !r.IsDirectory() && ReadRecord(image', lba, g, t', r) == Ok(data)
    && forall x :: x in rest && !x.IsDirectory() ==>
       ReadRecord(image', lba, g, t', x) == ReadRecord(image, lba, g, t, x)
  }

  lemma {:induction false} PickIn(recs: seq<Record>, name: Name)
    ensures Pick(recs, name).Some? ==> Pick(recs, name).value in recs
  {
    hide Answers;
  }

  /** Reading any name afterwards: the new file if its record is the one found, and otherwise what was there before. */
  lemma {:induction false} ReadAfter(image: seq<byte>, t: seq<nat>, image': seq<byte>, t': seq<nat>, lba: int,
                                     g: Geometry, d: nat, rest: seq<Record>, k: nat, r: Record, data: seq<byte>,
                                     name: Name)
    requires Fits(g, lba, |image|) && |image'| == |image| && g.Top() <= |t| && g.Top() <= |t'|
    requires Settled(image, t, image', t', lba, g, d, rest, k, r, data)
    ensures k <= |rest|
    ensures ReadIn(image', lba, g, t', d, name)
            == if Answers(r, name) && forall i :: 0 <= i < k ==>
                !Answers(rest[i], name) then Ok(data) else ReadAmong(image, lba, g, t, rest, name)
  {
    hide DirRecords, ReadRecord, Pick, Answers, Fits, With;
    FoundNew(rest, k, r, name);
    PickIn(rest, name);
    ReadInAmong(image', lba, g, t', d, With(rest, k, r), name);
  }

  /** Reading the name a fresh injection stored, in full: the data, unless a record listed before the new one answers to
      the name or the reader trims it away; then the name reads as it did before. */
  lemma {:induction false} ReadsBack(image: seq<byte>, lba: int, g: Geometry, dirs: set<nat>, L: Layout, d: nat,
                                     q: Request)
    requires Fits(g, lba, |image|) && Live(image, lba, g, TableOf(image, lba, g), dirs, L) && d in dirs
    requires DirsIn(g, dirs, L)
    requires Met(ListingOf(image, lba, g, dirs, L), d, q) == None && InjectInto(image, lba, g, d, q).error == None
    ensures d in L && InRange(g, L[d]) && ChosenAlias(ListingOf(image, lba, g, dirs, L)[d], q).Some?
    ensures var recs, image' := ListingOf(image, lba, g, dirs, L)[d], InjectInto(image, lba, g, d, q).image;
            var k, alias := InsertAt(DirSlots(image, lba, g, L[d]), EntryCount(q.name) + 1), ChosenAlias(recs, q).value;
            && k <= |recs|
            && ReadIn(image', lba, g, TableOf(image', lba, g), d, q.name)
               == if Reached(q.name, alias) && forall i :: 0 <= i < k ==> !Answers(recs[i], q.name) then Ok(q.data)
                  else ReadIn(image, lba, g, TableOf(image, lba, g), d, q.name)
  {
    hide *;
    var t, recs := TableOf(image, lba, g), ListingOf(image, lba, g, dirs, L)[d];
    LiveChain(image, lba, g, t, dirs, L, d);
    var alias, L', k, r := InjectFresh(image, lba, g, dirs, L, d, q);
    var image' := InjectInto(image, lba, g, d, q).image;
    NameNotEmpty(image, lba, g, dirs, L, d, q);
    StoredPlaces(image, lba, g, dirs, L, d, q.name, alias, q.data, image', L', k, r);
    AnswersIff(r, q.name, alias, r.cluster, |q.data|);
    ReadAfter(image, t, image', TableOf(image', lba, g), lba, g, d, recs, k, r, q.data, q.name);
    ReadInAmong(image, lba, g, t, d, recs, q.name);
  }

  lemma {:induction false} NameNotEmpty(image: seq<byte>, lba: int, g: Geometry, dirs: set<nat>, L: Layout, d: nat,
                                        q: Request)
    requires Fits(g, lba, |image|) && Live(image, lba, g, TableOf(image, lba, g), dirs, L) && d in dirs
    requires InjectInto(image, lba, g, d, q).error == None
    ensures q.name != []
  {
    hide Live, Place, Commit, Table, FatImage, FileChain, Wipe, ReleaseFat, Decodable, Requested, Alias, FirstExisting,
         DirRecords, DirChain, Fits;
  }

  lemma {:induction false} StoredPlaces(image: seq<byte>, lba: int, g: Geometry, dirs: set<nat>, L: Layout, d: nat,
                                        name: Name, alias: seq<byte>, data: seq<byte>, image': seq<byte>, L': Layout,
                                        k: nat, r: Record)
    requires Fits(g, lba, |image|) && |image'| == |image| && Live(image, lba, g, TableOf(image, lba, g), dirs, L)
    requires DirsIn(g, dirs, L)
    requires Stored(image, TableOf(image, lba, g), lba, g, dirs, L, d, name, alias, data, image', L', k, r)
    ensures d in dirs && d in L && InRange(g, L[d])
    ensures k == InsertAt(DirSlots(image, lba, g, L[d]), EntryCount(name) + 1)
    ensures Settled(image, TableOf(image, lba, g), image', TableOf(image', lba, g), lba, g, d,
                    ListingOf(image, lba, g, dirs, L)[d], k, r, data)
    ensures Describes(r, name, alias, r.cluster, |data|)
  {
    hide Live, ListingOf, DirsIn, Table, FatImage, FatCopy, ReadRecord, KeepsFiles, SameOutside, FreeCount, NoLeaks,
         With, Fits, Needed, TableOf, DirSlots, InsertAt, Extension, EntryCount, InRange, DirRecords, Trim, ShortName,
         Shows;
    TableIs(image', lba, g);
    LiveChain(image', lba, g, TableOf(image', lba, g), dirs, L', d);
    var R: Listing := ListingOf(image, lba, g, dirs, L);
    forall x | x in R[d] && !x.IsDirectory()
      ensures ReadRecord(image', lba, g, TableOf(image', lba, g), x)
              == ReadRecord(image, lba, g, TableOf(image, lba, g), x)
    {
      FreshKeepsRecord(image, lba, g, dirs, L, d, name, alias, data, image', L', k, r, d, x);
      ShowsReads(image', lba, g, dirs, L', d, x, ReadRecord(image, lba, g, TableOf(image, lba, g), x));
    }
  }

  lemma {:induction false} ShowsReads(image: seq<byte>, lba: int, g: Geometry, dirs: set<nat>, L: Layout, e: nat,
                                      r: Record, bytes: Result<seq<byte>, Error>)
    requires Fits(g, lba, |image|) && Shows(image, lba, g, dirs, L, e, r, bytes) && !r.IsDirectory()
    ensures ReadRecord(image, lba, g, TableOf(image, lba, g), r) == bytes
  {
  }

  /** Reading the name a replacement stored, in full: the new data, unless one of the other records listed before the
      new one answers to the name or the reader trims it away; then the name reads as it did among the other records. */
  lemma {:induction false} ReplacedReadsBack(image: seq<byte>, lba: int, g: Geometry, dirs: set<nat>, L: Layout, d: nat,
                                             q: Request, k: nat)
    requires Fits(g, lba, |image|) && Victim(image, lba, g, TableOf(image, lba, g), dirs, L, d, k) && DirsIn(g, dirs, L)
    requires Met(ListingOf(image, lba, g, dirs, L), d, q) == Some(k) && d in L && InRange(g, L[d])
    requires Replaceable(image, lba, g, TableOf(image, lba, g), L[d], k)
    requires InjectInto(image, lba, g, d, q).error == None
    ensures var v := ListingOf(image, lba, g, dirs, L)[d][k]; v.offset + 32 <= |image| && |v.alias| == 11
    ensures var v, rest := ListingOf(image, lba, g, dirs, L)[d][k], Without(ListingOf(image, lba, g, dirs, L)[d], k);
            var image', j := InjectInto(image, lba, g, d, q).image,
                             InsertAt(DirSlots(Wipe(image, v.lfnStart, v.offset + 32), lba, g, L[d]),
                                      EntryCount(q.name) + 1);
            && j <= |rest|
            && ReadIn(image', lba, g, TableOf(image', lba, g), d, q.name)
               == if Reached(q.name, v.alias) && forall i :: 0 <= i < j ==> !Answers(rest[i], q.name) then Ok(q.data)
                  else ReadAmong(image, lba, g, TableOf(image, lba, g), rest, q.name)
  {
    hide *;
    var t := TableOf(image, lba, g);
    VictimParts(image, lba, g, t, dirs, L, d, k);
    var recs := ListingOf(image, lba, g, dirs, L)[d];
    var L', j, r := InjectReplace(image, lba, g, dirs, L, d, q, k);
    var image' := InjectInto(image, lba, g, d, q).image;
    NameNotEmpty(image, lba, g, dirs, L, d, q);
    ReplacedPlaces(image, lba, g, dirs, L, d, k, q.name, q.data, image', L', j, r);
    AnswersIff(r, q.name, recs[k].alias, r.cluster, |q.data|);
    ReadAfter(image, t, image', TableOf(image', lba, g), lba, g, d, Without(recs, k), j, r, q.data, q.name);
  }

  lemma {:induction false} ReplacedPlaces(image: seq<byte>, lba: int, g: Geometry, dirs: set<nat>, L: Layout, d: nat,
                                          k: nat, name: Name, data: seq<byte>, image': seq<byte>, L': Layout, j: nat,
                                          r: Record)
    requires Fits(g, lba, |image|) && |image'| == |image|
    requires Victim(image, lba, g, TableOf(image, lba, g), dirs, L, d, k) && DirsIn(g, dirs, L)
    requires Replaced(image, TableOf(image, lba, g), lba, g, dirs, L, d, k, name, data, image', L', j, r)
    ensures d in L && InRange(g, L[d])
    ensures var v := ListingOf(image, lba, g, dirs, L)[d][k];
            && v.offset + 32 <= |image| && |v.alias| == 11
            && j == InsertAt(DirSlots(Wipe(image, v.lfnStart, v.offset + 32), lba, g, L[d]), EntryCount(name) + 1)
            && Describes(r, name, v.alias, r.cluster, |data|)
    ensures Settled(image, TableOf(image, lba, g), image', TableOf(image', lba, g), lba, g, d,
                    Without(ListingOf(image, lba, g, dirs, L)[d], k), j, r, data)
  {
    hide Live, ListingOf, DirsIn, Table, FatImage, FatCopy, ReadRecord, KeepsFiles, SameOutside, FreeCount, NoLeaks,
         With, Without, Fits, Needed, TableOf, DirSlots, InsertAt, Extension, EntryCount, InRange, DirRecords, Trim,
         ShortName, Shows, Victim, Dropped, Wipe, ChainAt;
    TableIs(image', lba, g);
    var t := TableOf(image, lba, g);
    VictimParts(image, lba, g, t, dirs, L, d, k);
    VictimChain(image, lba, g, t, dirs, L, d, k);
    LiveParts(image, lba, g, t, dirs, L);
    var R: Listing := ListingOf(image, lba, g, dirs, L);
    LiveChain(image', lba, g, TableOf(image', lba, g), dirs - {R[d][k].cluster}, L', d);
    forall x | x in Without(R[d], k) && !x.IsDirectory()
      ensures ReadRecord(image', lba, g, TableOf(image', lba, g), x) == ReadRecord(image, lba, g, t, x)
    {
      StillIn(R, L.Keys, d, k, x);
      ReplaceKeepsRecord(image, lba, g, dirs, L, d, k, name, data, image', L', j, r, d, x);
      ShowsReads(image', lba, g, dirs - {R[d][k].cluster}, L', d, x, ReadRecord(image, lba, g, t, x));
    }
  }

  lemma {:induction false} StillIn(R: Listing, keys: set<nat>, d: nat, k: nat, x: Record)
    requires OwnersOk(R, keys) && d in R && k < |R[d]| && x in Without(R[d], k)
    ensures x in R[d] && x != R[d][k]
  {
    var i :| 0 <= i < |Without(R[d], k)| && Without(R[d], k)[i] == x;
    WithoutIndex(R[d], k, i);
    assert DistinctAliases(R[d]);
    hide OwnersOk;
  }

  lemma {:induction false} AmongAt(image: seq<byte>, lba: int, g: Geometry, t: seq<nat>, recs: seq<Record>, name: Name,
                                   i: nat)
    requires Fits(g, lba, |image|) && g.Top() <= |t| && i < |recs| && Answers(recs[i], name)
    requires (forall j :: 0 <= j < i ==> !Answers(recs[j], name)) && !recs[i].IsDirectory()
    ensures ReadAmong(image, lba, g, t, recs, name) == ReadRecord(image, lba, g, t, recs[i])
  {
    hide Answers, ReadRecord;
    FirstAnswerIs(recs, name, i);
  }

  /** The long name longfilename.txt, the alias LONGFI~1.TXT it is given, and that alias as a name. */
  const LONG_FILE_NAME: Name :=
      [0x6C, 0x6F, 0x6E, 0x67, 0x66, 0x69, 0x6C, 0x65, 0x6E, 0x61, 0x6D, 0x65, 0x2E, 0x74, 0x78, 0x74]
  const LONG_FILE_ALIAS: seq<byte> := [0x4C, 0x4F, 0x4E, 0x47, 0x46, 0x49, 0x7E, 0x31, 0x54, 0x58, 0x54]
  const ALIAS_AS_NAME: Name := [0x4C, 0x4F, 0x4E, 0x47, 0x46, 0x49, 0x7E, 0x31, 0x2E, 0x54, 0x58, 0x54]

  lemma {:induction false} AliasAnswers(r: Record, q: Request)
    requires r.alias == LONG_FILE_ALIAS && r.name == LONG_FILE_NAME && q.name == ALIAS_AS_NAME && q.fatName == []
    ensures FirstExisting([r], q.name, Requested(q)) == None && Answers(r, q.name)
  {
  }

  /** A captured name: in a directory listing only longfilename.txt the name LONGFI~1.TXT is fresh; once injected, it
      reads as the other file if its record is listed behind that one, and otherwise as its own data. */
  lemma {:induction false} CapturedName(image: seq<byte>, lba: int, g: Geometry, dirs: set<nat>, L: Layout, d: nat,
                                        q: Request, r: Record)
    requires Fits(g, lba, |image|) && Live(image, lba, g, TableOf(image, lba, g), dirs, L) && d in dirs
    requires DirsIn(g, dirs, L)
    requires ListingOf(image, lba, g, dirs, L)[d] == [r] && !r.IsDirectory() && r.alias == LONG_FILE_ALIAS
    requires r.name == LONG_FILE_NAME
    requires q.name == ALIAS_AS_NAME && q.fatName == [] && InjectInto(image, lba, g, d, q).error == None
    ensures Met(ListingOf(image, lba, g, dirs, L), d, q) == None && d in L && InRange(g, L[d])
    ensures var image' := InjectInto(image, lba, g, d, q).image;
            var k := InsertAt(DirSlots(image, lba, g, L[d]), EntryCount(q.name) + 1);
            && k <= 1
            && ReadIn(image', lba, g, TableOf(image', lba, g), d, q.name)
               == if k == 1 then ReadRecord(image, lba, g, TableOf(image, lba, g), r) else Ok(q.data)
  {
    hide *;
    AliasAnswers(r, q);
    var t := TableOf(image, lba, g);
    LiveChain(image, lba, g, t, dirs, L, d);
    MetIs(ListingOf(image, lba, g, dirs, L), d, q);
    ReadsBack(image, lba, g, dirs, L, d, q);
    AliasReached(ChosenAlias([r], q).value);
    ReadInAmong(image, lba, g, t, d, [r], q.name);
    AmongAt(image, lba, g, t, [r], q.name, 0);
  }

  lemma {:induction false} AliasReached(alias: seq<byte>)
    requires |alias| == 11
    ensures Reached(ALIAS_AS_NAME, alias)
  {
  }

  // ----- whole paths -----

  /** The directories a path looks into on its way. */
  function Consulted(image: seq<byte>, lba: int, g: Geometry, t: seq<nat>, parts: seq<Name>, c: nat): seq<nat>
    requires Fits(g, lba, |image|) && g.Top() <= |t|
    decreases |parts|
  {
    if parts == [] then []
    else [c] + match Lookup(image, lba, g, t, c, parts[0])
               case Ok(Some(r)) => if r.IsDirectory() then Consulted(image, lba, g, t, parts[1..], r.cluster) else []
               case _ => []
  }

  lemma {:induction false} ResolveFrame(image: seq<byte>, t: seq<nat>, image': seq<byte>, t': seq<nat>, lba: int,
                                        g: Geometry, parts: seq<Name>, c: nat)
    requires Fits(g, lba, |image|) && |image'| == |image| && g.Top() <= |t| && g.Top() <= |t'|
    requires forall e :: e in Consulted(image, lba, g, t, parts, c) ==>
             DirRecords(image', lba, g, t', e) == DirRecords(image, lba, g, t, e)
    ensures Resolve(image', lba, g, t', parts, c) == Resolve(image, lba, g, t, parts, c)
    decreases |parts|
  {
    hide DirRecords, Fits, Pick;
    if parts != [] {
      assert c in Consulted(image, lba, g, t, parts, c);
      match Lookup(image, lba, g, t, c, parts[0])
      case Ok(Some(r)) =>
        if r.IsDirectory() {
          forall e | e in Consulted(image, lba, g, t, parts[1..], r.cluster)
            ensures DirRecords(image', lba, g, t', e) == DirRecords(image, lba, g, t, e)
          {
            assert e in Consulted(image, lba, g, t, parts, c);
          }
          ResolveFrame(image, t, image', t', lba, g, parts[1..], r.cluster);
        }
      case _ =>
    }
  }

  lemma {:induction false} ConsultedInDirs(image: seq<byte>, lba: int, g: Geometry, t: seq<nat>, dirs: set<nat>,
                                           L: Layout, parts: seq<Name>, c: nat)
    requires Fits(g, lba, |image|) && Live(image, lba, g, t, dirs, L) && c in dirs && g.Top() <= |t|
    requires Resolve(image, lba, g, t, parts, c).Ok?
    ensures forall e :: e in Consulted(image, lba, g, t, parts, c) ==> e in dirs
    decreases |parts|
  {
    hide Live, DirRecords, Fits, Pick;
    if parts != [] {
      ResolveInDirs(image, lba, g, t, dirs, L, parts[..1], c);
      match Lookup(image, lba, g, t, c, parts[0])
      case Ok(Some(r)) =>
        if r.IsDirectory() {
          assert parts[..1] == [parts[0]] && parts[..1][1..] == [];
          assert Resolve(image, lba, g, t, [], r.cluster) == Ok(r.cluster);
          ConsultedInDirs(image, lba, g, t, dirs, L, parts[1..], r.cluster);
        }
      case _ =>
    }
  }

  /** None of the directories a path looks into is the one the step works on or one it removes. */
  ghost predicate PathApart(image: seq<byte>, lba: int, g: Geometry, dirs: set<nat>, op: Op)
    requires Fits(g, lba, |image|) && Target(image, lba, g, op).Ok?
  {
    forall e :: e in Consulted(image, lba, g, TableOf(image, lba, g), DirectoryOf(op.path), ROOT) ==>
      e != Target(image, lba, g, op).value && e in DirsAfter(image, lba, g, dirs, op)
  }

  /** Injecting at a path and reading that path, in full, for a fresh or a replaced name: the data, unless one of the
      other records listed before the new one answers to the name or the reader trims it away; then the name reads as it
      did among the other records. The step must not touch a directory the path passes through on its way. */
  lemma {:induction false} InjectThenRead(image: seq<byte>, lba: int, g: Geometry, dirs: set<nat>, L: Layout, op: Op)
    requires ReadGeometry(image, lba) == Ok(g) && Live(image, lba, g, TableOf(image, lba, g), dirs, L)
    requires GoodStep(image, lba, g, dirs, op) && WellPosed(op) && Apply(image, lba, op).error == None
    requires Target(image, lba, g, op).Ok? && PathApart(image, lba, g, dirs, op)
    ensures DirRecords(image, lba, g, TableOf(image, lba, g), Target(image, lba, g, op).value).Ok?
    ensures NewAlias(image, lba, g, op).Some?
    ensures var rest, k := OtherRecords(image, lba, g, op),
            InsertAt(OpenSlots(image, lba, g, op), EntryCount(op.q.name) + 1);
            && k <= |rest|
            && ReadFile(Apply(image, lba, op).image, lba, op.path)
               == if Reached(op.q.name, NewAlias(image, lba, g, op).value) && forall i :: 0 <= i < k ==>
                   !Answers(rest[i], op.q.name) then Ok(op.q.data)
                  else ReadAmong(image, lba, g, TableOf(image, lba, g), rest, op.q.name)
  {
    hide *;
    var t := TableOf(image, lba, g);
    AcceptedWipes(image, lba, g, dirs, L, op);
    var d := ApplyTarget(image, lba, g, dirs, L, op);
    InjectOutside(image, lba, op);
    var L', u := StepAccepted(image, lba, g, dirs, L, op);
    var image', recs := Apply(image, lba, op).image, ListingOf(image, lba, g, dirs, L)[d];
    var t' := TableOf(image', lba, g);
    StaysListed(image, lba, g, dirs, L, op, d);
    SteppedPlaces(image, image', lba, g, dirs, L, L', op, u, d);
    PathKept(image, image', lba, g, dirs, L, L', op, u, d);
    ReadFileUnfold(image', lba, g, op.path, d);
    PosedName(op);
    NameNotEmpty(image, lba, g, dirs, L, d, op.q);
    AnswersIff(u.new_, op.q.name, u.new_.alias, u.new_.cluster, |op.q.data|);
    ReadAfter(image, t, image', t', lba, g, d, OtherRecords(image, lba, g, op), u.at, u.new_, op.q.data, op.q.name);
  }

  /** The directory a good step works on is not one it removes. */
  lemma {:induction false} StaysListed(image: seq<byte>, lba: int, g: Geometry, dirs: set<nat>, L: Layout, op: Op,
                                       d: nat)
    requires Fits(g, lba, |image|) && Live(image, lba, g, TableOf(image, lba, g), dirs, L) && DirsIn(g, dirs, L)
    requires d in dirs && d in L && InRange(g, L[d])
    requires GoodStep(image, lba, g, dirs, op) && Target(image, lba, g, op) == Ok(d)
    requires Meets(image, lba, g, op).Some? ==> Wipes(image, lba, g, op)
    requires DirChain(TableOf(image, lba, g), g, d) == Ok(L[d])
    requires DirRecords(image, lba, g, TableOf(image, lba, g), d) == Ok(ListingOf(image, lba, g, dirs, L)[d])
    ensures d in DirsAfter(image, lba, g, dirs, op)
    ensures forall k :: Meets(image, lba, g, op) == Some((d, k)) ==>
            k < |ListingOf(image, lba, g, dirs, L)[d]| && d != ListingOf(image, lba, g, dirs, L)[d][k].cluster
  {
    hide Live, Fits, DirRecords, DirChain, TableOf, ListingOf, DirsIn, InRange, GoodStep, Target, DirsAfter;
    MeetsTarget(image, lba, g, op, d);
    match Meets(image, lba, g, op)
    case None => DirsStay(image, lba, g, dirs, op);
    case Some((_, k)) => StepVictim(image, lba, g, dirs, L, op, d, k);
  }

  lemma {:induction false} MeetsTarget(image: seq<byte>, lba: int, g: Geometry, op: Op, d: nat)
    requires Fits(g, lba, |image|) && Target(image, lba, g, op) == Ok(d)
    ensures Meets(image, lba, g, op).Some? ==> Meets(image, lba, g, op).value.0 == d
  {
    hide Target, DirRecords, Requested;
  }

  /** The records of the target directory without the one an operation replaces. */
  function OtherRecords(image: seq<byte>, lba: int, g: Geometry, op: Op): seq<Record>
    requires Fits(g, lba, |image|) && Target(image, lba, g, op).Ok?
    requires DirRecords(image, lba, g, TableOf(image, lba, g), Target(image, lba, g, op).value).Ok?
  {
    var recs := DirRecords(image, lba, g, TableOf(image, lba, g), Target(image, lba, g, op).value).value;
    match Meets(image, lba, g, op) case None => recs case Some((_, k)) => Without(recs, k)
  }

  /** The alias the new record gets: that of the replaced record, or the one chosen for a fresh name. */
  function NewAlias(image: seq<byte>, lba: int, g: Geometry, op: Op): (r: Option<seq<byte>>)
    requires Fits(g, lba, |image|) && Target(image, lba, g, op).Ok?
    requires DirRecords(image, lba, g, TableOf(image, lba, g), Target(image, lba, g, op).value).Ok?
    ensures r.Some? ==> |r.value| == 11
  {
    match MetRecord(image, lba, g, op)
    case Some(v) => if |v.alias| == 11 then Some(v.alias) else None
    case None => ChosenAlias(DirRecords(image, lba, g, TableOf(image, lba, g), Target(image, lba, g, op).value).value,
                             op.q)
  }

  lemma {:induction false} SteppedFacts(image: seq<byte>, image': seq<byte>, lba: int, g: Geometry, dirs: set<nat>,
                                        L: Layout, L': Layout, op: Op, u: Update, d: nat)
    requires Fits(g, lba, |image|) && |image'| == |image| && DirsIn(g, dirs, L) && d in dirs && WellPosed(op)
    requires Stepped(image, image', lba, g, dirs, L, L', op, u) && Target(image, lba, g, op) == Ok(d)
    requires d in DirsAfter(image, lba, g, dirs, op)
    requires DirRecords(image, lba, g, TableOf(image, lba, g), d) == Ok(ListingOf(image, lba, g, dirs, L)[d])
    requires Apply(image, lba, op).error == None
    ensures u.Written? && u.at == InsertAt(OpenSlots(image, lba, g, op), EntryCount(op.q.name) + 1)
    ensures |u.new_.alias| == 11 && Describes(u.new_, op.q.name, u.new_.alias, u.new_.cluster, |op.q.data|)
    ensures !u.new_.IsDirectory()
    ensures NewAlias(image, lba, g, op) == Some(u.new_.alias)
    ensures u.dir == d && Live(image', lba, g, TableOf(image', lba, g), DirsAfter(image, lba, g, dirs, op), L')
    ensures DirsIn(g, DirsAfter(image, lba, g, dirs, op), L')
    ensures u.victim.Some? ==>
            u.victim.value < |ListingOf(image, lba, g, dirs, L)[d]| &&
                Meets(image, lba, g, op) == Some((d, u.victim.value))
    ensures OtherRecords(image, lba, g, op) == Left(ListingOf(image, lba, g, dirs, L)[d], u.victim)
    ensures u.at <= |OtherRecords(image, lba, g, op)|
    ensures u.victim.None? ==> Meets(image, lba, g, op) == None
    ensures d in DirsAfter(image, lba, g, dirs, op)
    ensures ListingOf(image', lba, g, DirsAfter(image, lba, g, dirs, op), L')[d]
            == With(OtherRecords(image, lba, g, op), u.at, u.new_)
    ensures ReadRecord(image', lba, g, TableOf(image', lba, g), u.new_) == Ok(op.q.data)
  {
    hide ChainsOk, DirsClean, OwnersOk, ListingOf, ReadRecord, NoLeaks, With, Without, Fits, TableOf, InsertAt,
         EntryCount, DirRecords, Trim, ShortName, Mirrored, FreeClusters, Balance, Target, Meets, ChosenAlias,
         OpenSlots, InRange, DirsAfter, Gone, Apply;
  }

  lemma {:induction false} SparedOther(image: seq<byte>, lba: int, g: Geometry, R: Listing, keys: set<nat>, op: Op,
                                       u: Update, d: nat, x: Record)
    requires u.Written? && Fits(g, lba, |image|) && OwnersOk(R, keys) && d in R
    requires DirRecords(image, lba, g, TableOf(image, lba, g), d) == Ok(R[d])
    requires u.victim.Some? ==> u.victim.value < |R[d]| && Meets(image, lba, g, op) == Some((d, u.victim.value))
    requires u.victim.None? ==> Meets(image, lba, g, op) == None
    requires u.victim.Some? ==> d != R[d][u.victim.value].cluster
    requires x in Left(R[d], u.victim)
    ensures x in R[d] && !Removes(image, lba, g, op, d, x)
  {
    hide Fits, OwnersOk, DirRecords, TableOf, Meets, Without;
    if u.victim.Some? { StillIn(R, keys, d, u.victim.value, x); }
  }

  lemma {:induction false} SteppedPlaces(image: seq<byte>, image': seq<byte>, lba: int, g: Geometry, dirs: set<nat>,
                                         L: Layout, L': Layout, op: Op, u: Update, d: nat)
    requires Fits(g, lba, |image|) && |image'| == |image| && Live(image, lba, g, TableOf(image, lba, g), dirs, L)
    requires DirsIn(g, dirs, L) && d in dirs && WellPosed(op) && Apply(image, lba, op).error == None
    requires Stepped(image, image', lba, g, dirs, L, L', op, u) && Target(image, lba, g, op) == Ok(d)
    requires d in DirsAfter(image, lba, g, dirs, op)
    requires DirRecords(image, lba, g, TableOf(image, lba, g), d) == Ok(ListingOf(image, lba, g, dirs, L)[d])
    requires forall k :: Meets(image, lba, g, op) == Some((d, k)) ==>
             k < |ListingOf(image, lba, g, dirs, L)[d]| && d != ListingOf(image, lba, g, dirs, L)[d][k].cluster
    requires KeepsRecords(image, image', lba, g, dirs, L, L', op)
    ensures u.Written? && u.at == InsertAt(OpenSlots(image, lba, g, op), EntryCount(op.q.name) + 1)
    ensures |u.new_.alias| == 11 && Describes(u.new_, op.q.name, u.new_.alias, u.new_.cluster, |op.q.data|)
    ensures NewAlias(image, lba, g, op) == Some(u.new_.alias)
    ensures Settled(image, TableOf(image, lba, g), image', TableOf(image', lba, g), lba, g, d,
                    OtherRecords(image, lba, g, op), u.at, u.new_, op.q.data)
  {
    hide Live, ListingOf, DirsIn, ReadRecord, With, Left, Fits, TableOf, InsertAt, EntryCount, DirRecords, Shows,
         Target, Meets, OpenSlots, OwnersOk, Stepped, Describes, NewAlias, OtherRecords, Removes, DirsAfter, Apply,
         KeepsRecords;
    var R: Listing := ListingOf(image, lba, g, dirs, L);
    LiveParts(image, lba, g, TableOf(image, lba, g), dirs, L);
    SteppedFacts(image, image', lba, g, dirs, L, L', op, u, d);
    LiveChain(image', lba, g, TableOf(image', lba, g), DirsAfter(image, lba, g, dirs, op), L', d);
    forall x | x in OtherRecords(image, lba, g, op) && !x.IsDirectory()
      ensures ReadRecord(image', lba, g, TableOf(image', lba, g), x)
              == ReadRecord(image, lba, g, TableOf(image, lba, g), x)
    {
      SparedOther(image, lba, g, R, L.Keys, op, u, d, x);
      KeepsAt(image, image', lba, g, dirs, L, L', op, d, x);
      ShowsReads(image', lba, g, DirsAfter(image, lba, g, dirs, op), L', d, x,
                 ReadRecord(image, lba, g, TableOf(image, lba, g), x));
    }
  }

  /** Directories are nested: but for `.` and `..`, every directory record leads further down. */
  ghost predicate Nested(R: Listing, depth: nat -> nat) {
    forall d, k :: d in R && 0 <= k < |R[d]| && R[d][k].IsDirectory() && !DotEntry(R[d][k]) ==>
        depth(d) < depth(R[d][k].cluster)
  }

  lemma {:induction false} NestedAt(R: Listing, depth: nat -> nat, d: nat, k: nat, part: Name)
    requires Nested(R, depth) && d in R && k < |R[d]| && R[d][k].IsDirectory() && Answers(R[d][k], part)
    requires part !in {DOT, DOTDOT}
    ensures depth(d) < depth(R[d][k].cluster)
  {
    hide DotEntry, Answers;
    if DotEntry(R[d][k]) { DotAnswers(R[d][k], part); }
  }

  /** A path only looks into directories above the one it leads to. */
  lemma {:induction false} ConsultedAbove(image: seq<byte>, lba: int, g: Geometry, t: seq<nat>, dirs: set<nat>,
                                          L: Layout, parts: seq<Name>, c: nat, depth: nat -> nat)
    requires Fits(g, lba, |image|) && Live(image, lba, g, t, dirs, L) && c in dirs && g.Top() <= |t|
    requires DirsIn(g, dirs, L)
    requires Nested(ListingOf(image, lba, g, dirs, L), depth) && Resolve(image, lba, g, t, parts, c).Ok?
    ensures depth(c) <= depth(Resolve(image, lba, g, t, parts, c).value)
    ensures forall e :: e in Consulted(image, lba, g, t, parts, c) ==>
            depth(e) < depth(Resolve(image, lba, g, t, parts, c).value)
    decreases |parts|
  {
    hide Live, DirRecords, Fits, Answers, DotEntry, OwnersOk, ListingOf, Nested, DirsIn;
    if parts != [] {
      LiveParts(image, lba, g, t, dirs, L);
      LiveChain(image, lba, g, t, dirs, L, c);
      var R: Listing := ListingOf(image, lba, g, dirs, L);
      match FirstAnswer(R[c], parts[0])
      case None =>
      case Some(k) =>
        NestedAt(R, depth, c, k, parts[0]);
        ListedOk(R, L.Keys, c, k);
        if DotEntry(R[c][k]) { DotAnswers(R[c][k], parts[0]); }
        ConsultedAbove(image, lba, g, t, dirs, L, parts[1..], R[c][k].cluster, depth);
    }
  }

  /** In nested directories that last condition always holds. */
  lemma {:induction false} InjectThenReadNested(image: seq<byte>, lba: int, g: Geometry, dirs: set<nat>, L: Layout,
                                                op: Op, depth: nat -> nat)
    requires ReadGeometry(image, lba) == Ok(g) && Live(image, lba, g, TableOf(image, lba, g), dirs, L)
    requires GoodStep(image, lba, g, dirs, op) && WellPosed(op) && Apply(image, lba, op).error == None
    requires DirsIn(g, dirs, L) && Nested(ListingOf(image, lba, g, dirs, L), depth) && Target(image, lba, g, op).Ok?
    ensures DirRecords(image, lba, g, TableOf(image, lba, g), Target(image, lba, g, op).value).Ok?
    ensures NewAlias(image, lba, g, op).Some?
    ensures var rest, k := OtherRecords(image, lba, g, op),
            InsertAt(OpenSlots(image, lba, g, op), EntryCount(op.q.name) + 1);
            && k <= |rest|
            && ReadFile(Apply(image, lba, op).image, lba, op.path)
               == if Reached(op.q.name, NewAlias(image, lba, g, op).value) && forall i :: 0 <= i < k ==>
                   !Answers(rest[i], op.q.name) then Ok(op.q.data)
                  else ReadAmong(image, lba, g, TableOf(image, lba, g), rest, op.q.name)
  {
    hide *;
    AcceptedWipes(image, lba, g, dirs, L, op);
    var d := ApplyTarget(image, lba, g, dirs, L, op);
    TargetIs(image, lba, g, op);
    LiveRoot(image, lba, g, TableOf(image, lba, g), dirs, L);
    ConsultedAbove(image, lba, g, TableOf(image, lba, g), dirs, L, DirectoryOf(op.path), ROOT, depth);
    ConsultedInDirs(image, lba, g, TableOf(image, lba, g), dirs, L, DirectoryOf(op.path), ROOT);
    PathAbove(image, lba, g, dirs, L, op, d, depth);
    InjectThenRead(image, lba, g, dirs, L, op);
  }

  lemma {:induction false} PathAbove(image: seq<byte>, lba: int, g: Geometry, dirs: set<nat>, L: Layout, op: Op, d: nat,
                                     depth: nat -> nat)
    requires Fits(g, lba, |image|) && Live(image, lba, g, TableOf(image, lba, g), dirs, L) && DirsIn(g, dirs, L)
    requires d in dirs && d in L && InRange(g, L[d])
    requires GoodStep(image, lba, g, dirs, op) && Target(image, lba, g, op) == Ok(d)
    requires Meets(image, lba, g, op).Some? ==> Wipes(image, lba, g, op)
    requires DirChain(TableOf(image, lba, g), g, d) == Ok(L[d])
    requires DirRecords(image, lba, g, TableOf(image, lba, g), d) == Ok(ListingOf(image, lba, g, dirs, L)[d])
    requires Nested(ListingOf(image, lba, g, dirs, L), depth)
    requires forall e :: e in Consulted(image, lba, g, TableOf(image, lba, g), DirectoryOf(op.path), ROOT) ==>
             e in dirs && depth(e) < depth(d)
    ensures PathApart(image, lba, g, dirs, op)
  {
    hide Live, Fits, DirRecords, DirChain, TableOf, ListingOf, DirsIn, InRange, GoodStep, Target, DirsAfter, Consulted,
         DirectoryOf, Nested, Victim;
    MeetsTarget(image, lba, g, op, d);
    match Meets(image, lba, g, op)
    case None => DirsStay(image, lba, g, dirs, op);
    case Some((_, k)) =>
      StepVictim(image, lba, g, dirs, L, op, d, k);
      VictimParts(image, lba, g, TableOf(image, lba, g), dirs, L, d, k);
      VictimBelow(ListingOf(image, lba, g, dirs, L), depth, d, k);
  }

  lemma {:induction false} VictimBelow(R: Listing, depth: nat -> nat, d: nat, k: nat)
    requires Nested(R, depth) && d in R && k < |R[d]| && Removable(R, d, k)
    ensures R[d][k].cluster in R.Keys ==> depth(d) < depth(R[d][k].cluster)
  {
    hide DotEntry;
  }

  lemma {:induction false} TargetIs(image: seq<byte>, lba: int, g: Geometry, op: Op)
    requires Fits(g, lba, |image|)
    ensures Target(image, lba, g, op) == Resolve(image, lba, g, TableOf(image, lba, g), DirectoryOf(op.path), ROOT)
  {
  }

  lemma {:induction false} LiveRoot(image: seq<byte>, lba: int, g: Geometry, t: seq<nat>, dirs: set<nat>, L: Layout)
    requires Fits(g, lba, |image|) && Live(image, lba, g, t, dirs, L)
    ensures ROOT in dirs
  {
  }

  lemma {:induction false} PosedName(op: Op)
    requires WellPosed(op)
    ensures op.q.name == FileNameOf(op.path)
  {
  }

  lemma {:induction false} ReadFileUnfold(image: seq<byte>, lba: int, g: Geometry, path: Name, d: nat)
    requires ReadGeometry(image, lba) == Ok(g)
    requires Resolve(image, lba, g, TableOf(image, lba, g), DirectoryOf(path), ROOT) == Ok(d)
    ensures ReadFile(image, lba, path) == ReadIn(image, lba, g, TableOf(image, lba, g), d, FileNameOf(path))
  {
    hide ReadGeometry, Resolve, ReadIn, Table, FatImage, DirectoryOf, FileNameOf;
  }

  /** The path still leads where it did. */
  lemma {:induction false} PathKept(image: seq<byte>, image': seq<byte>, lba: int, g: Geometry, dirs: set<nat>,
                                    L: Layout, L': Layout, op: Op, u: Update, d: nat)
    requires Fits(g, lba, |image|) && |image'| == |image| && Live(image, lba, g, TableOf(image, lba, g), dirs, L)
    requires DirsIn(g, dirs, L) && WellPosed(op) && Apply(image, lba, op).error == None
    requires Stepped(image, image', lba, g, dirs, L, L', op, u) && Target(image, lba, g, op) == Ok(d)
    requires PathApart(image, lba, g, dirs, op)
    ensures Resolve(image', lba, g, TableOf(image', lba, g), DirectoryOf(op.path), ROOT) == Ok(d)
  {
    hide *;
    var t, t', left := TableOf(image, lba, g), TableOf(image', lba, g), DirsAfter(image, lba, g, dirs, op);
    SteppedElsewhere(image, image', lba, g, dirs, L, L', op, u, d);
    LiveParts(image, lba, g, t, dirs, L);
    TargetIs(image, lba, g, op);
    ConsultedInDirs(image, lba, g, t, dirs, L, DirectoryOf(op.path), ROOT);
    forall e | e in Consulted(image, lba, g, t, DirectoryOf(op.path), ROOT)
      ensures DirRecords(image', lba, g, t', e) == DirRecords(image, lba, g, t, e)
    {
      PathApartAt(image, lba, g, dirs, op, e);
      LiveChain(image, lba, g, t, dirs, L, e);
      LiveChain(image', lba, g, t', left, L', e);
    }
    ResolveFrame(image, t, image', t', lba, g, DirectoryOf(op.path), ROOT);
  }

  lemma {:induction false} PathApartAt(image: seq<byte>, lba: int, g: Geometry, dirs: set<nat>, op: Op, e: nat)
    requires Fits(g, lba, |image|) && Target(image, lba, g, op).Ok? && PathApart(image, lba, g, dirs, op)
    requires e in Consulted(image, lba, g, TableOf(image, lba, g), DirectoryOf(op.path), ROOT)
    ensures e != Target(image, lba, g, op).value && e in DirsAfter(image, lba, g, dirs, op)
  {
  }

  lemma {:induction false} SteppedElsewhere(image: seq<byte>, image': seq<byte>, lba: int, g: Geometry, dirs: set<nat>,
                                            L: Layout, L': Layout, op: Op, u: Update, d: nat)
    requires Fits(g, lba, |image|) && |image'| == |image| && DirsIn(g, dirs, L) && WellPosed(op)
    requires Apply(image, lba, op).error == None
    requires Stepped(image, image', lba, g, dirs, L, L', op, u) && Target(image, lba, g, op) == Ok(d)
    ensures var left := DirsAfter(image, lba, g, dirs, op);
            && Live(image', lba, g, TableOf(image', lba, g), left, L') && DirsIn(g, left, L')
            && forall e :: e in dirs && e in left && e != d ==>
               ListingOf(image', lba, g, left, L')[e] == ListingOf(image, lba, g, dirs, L)[e]
  {
    hide ChainsOk, OwnersOk, DirsClean, NoLeaks, ReadRecord, Describes, FreeClusters, With, Left, Fits, Balance,
         ListingOf, Target, Meets, MetRecord, InsertAt, OpenSlots, Mirrored, TableOf, DirsAfter, Gone, Apply;
  }
}
