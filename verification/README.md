# ZephyrOS host tools: verified model

The ZephyrOS repository ships Python tools that build disk images, application packages and signed catalogs, drive
the emulator over a serial line and digest coverage traces. This project models the parts of those tools that keep
state or cross representations, and proves what they promise.

- **FAT32 engine** (`Fat32*.dfy`, `Directory.dfy`, `LongNames.dfy`, `Chains.dfy`, `DataBlocks.dfy`). A partition inside
  a disk image: sizing, formatting, the allocator and chain walker, long names, the growable directory, injection,
  replacement and reading. `Fat32Files` and `Fat32Slots` say on byte sequences what each operation does,
  `Fat32Engine` is the in-place code on arrays and is proved equal to it, and the other modules prove what it means:
  an injection is an update of a record map, over every run.
- **FAT12 engine** (`Fat12*.dfy`). The packed 12-bit table with its two independent writers, the destructive release,
  root injection as a map update, formatting and reading.
- **Packages, catalogs and plans** (`Package*.dfy`, `Catalog*.dfy`, `Layouts.dfy`, `Planner.dfy`). The ZPKG v1
  container, the signed ZAC1 catalog and the dependency search. CRC32, SHA-256 and Ed25519 are function parameters;
  that a signature verifies its own message is a hypothesis of the one theorem that needs it.
- **Serial receiver** (`Frames.dfy`, `Receiver.dfy`, `Session.dfy`, `Splitting.dfy`). Frames, the deframer, pumping
  with deferred delivery, and waiting for a case.
- **Coverage traces** (`Coverage.dfy`, `CoverageTheorems.dfy`). The per-case state machine over interleaved lines.

`dafny verify dfyconfig.toml` checks the project.

## What the code does where a reader might expect otherwise

- The sectors-per-FAT loop can end in a two-cycle. It then stops one sector short and the geometry reader refuses
  the partition; `FormatAccepted` gives the exact condition on the sector count.
- Replacing a FAT32 record wipes one physical byte range. That is exact if and only if the range runs upward and covers
  no other live byte than 0xE5 (`WipeExact`). A record inside one cluster always meets this (`OneCluster`); a record
  over a gap between directory clusters destroys bytes of a file in the gap (`WipedFile`, `GapDamages`). Five injections
  into a new volume are enough for that (`GapHappens`).
- A FAT32 replacement can be refused after it has wiped the old record in the array it works on. The record is then gone
  while its chain stays allocated (`RefusedMet`); `ReplaceSucceeds` says exactly when a replacement is accepted. A refused
  injection of a new name changes nothing that can be read (`RefusedFresh`).
- Replacing matches any record, directories included, and releases the chain it points to. For a directory that no
  other record leads to the volume stays well formed, but the files below are stranded (`ReplaceDirectory`). Replacing
  `.` or `..`, or a directory listed twice, would release a chain that is still in use.
- The FAT32 walker accepts a chain that ends in a 0 entry. The volume invariant asks for an end mark.
- A FAT32 lookup matches the long name or the short alias, and the first hit wins, while a replacement matches the long
  name or a requested alias. So a name just injected can read as another file (`CapturedName`, and from a new volume
  `CaptureHappens`); `ReadsBack` and `InjectThenRead` say exactly when it does not.
- The FAT32 formatter clears only the first sector of the root cluster. `FormatMakesVolume` says exactly which leftovers
  in the other three spoil the volume. It asks that cluster numbers stay below the end mark 0x0FFFFFFF.
- The FAT12 geometry does not compare the FAT with the cluster count. A table too small raises an index error in the
  code: while releasing the old file, unless its chain is found corrupted first, or at the latest while allocating. The
  model reports it as `TableTooSmall` at the same point.
- The serial receiver drops a partial line as soon as more than 512 bytes are pending after a read. Whether that happens
  can depend on how the stream is cut; `CutsMatterIff` says for which streams it cannot.
- The catalog builder writes names that the catalog parser refuses (byte 0x7F), unsorted identifiers and free paths.
  `RoundTrip` says exactly which built catalogs are accepted.
- The frame builder accepts an empty field list and its own parser refuses the frame (`EmptyFrame`).

## Model

| member | source | states |
|---|---|---|
| `Fat32Sizing.Search` | tools/packager.py:545-551 | the rounds loop with its early exit computes the n-th iterate of the estimate, for any number of rounds |
| `Fat32Sizing.Contraction` | tools/packager.py:547-548 | two estimates a gap d apart are at most ceil(d/256) apart after one round, in opposite order |
| `Fat32Sizing.Converges` | tools/packager.py:546-551 | whenever a fixed point exists, the eight rounds end on it, for every 32-bit sector count |
| `Fat32Sizing.Alternates` | tools/packager.py:546-551 | without a fixed point every even round is below it and every odd round above |
| `Fat32Sizing.TwoCycleGap` | tools/packager.py:546-551 | without a fixed point the eight rounds end on the smaller member of the two-cycle |
| `Fat32Sizing.TwoCycleExample` | tools/packager.py:546-551 | 514028 sectors alternate between 1000 and 1001 sectors per FAT, and 1000 cannot describe every cluster |
| `Fat32Sizing.SearchOutcome` | tools/packager.py:540-554 | the chosen FAT describes every cluster if and only if (total - 28) mod 514 is at least 2; otherwise it is exactly one sector short |
| `Fat32Format.FormatPartition` | tools/packager.py:540-601 | formatting in place writes exactly the specified boot, information, FAT and root sectors, or refuses |
| `Fat32Format.FormatAccepted` | tools/packager.py:464-601 | the geometry reader accepts a formatted partition if and only if (total - 28) mod 514 is at least 2, with the planned geometry, and otherwise reports a FAT too small |
| `Fat32Format.FormatMakesVolume` | tools/packager.py:540-601 | a formatted partition has equal FAT copies and all clusters but one free, and is an empty well-formed volume without lost clusters if and only if no stale entry is marked in the rest of its root cluster |
| `Fat32Format.FormattedRun` | tools/packager.py:540-900 | from a new image on, any run of injections, accepted or refused, whose replacements wipe without harm is a run of updates of the empty listing: the volume stays well formed, FAT copies are equal, free clusters are all but the root's plus the run's balance, and every file written and not removed since reads as its data |
| `Fat32Format.FirstInjection` | tools/packager.py:830-900 | a single injection into the root of a new volume is always covered by that theorem, and succeeds if and only if its path ends in a name, any requested alias is valid, the name is storable and decodable, the size is below 2^32 and its clusters number no more than those free |
| `Fat32Format.BlankExists` | tools/packager.py:540-601 | new volumes exist: formatting 514030 sectors of an all-zero image gives an empty well-formed volume of 127999 clusters |
| `Fat32Volume.ReadGeometry` | tools/packager.py:464-493 | an accepted geometry puts every FAT copy and every cluster inside the image and gives the table an entry for every cluster |
| `Fat32Volume.TableSet` | tools/packager.py:496-501 | writing one 28-bit entry changes that entry of the decoded table and no other |
| `Fat32Volume.WalkFat` | tools/packager.py:514-526 | the in-place walk returns the walk of the decoded table, and terminates on every table |
| `Fat32Volume.AllocateFat` | tools/packager.py:504-511 | the allocator returns the requested number of lowest free clusters, or refuses |
| `Chains.WalkReturnsChain` | tools/packager.py:514-526 | the walk from the first cluster of an EOF-terminated chain returns exactly that chain |
| `Chains.ChainFromSound` | tools/packager.py:514-526 | whatever the walk accepts is a linked run of distinct clusters in range that ends at an end mark or, as the code allows, at a 0 entry |
| `Chains.Allocate` | tools/packager.py:504-511 | allocated clusters are distinct, in range and free, and allocation fails exactly when fewer are free |
| `Chains.LinkMakesChain` | tools/packager.py:876-879 | linking free clusters makes them one chain, touches no other entry and spends exactly that many free clusters |
| `Chains.ReleaseChain` | tools/packager.py:861-864 | releasing a chain frees exactly its clusters and nothing else |
| `LongNames.ComputeChecksum` | tools/packager.py:629-634 | the rotating byte sum over the alias equals its recursive definition |
| `LongNames.DecodeEntry` | tools/packager.py:647-672 | decoding a long-name entry returns the 13 padded units it was built from |
| `LongNames.CollectedUnits` | tools/packager.py:647-672 | prepending the decoded entries, highest number first, gives the units followed by padding, also for multiples of 13 |
| `LongNames.ReassembledName` | tools/packager.py:637-672 | splitting, storing and reassembling a name and trimming it gives the name back if and only if its last unit is neither 0 nor 0xFFFF |
| `LongNames.Alias` | tools/packager.py:604-626 | a generated alias is well shaped and not yet taken; none is generated only when all numbers are taken |
| `LongNames.MakeAlias` | tools/packager.py:604-626 | the search loop finds the first free alias |
| `LongNames.ShortNameOf83` | tools/packager.py:1035-1046 | an accepted strict alias, shown as a short name, is the very name it was made from, so different names get different aliases |
| `Directory.ParseAcrossFree` | tools/packager.py:738-802 | free entries contribute no record and reset a pending long name |
| `Directory.InsertRecord` | tools/packager.py:738-802 | writing a name's entries over a free run adds exactly one record, at its place, and keeps all others |
| `Directory.RecordRun` | tools/packager.py:738-802 | every record comes from one run of entries between its recorded start and offset, and splits the listing there |
| `Directory.RemoveRecord` | tools/packager.py:738-802 | marking the entries of one record deleted removes that record and no other |
| `Fat32Layout.PutFatsCopies` | tools/packager.py:533-537 | after the FATs are written every copy is the table written |
| `Fat32Layout.PutFatsFrame` | tools/packager.py:533-537 | writing the FATs leaves every data cluster and everything outside the partition alone |
| `Fat32Layout.PutEntriesSlots` | tools/packager.py:898-899 | writing a run of entries of a chain replaces exactly those entries, also across clusters |
| `Fat32Slots.GrowCorrect` | tools/packager.py:722-735 | growing a directory adds only clusters that were free, cleared, in order, until the request fits, and keeps the walker's chain a prefix |
| `Fat32Slots.PlaceCorrect` | tools/packager.py:704-735 | the slot finder returns exactly the requested number of free entries, consecutive in chain order; it extends the chain only when no free run is long enough; the walker then returns the extended chain and the records are unchanged |
| `Fat32Slots.PlaceSucceeds` | tools/packager.py:704-735 | the slot finder succeeds if and only if the clusters it must add are free, and then adds exactly that many |
| `Fat32Slots.PlaceIndex` | tools/packager.py:704-735 | a record written into the run found is listed behind exactly the records before the first free run that is long enough, or behind all of them |
| `Fat32Live.LiveFrame` | tools/packager.py:738-802 | a change that keeps every live chain keeps the volume well formed and its listing equal |
| `Fat32Live.ReadRecordLive` | tools/packager.py:943-952 | reading a record returns the first bytes of its chain's clusters, or reports a chain too short |
| `Fat32Live.OwnersInsert` | tools/packager.py:880-899 | adding a record with a fresh alias and a fresh chain keeps aliases distinct and every chain owned once |
| `Fat32Live.OwnersRemove` | tools/packager.py:861-867 | removing a file, or a directory together with the only record leading to it, keeps aliases distinct and every remaining chain owned once |
| `Fat32Store.FilledReads` | tools/packager.py:874-882 | reading the clusters just filled gives the data back, whatever its length |
| `Fat32Store.GrownLive` | tools/packager.py:704-735 | growing a directory keeps the volume well formed and its listing equal |
| `Fat32Inject.StoreCorrect` | tools/packager.py:868-900 | a successful store adds exactly one record, at the place the slot finder determines, which reads back as the data; every other record and chain is kept; all FAT copies are equal; free clusters fall by the data clusters and the directory extension |
| `Fat32Inject.StoreSucceeds` | tools/packager.py:830-900 | on any table of disjoint terminated chains, whatever the directory's entries look like, a store succeeds if and only if the name is storable and decodable, the size is below 2^32, and the free clusters cover the data and the directory extension |
| `Fat32Refusals.StoreWithin` | tools/packager.py:868-900 | whatever stops a store, it has written to free clusters only |
| `Fat32Refusals.RefusedStore` | tools/packager.py:868-900 | so a refused store keeps the volume, its listing, every chain's bytes and every FAT copy |
| `Fat32Packed.PlacePacked` | tools/packager.py:704-735 | in a directory filled from the front the slot finder takes the first free entries, and when they do not suffice adds the lowest free cluster to the chain |
| `Fat32Replace.WipeExact` | tools/packager.py:865-867 | wiping a record's byte range removes that record and spares every other live byte if and only if the range runs upward and the live bytes it covers outside the record's entries are already 0xE5 |
| `Fat32Replace.AdjacentRange` | tools/packager.py:865-867 | a record whose entries are physically adjacent can be wiped without harm |
| `Fat32Replace.OneCluster` | tools/packager.py:865-867 | so can a record whose first and last entry lie in the same cluster, told from its two recorded offsets alone |
| `Fat32Replace.SafeRangeIff` | tools/packager.py:865-867 | on a volume without lost clusters that condition can be read off the image and its table: it holds if and only if every covered byte of an allocated cluster, but for the record's entries and the old file, is 0xE5 |
| `Fat32Gaps.StoreFrame` | tools/packager.py:868-900 | a successful store leaves the links and bytes of every chain but its directory's alone, whatever the directory's entries look like |
| `Fat32Gaps.WipedFile` | tools/packager.py:856-900 | after any successful replacement every other file has its old length, 0xE5 in each byte that lies in the wiped range, and its old bytes everywhere else |
| `Fat32Gaps.SurvivesIff` | tools/packager.py:856-900 | so another file reads as before if and only if its bytes in the wiped range were 0xE5 already |
| `Fat32Gaps.GapDamages` | tools/packager.py:865-867 | the failing family: whenever the replaced record spans two directory clusters that leave a gap and a listed file has a byte other than 0xE5 in the first cluster of the gap, that file reads wrong afterwards |
| `Fat32Replace.ReplaceCorrect` | tools/packager.py:856-900 | a successful safe replacement of a file, or of a directory nothing else leads to, exchanges exactly one record, keeps its alias, reads back as the data, keeps every other file and equal FAT copies, and the free count changes by the old chain minus the data clusters minus the directory extension |
| `Fat32Gaps.ReplaceDirectory` | tools/packager.py:848-900 | replacing a directory frees its chain and removes its record, no record leads to it any more, and the files it listed keep their clusters and bytes without a record to reach them by |
| `Fat32Witness.GapHappens` | tools/packager.py:830-952 | on every new volume, whatever upper-casing does: after a one-byte file and three empty files with 255-unit names, injecting the third of these again is accepted like the others before it, and the one-byte file then reads as 0xE5 |
| `Fat32Runs.InjectOutside` | tools/packager.py:830-900 | one injection, replacing or not, successful or not, keeps the image length, every byte outside the partition and its reserved sectors |
| `Fat32Runs.RunOutside` | tools/packager.py:830-900 | so does every sequence of injections, and the geometry stays readable |
| `Fat32Theorems.ResolveInDirs` | tools/packager.py:805-822 | a path through a well-formed volume only meets its directories |
| `Fat32Theorems.InjectFresh` | tools/packager.py:830-900 | an injection of a new name has the outcome of the store theorem, with the requested alias or else the generated one |
| `Fat32Theorems.InjectSucceeds` | tools/packager.py:830-900 | an injection of a new name succeeds if and only if any requested alias is valid, an alias can be had, the name is storable and decodable, the size is below 2^32, and the free clusters cover data and directory extension |
| `Fat32Theorems.InjectReplace` | tools/packager.py:830-900 | an injection over an existing record, be it a file or a directory nothing else leads to, that can be wiped without harm has the outcome of the replacement theorem |
| `Fat32Theorems.ReplaceSucceeds` | tools/packager.py:830-900 | a replacement, safe or not, of any record but one for its own directory succeeds if and only if it is asked for, any requested alias is valid, the name is storable and decodable, the size is below 2^32, and the free clusters together with the old chain cover data and directory extension |
| `Fat32Theorems.RefusedFresh` | tools/packager.py:830-900 | a refused injection of a new name keeps the volume, its listing, every file and every FAT copy |
| `Fat32Theorems.RefusedMet` | tools/packager.py:848-900 | a refused replacement leaves the image as it was if it was not asked for or its alias is invalid; otherwise, over a file or a directory nothing else leads to that can be wiped without harm, the record is gone, its chain is still allocated in every FAT copy, and every other record and file is kept |
| `Fat32Theorems.StepKeeps` | tools/packager.py:830-900 | one step, accepted or refused, whose replacement if any wipes without harm, is an update of the listing told from the image it meets: one record written at its place, or one wiped by a refused replacement, or none; a written record reads as the data, free clusters change by the old chain minus the data clusters minus the directory extension or not at all, the volume stays well formed, accepted steps leave equal FAT copies, and every record not removed keeps its contents |
| `Fat32Theorems.RunKeeps` | tools/packager.py:830-900 | over any sequence of such steps the listing is the old one after one update per step, chains stay disjoint, in range and terminated, every allocated cluster is on one of them, FAT copies stay equal, free clusters change by the sum of the steps' balances, every record that no step removed reads the same, and every record a step wrote and no later step removed reads as that step's data |
| `Fat32ReadBack.ReadsBack` | tools/packager.py:830-952 | after a fresh injection the name reads as the data when the new record answers to it and no record listed before it does, and in every other case as it did before the injection; when that is, is told from the image before |
| `Fat32ReadBack.ReplacedReadsBack` | tools/packager.py:830-952 | after a replacement the name reads as the new data under the same condition on the other records, and otherwise as it did among them |
| `Fat32ReadBack.InjectThenReadNested` | tools/packager.py:830-952 | injecting at a path through nested directories, new name or replacement, and reading that path returns the data under exactly that condition, and otherwise what the name read as among the other records |
| `Fat32ReadBack.InjectThenRead` | tools/packager.py:830-952 | the same through shared directories, if the step works on and removes no directory the path passes through on its way |
| `Fat32ReadBack.FoundNew` | tools/packager.py:939-942 | a lookup in a listing with a new record finds that record if and only if it answers and no record before it does, and otherwise finds what it found without it |
| `Fat32ReadBack.AnswersIff` | tools/packager.py:939-942 | the record of a stored file answers to its name if and only if the reader's trimming keeps the name or the alias spells it |
| `Fat32ReadBack.CapturedName` | tools/packager.py:848-942 | in a directory listing only longfilename.txt with alias LONGFI~1.TXT the name LONGFI~1.TXT is fresh; once injected it reads as the other file if its record is listed behind that one, and otherwise as its own data; which, is told from the image before |
| `Fat32Witness.CaptureHappens` | tools/packager.py:830-952 | on every new volume: longfilename.txt and then LONGFI~1.TXT are injected, both are accepted as new names, and reading LONGFI~1.TXT gives the bytes of the first |
| `Fat32Engine.ReadRecords` | tools/packager.py:738-802 | the entry loop with its pending-name variables returns the specified records |
| `Fat32Engine.GrowDirectory` | tools/packager.py:722-735 | the growth loop changes image and FAT exactly as specified and returns the entries gathered |
| `Fat32Engine.FindSlots` | tools/packager.py:704-735 | the slot search changes image and FAT exactly as specified and returns the offsets of the run |
| `Fat32Engine.ResolveDirectory` | tools/packager.py:805-822 | the component loop returns the specified directory or error |
| `Fat32Engine.FreeChain` | tools/packager.py:862-864 | the release loop frees the chain in the FAT bytes |
| `Fat32Engine.StoreFile` | tools/packager.py:868-900 | the in-place store has exactly the specified image, also when it fails half way |
| `Fat32Engine.ReplaceFile` | tools/packager.py:861-900 | the in-place replacement has exactly the specified image, also when it fails half way |
| `Fat32Engine.InjectFile` | tools/packager.py:830-900 | the in-place injection has exactly the specified image and error, for every image and path |
| `Fat32Engine.ReadPath` | tools/packager.py:919-952 | the in-place reader returns the specified bytes or error |
| `Fat12Table.SetEntry` | tools/packager.py:1013-1022 | the two nibble stores leave exactly the bytes of the packed write |
| `Fat12Table.FixtureSetEntry` | tools/storage_fixtures.py:76-84 | the fixture generator's masked 16-bit store leaves the same bytes, for every table, index and value |
| `Fat12Table.GetPut` | tools/packager.py:1005-1022 | read over write for every pair of indices, although neighbours share a byte |
| `Fat12Table.TablePut` | tools/packager.py:1005-1022 | a packed write changes one entry of the decoded table |
| `Fat12Table.ReleaseMatchesWalk` | tools/packager.py:1098-1114 | on a chain the destructive release succeeds, frees exactly the clusters a non-destructive walk visits and keeps every other entry |
| `Fat12Table.ReleaseIff` | tools/packager.py:1098-1114 | the release of a non-empty file succeeds if and only if its first cluster starts a chain |
| `Fat12Volume.ReadGeometry` | tools/packager.py:393-418 | an accepted geometry puts FATs, root directory and clusters inside the image |
| `Fat12Volume.FindAfterWrite` | tools/packager.py:1054-1072 | writing an entry into a free slot or over the same name does not change the answer for any other name |
| `Fat12Volume.FindWritten` | tools/packager.py:1054-1063 | the name just written is found at its slot |
| `Fat12Files.FreeTable` | tools/packager.py:1098-1114 | releasing in the packed bytes is the release on the decoded table |
| `Fat12Files.LinkFatTable` | tools/packager.py:1144-1146 | linking in the packed bytes is the link on the decoded table |
| `Fat12Writes.WrittenStored` | tools/packager.py:1147-1158 | the data, FAT and entry writes do not touch one another: each part of the image ends up as written and everything else as it was |
| `Fat12Theorems.ReadChain` | tools/packager.py:1190-1197 | the bounded read loop returns every cluster of a chain in order |
| `Fat12Theorems.StoreSucceeds` | tools/packager.py:1141-1158 | storing succeeds if and only if enough clusters are free, and the size then always fits the entry |
| `Fat12Theorems.Injection` | tools/packager.py:1117-1163 | on a sound volume an injection is accepted if and only if there is a slot, a compatible FAT and room counting what a replacement gives back; it then updates that name only, keeps the volume sound with equal FAT copies, and free clusters add up |
| `Fat12Runs.InjectKeeps` | tools/packager.py:1117-1200 | an accepted injection is a map update as seen by the reader, on a volume that stays sound, and free clusters change by the old chain minus the data clusters |
| `Fat12Runs.RunKeeps` | tools/packager.py:1117-1200 | after any accepted run each alias reads as its last write, every other alias as before, and free clusters have changed by the sum of the steps' balances |
| `Fat12Runs.FormatSound` | tools/packager.py:1025-1032 | formatting a volume with an unused root directory yields a sound, empty volume with every cluster free |
| `Fat12Engine.FindRootEntry` | tools/packager.py:1054-1063 | the search loop returns the specified entry |
| `Fat12Engine.FindRootSlot` | tools/packager.py:1066-1072 | the search loop returns the first free slot |
| `Fat12Engine.ReleaseChainInPlace` | tools/packager.py:1098-1114 | the destructive walk leaves the specified bytes, and terminates on every table, cyclic ones included |
| `Fat12Engine.AllocateClusters` | tools/packager.py:1090-1095 | the free list loop allocates as specified |
| `Fat12Engine.PrepareAll` | tools/packager.py:1075-1087 | loading the copies initialises all-zero ones and refuses incompatible ones, as specified |
| `Fat12Engine.StoreFile` | tools/packager.py:1141-1158 | the in-place writes produce the specified image |
| `Fat12Engine.InjectFile` | tools/packager.py:1117-1163 | the command produces the specified file, and a refusal leaves the file unchanged |
| `Fat12Engine.FormatLegacy` | tools/packager.py:1025-1032 | formatting in place produces the specified image |
| `Fat12Engine.ReadRootFile` | tools/packager.py:1175-1200 | the in-place reader returns the specified bytes or error |
| `Planner.Search.Visit` | tools/packager.py:1951-1966 | the recursive search terminates on every graph; a refusal comes with a walk that loops or ends at a missing package, a success with a finishing order |
| `Planner.Plan` | tools/packager.py:1947-1970 | no refusal if and only if everything reachable exists and is acyclic; a cycle verdict implies a reachable cycle, an incomplete verdict a reachable missing package |
| `Planner.WalkDescends` | tools/packager.py:1951-1966 | along every walk from an ordered package positions in the order strictly fall |
| `Planner.OrderPlans` | tools/packager.py:1951-1966 | an order containing the root proves that the root can be planned |
| `Layouts.FixedTextIff` | tools/packager.py:1870-1878 | a fixed field reads as a text if and only if the text is non-empty and printable and the field is its zero-padded form |
| `CatalogTheorems.EntryIff` | tools/packager.py:1880-1918 | an entry parses if and only if it is the printed form of an acceptable entry whose identifier follows the previous one |
| `CatalogTheorems.EntriesIff` | tools/packager.py:1880-1922 | a block of entries parses if and only if it is the printed form of acceptable entries in ascending order |
| `CatalogTheorems.ParseIff` | tools/packager.py:1827-1923 | a catalog is accepted as a content if and only if the content is valid and recent, the key trusted, the signature verified, and the signed part is the printed form of the content |
| `CatalogTheorems.Canonical` | tools/packager.py:1827-1923 | two accepted catalogs with equal content have byte-identical signed parts |
| `CatalogTheorems.RoundTrip` | tools/packager.py:1772-1923 | a built catalog is accepted if and only if its content is valid, and then parses to that content |
| `Catalog.ParseCatalog` | tools/packager.py:1827-1923 | the entry loop with its previous identifier returns the specified content or reason |
| `PackageTheorems.ManifestRoundTrip` | tools/packager.py:200-238 | every valid manifest is encoded within 512 bytes and parses to itself |
| `PackageTheorems.PackageRoundTrip` | tools/packager.py:261-385 | every valid manifest with every valid ZAPP image is packed and parses to the same manifest and payload |
| `PackageTheorems.ParseSound` | tools/packager.py:312-385 | whatever the parser accepts obeys the host rules and survives packing again |
| `Splitting.SplitJoin` | tools/qemu_test_runner.py:328-328 | splitting a joined list of parts without the separator returns the parts |
| `Splitting.JoinSplit` | tools/qemu_test_runner.py:328-328 | joining a split text returns the text |
| `Frames.ReadHexOfHex` | tools/qemu_test_runner.py:297-323 | the printed checksum reads back as itself under Python's lenient base-16 reading |
| `Frames.BuildIff` | tools/qemu_test_runner.py:286-300 | a frame is built if and only if all tokens are valid, keys are distinct and it fits 512 bytes |
| `Frames.BuildFrame` | tools/qemu_test_runner.py:286-300 | the accumulating loop builds the specified frame or reports the first problem |
| `Frames.LastMark` | tools/qemu_test_runner.py:314-316 | the last checksum mark of a closed frame is the one before the checksum, even when a field is called crc |
| `Frames.FrameRoundTrip` | tools/qemu_test_runner.py:286-339 | every frame built from at least one field parses to exactly those fields |
| `Frames.EmptyFrame` | tools/qemu_test_runner.py:286-339 | with no fields the builder still makes a frame and the parser refuses it |
| `Frames.ParseSound` | tools/qemu_test_runner.py:303-339 | an accepted line is a body of distinct valid fields closed by its own checksum, and nothing else |
| `Frames.ParseFrame` | tools/qemu_test_runner.py:303-339 | the token loop returns the specified fields or error |
| `Receiver.ReadNumbered` | tools/qemu_test_runner.py:1092-1154 | whatever arrives, accepted events stay and are numbered 1, 2, 3, … modulo 2^32 since the reset |
| `Receiver.DrainAppend` | tools/qemu_test_runner.py:1107-1151 | draining a prefix and later the rest is draining the whole |
| `Receiver.CutsDoNotMatter` | tools/qemu_test_runner.py:1092-1154 | when lines fit, every way of cutting a stream into reads ends in the same state |
| `Receiver.CutsMatter` | tools/qemu_test_runner.py:1152-1154 | a stream that does not fit has two ways of being cut into reads after which the states differ |
| `Receiver.CutsMatterIff` | tools/qemu_test_runner.py:1092-1154 | a stream of any length is received alike however it is cut into reads if and only if at most 512 bytes precede each newline and at most 513 follow the last |
| `Session.PostBalanced` | tools/qemu_test_runner.py:1082-1169 | each pump, direct read, restart or reset keeps: events handed out, then those deferred, are exactly those pumped since the last reset, in order, and events are numbered |
| `Session.RunBalanced` | tools/qemu_test_runner.py:1082-1169 | so does every interleaving of them |
| `Session.QemuSession.ResetProtocol` | tools/qemu_test_runner.py:1082-1090 | a reset empties buffer, events and deferred events and waits for the first READY |
| `Session.QemuSession.TakeEvent` | tools/qemu_test_runner.py:1118-1151 | the branches on one event have the specified effect |
| `Session.QemuSession.ReadSerial` | tools/qemu_test_runner.py:1092-1154 | one read has the specified effect on buffer, events, sequence number, flags and errors |
| `Session.QemuSession.PumpOnce` | tools/qemu_test_runner.py:1156-1169 | one pump returns and defers what the ledger says and keeps it balanced |
| `Session.JudgeDecides` | tools/qemu_test_runner.py:1303-1340 | one delivered event is judged decisive exactly when it is fatal or ends the case with the BEGIN it needs |
| `Session.QemuSession.JudgeBatch` | tools/qemu_test_runner.py:1303-1340 | the event loop stops at the first decisive event; interactions defer what they receive |
| `Session.QemuSession.WaitForCase` | tools/qemu_test_runner.py:1291-1352 | a PASS, FAIL or SKIP is returned only after a BEGIN with the same case, iteration and seed was delivered in the call; the result is the first decisive event; a timeout means none was |
| `Coverage.ParseTrace` | tools/coverage_collector.py:83-176 | the line loop and the final loop over cases give the verdict of the scan |
| `CoverageTheorems.AttemptDecodes` | tools/coverage_collector.py:93-132 | the checks of a line, made in code order against the accumulated state, amount to: the line alone is well formed and its case allows it |
| `CoverageTheorems.PassesIffSession` | tools/coverage_collector.py:148-167 | a case passes if and only if its lines are BEGIN, any DATA, END with result 0 and the declared number of distinct addresses |
| `CoverageTheorems.ScanClean` | tools/coverage_collector.py:86-145 | no error is recorded if and only if every coverage line is well formed and every case is so far a session |
| `CoverageTheorems.PassIff` | tools/coverage_collector.py:83-176 | a trace passes if and only if it has a case, all its coverage lines are well formed and each case's lines, under any interleaving, form one complete session |

## Left out

- File reads and writes, argument parsing, JSON and Base64 inputs, and the HTTP fixture server.
- QEMU processes, QMP, sockets, clocks, screenshots and input injection. Their effects on a session are parameters: what a
  read returns, whether the machine has exited, whether the heartbeat has expired, what arrives while input is typed.
- Python's Unicode tables: upper-casing a name is a parameter, names are 16-bit units, and UTF-8 lengths are computed from
  them.
- CRC32, SHA-256 and Ed25519 themselves.
- The four reserved bits of a FAT32 entry: the code masks them on every write and so does the model; nothing is said of them.
- Free-cluster hints in the FAT32 information sector: the injection does not update them in the code either.
- Directory creation: the tools have none, so directories only ever leave a run, by being replaced.
- `a//b` as a path: the code resolves it as directory `a`, and so does the model; no theorem is about it.
- Fat32Theorems.InjectReplace: leaves out what the volume is after an unsafe wipe or after releasing a chain still in use; `WipedFile` gives every other file's bytes even then, for an unsafe wipe.
- Fat32Gaps.ReplaceDirectory: leaves out a directory that a second record leads to, whose chain would be freed while it is in use; the tools create no such record.
- Fat32Theorems.ReplaceSucceeds: leaves out a record that leads to its own directory, such as `.`, because the chain to extend would be the one just freed.
- Fat32Theorems.RefusedMet: leaves out what is listed after an unsafe wipe or for a directory that a second record leads to, as `InjectReplace` does.
- Fat32ReadBack.InjectThenRead: asks that the step works on and removes no directory the path passes through before, because a new alias there could capture a component; `InjectThenReadNested` needs no such condition.
- Session: the progress tracker, the heartbeat timestamp and the host's own sequence numbers, which no modelled branch reads.
- Coverage.ParseTrace: takes lines already split and stripped, and gives the verdict, not the sorted report.
- Package.Parse: version 2 signed packages are refused with `SignedVersion`; their layout adds fields of the kind proved for ZAC1.
- Catalog.Build: takes entries with their overrides applied and in package order; reading the packages they come from is left out.
- The perf, rls, net1, tst and core_host_runner tools and the fixture tables: threshold checks and constants that would add only easy members.
- `src/core/bearssl_compat.c` and `src/boot/recovery_runtime.c`: short byte loops, easy next to the engines above.
