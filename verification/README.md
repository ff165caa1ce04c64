# Volmap verification model

This project models how Volmap, an inspector for CUBRID database volumes, turns the pages of a
volume set into facts about it, and proves what its algorithms promise: the fast parallel scan and
its spilled fact store, the file tables and the two ownership indexes built from them, the budgeted
walks of overflow and OOS chains, the byte geometry of slotted pages, the generations of a live
session, the follow loop, the collection cursors, and the revisions of one session.

Check it with `dafny verify dfyconfig.toml` (Dafny 4.11).

## How it is laid out

| files | what they model |
|---|---|
| `Bits`, `Bytes`, `Pages` | machine words as naturals, little-endian integers and byte views, admitted page reads |
| `Walks`, `OverflowChain`, `OverflowExits`, `OverflowFormat`, `OosChain`, `OosExits` | walks of untrusted linked pages under budgets, and exactly what each returns or stops for |
| `FileTable`, `TableRows`, `TableExits`, `Claims`, `Allocation`, `CollectedFacts` | file tables, their rows and failures, sector bitmaps, and the allocations collected from them |
| `Ownership`, `IndexContents` | the page and sector indexes and what they hold |
| `PackedFact`, `FactRecords`, `FactStore`, `Eligible` | 16-byte facts, the in-memory or spilled store, the pages to scan |
| `ScanModel`, `ScanFindings`, `ScanBudget`, `ReadAhead`, `ReadAheadBudget`, `Wave`, `Scan` | the sequential reference scan, where it stops, how far the waves read ahead, and the wave scan |
| `Sorting`, `SlottedFormat`, `PageDistribution`, `PageMeaning` | the slotted-page decoder, the tiling of a page, and both number by number |
| `LiveSource`, `Follow`, `FollowHistory`, `FollowDecides` | generations, revisions, eviction, the poll-and-debounce loop, and when it re-reads |
| `Cursor`, `Pagination`, `ServedPages` | collection cursors, requests and multi-request loads |
| `Session`, `SessionRecords`, `SessionOutcome`, `SessionHistory`, `ChainReports` | the revisions of an inspection session, what each enrichment publishes, what moves the outcome, what the recorded walks say about a run, and what a walk is reported as |
| `SessionIndex`, `Republication` | the two ownership indexes over the revisions, and a file read twice from a changing source |
| `Decimal`, `Selector` | canonical numbers and entity selectors |

Where the original updates variables, fields or buffers step by step the model is a method or a
class with loops, proved against a function or predicate of the inputs; the theorems are then
lemmas about that function. The chain walks are specified as the end of the unique maximal run of a
step judgement (`Walks`), and an independent path predicate without any loop or budget says what a
complete chain is. The modules named `…Exits`, `…Rows`, `…Facts`, `…Budget`, `…Contents`,
`…Records`, `…Meaning`, `…Decides` and `ServedPages` say what the operations give in terms of their
inputs alone: the bytes and rows on disk, the limits as numbers, the turns of a run.
`ScanModel.SequentialScan` looks at one page at a time and is the reference for the wave scan. The `publish_*` functions of a
session take a shared snapshot and return a new one, so they are functions here.

Decoders other than those of slotted and overflow pages are arbitrary functions from a page to a
fact or an error. A source file is a function from page numbers to what reading them would yield,
which does not change during one walk or scan. Time is a nondecreasing natural number. The keyed
digest of a cursor is an arbitrary function.

## Results worth knowing

- `publish_revision` is documented to return false once a re-read has overtaken the generation.
  The code keeps the revision as long as the generation is retained
  (`LiveSource.OvertakenGenerationStillExtends`); the documentation holds of a run exactly if
  nothing was re-read or a single generation is retained (`LiveSource.OvertakenRefuseIff`).
- Publishing a file again after its table shrank on disk breaks the agreement of the two ownership
  indexes, because its earlier pages stay assigned. It takes a live session whose deep read meets
  the header page torn in between: without a refused header page no file is published twice and
  the indexes always agree (`SessionIndex.IndexesAgreeUnlessRefused`). The exact conditions are
  `Ownership.PublishAgreesIff` for one publication, `SessionIndex.RepublicationAgreesIff` for the
  run, and `Republication.RereadAgreesIff` for headers and tables that pass every check;
  `Republication.RereadCanDisagree` is an instance.
- A load of a volume's sectors enumerates them only if all page numbers of the volume are i32s,
  that is up to 2^25 sectors (`Pagination.SectorLoadsEnumerateIff`). A larger volume opens if its
  upper sectors are unreserved, and its load is then refused as unavailable on the way
  (`Pagination.LargeVolumeNotLoaded`).
- The watch channel keeps its old number when nobody waits at a publish, so the long poll does what
  it documents exactly if nothing was published or a receiver was alive at the last publish
  (`LiveSource.AnnouncesNewestIff`, `LiveSource.WaitsForNewestIff`); otherwise it keeps a client at
  an overtaken generation waiting and does not wait for one at the current generation.
- The session outcome can fall. It does exactly if an incomplete session gets a new revision that
  cuts no coverage record and replaces every record that was cut short
  (`SessionOutcome.OutcomeDropsIff`); walking one chain into its limit and another one with success
  does that (`SessionOutcome.OutcomeCanDrop`).
- Within a session a walk that stopped at a limit is never repeated: the first walk from a head decides what is on
  record for good (`SessionHistory.FirstWalkDecides`).
- Opening fails on page numbers beyond i32 even where the scan would have stopped before them,
  because a wave is filled before it is scanned; `ReadAhead.VolumeOverrunsIff` says when.
- A packed fact is read back only when its occupancy fits four bits and its diagnostic code has a
  number of its own (`PackedFact.PackRoundTripsIffCanonical`); the scan only produces such facts.
- A contiguous-free region exists exactly under the condition of
  `PageDistribution.ContiguousRegionExact`: a zero-length record inside the last gap suppresses it.

## Model

| member | source | states |
|---|---|---|
| `Scan.OpenScan` | src/inspection.rs:1966-2220 | for all volumes and limits: opening fails exactly when a sector's first page is no u32 or the scan reads ahead to a page that is no i32, and otherwise ends in the state of the sequential scan |
| `Scan.ScanRun.ScanAll` | src/inspection.rs:2019-2220 | unless it reads ahead to a page beyond i32, the wave-parallel scan ends with exactly the stored facts, diagnostics, counts, budgets and stop reason of the sequential scan, for every worker count, memory limit and spill limit; spilled stores occupy consecutive ranges of the one file |
| `Scan.ScanRun.ScanWaves` | src/inspection.rs:2039-2078 | all waves of one volume together equal scanning its eligible pages one by one, or fail exactly where the read-ahead reaches a page beyond i32 |
| `Scan.ScanRun.NextWave` | src/inspection.rs:2040-2078 | one round fails, stops, or goes on behind the pages of one wave, so that what the scan of the remaining pages comes to does not change |
| `Scan.ScanRun.AdmitWave` | src/inspection.rs:2041-2066 | a wave is never admitted more pages than the spill budget has slots left; the page is refused exactly when the base or the spill budget is exhausted |
| `Scan.ScanRun.FillWave` | src/inspection.rs:2067-2074 | filling a wave yields the admitted number of next pages or all that are left, and fails exactly when the admitted wave reaches beyond the last page number that fits |
| `ReadAhead.VolumeOverrunsIff` | src/inspection.rs:2040-2074 | the read-ahead of a volume fails exactly if some eligible page is beyond i32 and either the sequential scan gets through all pages before it or the wave with the last of them, starting on a multiple of the wave capacity, is scanned with room for more |
| `ReadAhead.UnstoppedScanIsComplete` | src/inspection.rs:1966-1976 | a scan that neither fails nor stops has visited every eligible page, and both counts equal the trusted total |
| `ReadAheadBudget.ScanReadsBeyondIff` | src/inspection.rs:2040-2074 | over the config alone: the scan asks for a page beyond i32 exactly if some volume has an eligible one and either all pages before it pass the limits and are readable, or those before its last wave are and that wave, of sixteen pages a worker within the spill limit, has room for more than the rest |
| `Scan.ScanRun.ScanWave` | src/inspection.rs:2104-2218 | interpreting a wave's results in order, stopping at the first that stops the scan, equals the sequential scan of its pages |
| `Scan.ScanRun.Append` | src/inspection.rs:2200-2211 | pushing a fact for one volume changes no other volume's store, though all share one file |
| `Scan.ScanRun.PageFactOf` | src/inspection.rs:1148-1152 | after the scan, a lookup in either kind of store yields the fact the sequential scan stored for the page |
| `ReadAhead.WaveSpill` | src/inspection.rs:2192-2211 | within an admitted wave each stored page takes one slot, so the spill budget refuses none of its pages |
| `Scan.StoredFactIsScanned` | src/inspection.rs:1148-1152 | a stored fact is what scanning that page alone yields; an unstopped scan has one for exactly the eligible pages |
| `Scan.LimitsDoNotChangeFacts` | src/inspection.rs:1982-2018 | two unstopped scans of the same volumes hold the same facts whatever their limits |
| `Wave.RunWave` | src/inspection.rs:2079-2103 | workers advancing in any interleaving yield the pages' results in page order |
| `Wave.FlattenBatches` | src/inspection.rs:2079-2104 | cutting pages into batches and flattening the batches' results keeps the order |
| `ScanModel.ScanIsAccounted` | src/inspection.rs:1982-2218 | spill bytes stay within the spill limit; nothing is stored or resident bytes stay within the memory limit; conclusive and inspected count the stored facts; evaluated is one ahead exactly on an unreadable stop |
| `ScanModel.VolumesStorePrefixes` | src/inspection.rs:2036-2218 | each volume holds the facts of an initial run of its eligible pages, all of them if nothing stopped the scan |
| `ScanModel.StopIsFinal` | src/inspection.rs:2104-2164 | once a page stops the scan no later page changes anything |
| `ScanFindings.UnstoppedScanReportsAll` | src/inspection.rs:2113-2192 | a scan nothing stopped reports exactly the findings of all its pages in volume and page order, and resident bytes account for each |
| `ScanFindings.StopIsExplained` | src/inspection.rs:2050-2064 | a stopped scan ends in the diagnostic that explains it; the spill rule is given only when no further record fits, the resident rule only when the base does not |
| `ScanBudget.ScanCompletesIff` | src/inspection.rs:1982-2218 | a scan is not stopped if and only if it visits no page, or every page is readable, the base (masks, volume records, earlier diagnostics, 512) and the facts kept in memory and 208 bytes and the subject of every finding fit the memory limit, and 16 bytes a page the spill limit if facts are spilled; it has then reported exactly the findings of its pages |
| `ScanBudget.ScanStopsAt` | src/inspection.rs:2041-2192 | otherwise it stops at the first page at which one of these fails, with the findings, counts, resident bytes and last diagnostic written out: base, spill, an unreadable volume, or the first finding that does not fit |
| `ScanBudget.DiagnosticsStopIsEarned` | src/inspection.rs:1099-1114 | a scan stopped for its diagnostics has come to a page with a finding whose 208 bytes and subject exceed the memory limit on top of what is resident |
| `Eligible.EligiblePagesExact` | src/inspection.rs:919-945 | the eligible pages are strictly ascending and exactly those whose sector is in range and reserved or started by the system area |
| `Eligible.EligibleByBit` | src/inspection.rs:1142-1146 | a page is eligible if and only if its sector is in range and has its bit set in the mask word of its number, or starts at or before the last system page |
| `Eligible.EligiblePageCursor.Next` | src/inspection.rs:920-945 | each call yields the next remaining eligible page, or the end, or an arithmetic failure exactly for a page number beyond i32 |
| `Eligible.FitsIff` | src/inspection.rs:919-945 | no eligible page is beyond i32 if and only if sector starts are u32s and no sector from 2^25 on is eligible |
| `Eligible.Drain` | src/inspection.rs:919-945 | run to exhaustion the cursor yields exactly the eligible pages |
| `Eligible.EligiblePageCount` | src/inspection.rs:6517-6532 | the count equals the number of pages the cursor yields; it fails exactly when a sector's first page is no u32 |
| `PackedFact.PackRoundTripsIffCanonical` | src/inspection.rs:621-725 | unpacking a packed fact gives the fact back if and only if its occupancy fits and its code is a numbered one |
| `PackedFact.MasksRecoverFields` | src/inspection.rs:640-700 | the three masks recover the three fields of the metadata byte |
| `PackedFact.OccupancyUnits` | src/inspection.rs:1069-1079 | the least of fifteen levels that covers the used bytes, at least one; none exactly for an impossible free count |
| `PackedFact.ScanEnvelope` | src/inspection.rs:971-1066 | scanning yields a canonical fact about the scanned page, and is unreadable exactly on a failed read |
| `FactRecords.ScannedFactMeans` | src/inspection.rs:971-1066 | each field of the fact of a decoded and of a rejected page, by an if-and-only-if on what was read and whether there is a key |
| `FactRecords.RecordLayout` | src/inspection.rs:621-660 | the record of a canonical fact holds page and LSA in little-endian order and a last byte of LSA flag, occupancy and code number |
| `FactStore.PageFactStore.Push` | src/inspection.rs:836-855 | appends one record to the store's contents in either representation, failing exactly on position overflow |
| `FactStore.PageFactStore.LookUp` | src/inspection.rs:879-905 | on ascending facts binary search is the linear lookup, in memory and spilled alike |
| `FactStore.WriteKeepsOthers` | src/inspection.rs:836-855 | a positional write changes no record of a range that ends before it or starts behind it |
| `FactStore.WriteBeyond` | src/inspection.rs:836-855 | a write at the end of a range extends it by exactly that record |
| `FactStore.PackedFactsReadBack` | src/inspection.rs:857-877 | a store of packed canonical facts reads back as those facts |
| `OverflowChain.WalkOverflowChain` | src/inspection.rs:3190-3482 | the walk ends with the unique maximal run its checks admit, rendered with its total, pages and payload; it terminates on any graph of links |
| `OverflowChain.WalkSucceedsIffComplete` | src/inspection.rs:3190-3482 | the walk reports no failure if and only if a finite duplicate-free path of owned, available, decodable overflow pages delivering the total exists and the policy affords it; the result is that path and its payload |
| `OverflowChain.WalkExitIsSound` | src/inspection.rs:3207-3265 | on every exit the pages are a linked distinct prefix within the step, decoded-byte and memory budgets and the payload accounts agree |
| `OverflowChain.StructuralFailureIsFinal` | src/inspection.rs:3316-3480 | a failure that is no resource limit means no complete path exists from this head under any budget |
| `OverflowChain.CompletePathIsLongest` | src/inspection.rs:3316-3480 | every linked run from the head is a prefix of the complete path, so there is at most one |
| `OverflowExits.WalkReturnsIff` | src/inspection.rs:3190-3482 | over the pages on disk: the walk returns a total, pages and payload without failure if and only if these pages are a distinct linked run from the head of owned available overflow pages up to one without a link, their lengths add up to the announced total, the written-out budgets cover them, and the payload is their fragments in order |
| `OverflowExits.WalkStopsIff` | src/inspection.rs:3207-3480 | the walk stops behind given pages with a given failure if and only if they are such a run within the budgets and the failure has its reason there: cancelled; steps, memory beside the buffer, decoded bytes or the buffer refused; the next page among them (acyclic); its owner; its role; its encryption; its envelope, decoder, lengths or payload range |
| `OverflowExits.PublishedIsRun` | src/inspection.rs:3207-3265 | every exit publishes such a run with its summed lengths and its fragments in order |
| `OverflowExits.WalkFaultsIff` | src/inspection.rs:3272-3278 | a source error propagates if and only if the run comes to a page in turn that fits and cannot be read |
| `OverflowExits.HeadTotalPublished` | src/inspection.rs:3360-3375 | a walk that stops at its head publishes a total if and only if the head was read and announces it |
| `OverflowFormat.LastPageDelivers` | src/format/overflow.rs:39-112 | with the pinned layout a page has no successor exactly when the total is delivered |
| `OverflowFormat.ChainLengthIsDetermined` | src/format/overflow.rs:39-112 | the announced total alone fixes the number of pages of a complete chain |
| `Pages.ReadAdmitted` | src/inspection.rs:1557-1599 | an admitted page never occupies more than the limit; the limit refuses exactly when the page or its plaintext copy does not fit |
| `OosChain.WalkOosChain` | src/inspection.rs:5483-5718 | the OOS walk ends with the unique maximal run its checks admit |
| `OosChain.WalkSucceedsIffComplete` | src/inspection.rs:5483-5718 | a chain is published without failure if and only if a complete path of chunks exists that the policy affords; the chunks are that path |
| `OosChain.PublishedExitIsSound` | src/inspection.rs:5640-5764 | on every published exit the indices count from zero under one total, OIDs are distinct and linked, the payload sum is at most the total, and completeness holds exactly on a terminal link with the full sum |
| `OosChain.StructuralFailureIsFinal` | src/inspection.rs:5483-5718 | a structural failure means no complete chain exists under any budget |
| `OosExits.WalkPublishesIff` | src/inspection.rs:5483-5718 | over the chunks on disk: a chain is published without failure if and only if its chunks are a distinct linked run from the head, numbered from zero under one total, up to one without a link, adding up to the total, within the written-out budgets |
| `OosExits.WalkStopsIff` | src/inspection.rs:5483-5718 | a walk publishes given chunks with a given rule if and only if they are such a run within the budgets and the rule has its reason there, each written out: cancelled, steps, room for a page, memory, plaintext, revisited chunk, page, role, encryption, envelope, decoder, sequence, accumulated length, incomplete total |
| `OosExits.PublishedIsRun` | src/inspection.rs:5640-5764 | every published chain is such a run with its summed lengths under its first chunk's total |
| `OosExits.WalkFaultsIff` | src/inspection.rs:5483-5718 | an error propagates if and only if the run comes to an index past u32 or to a page in turn that fits and cannot be read |
| `OosExits.HeadTotalPublished` | src/inspection.rs:5640-5764 | a walk that stops at its head publishes a total if and only if the head chunk is too long for it |
| `FileTable.FileTraversal.WalkFileTable` | src/inspection.rs:4115-4203 | one table walk ends with the unique maximal run its checks admit and absorbs exactly that run |
| `FileTable.WalkSucceedsIffComplete` | src/inspection.rs:4115-4203 | a table walk succeeds if and only if a complete affordable run of distinct table pages exists |
| `FileTable.TablePagesCountSteps` | src/inspection.rs:4115-4203 | every page a successful walk stepped on, its start apart, is a new table page |
| `TableRows.WalkCollectsRows` | src/inspection.rs:4115-4203 | a successful walk leaves, for its own kind of table, the rows found before followed by the items of the chain's pages in order, and the other three lists unchanged |
| `TableExits.WalkFailsIff` | src/inspection.rs:4115-4203 | a table walk fails with a given error if and only if the run of pages it reads comes to the reason for it, each written out: cancelled, counters, steps or bytes, cycle, page shared with an earlier table, memory, read, encryption, envelope, page type, decoder |
| `Allocation.CollectFileAllocations` | src/inspection.rs:3958-4112 | the result is the header check, the three walks in turn, and the reconciliation |
| `Allocation.WalkedTablesCountSteps` | src/inspection.rs:3986-4036 | after the walks of one file the table pages are the steps less the number of walks plus one, within the step budget |
| `Allocation.CollectionIsConservative` | src/inspection.rs:4037-4095 | on success the page set is the disjoint union of the claims' pages, of cardinality popcounts plus 64 a full sector, equal to total less free pages, all in range, and contains every table and user page |
| `Allocation.CollectionSucceedsIff` | src/inspection.rs:3958-4112 | collection succeeds if and only if the walks complete and the counts, sectors, ranges, pages and memory reconcile |
| `Allocation.ExpandClaims` | src/inspection.rs:4037-4082 | expands bitmaps to pages, naming the first repeated sector or page out of range |
| `CollectedFacts.CollectionGivesIff` | src/inspection.rs:3958-4112 | over the pages on disk: the collection gives certain facts if and only if the tables are there as the flags say, the three chains can be read and afforded, and all their rows in order account for the file: counts, one claim a row, distinct sectors in range, exactly the covered pages, totals, memory |
| `CollectedFacts.RefusalIsExact` | src/inspection.rs:4037-4105 | with readable tables each refusal is given if and only if its reason holds: counts, the first row that repeats a sector, the first that leaves its volume, page totals, memory |
| `CollectedFacts.PresenceRefused` | src/inspection.rs:3964-3981 | tables that do not go with the flags are refused before any is read, by the first rule violated |
| `TableExits.FirstFailureReported` | src/inspection.rs:3986-4036 | a file is refused with the error of the first of its tables that cannot be read |
| `Claims.ClaimSize` | src/inspection.rs:516-530 | a claim's pages number its popcount, or 64 |
| `Claims.AllPagesSize` | src/inspection.rs:4037-4082 | claims on distinct sectors allocate disjoint pages, so the counts add up |
| `Ownership.BuildInventory` | src/inspection.rs:3863-3901 | builds both indexes exactly when no page belongs to two files |
| `Ownership.InventoryAgrees` | src/inspection.rs:3863-3901 | after an inventory a page is mapped to a file if and only if the file claims its sector with that bit |
| `IndexContents.InventoryHolds` | src/inspection.rs:3863-3901 | after an inventory each page of a file is owned by it and no other page has an owner; each sector lists exactly the claims that the files have on it, file by file and row by row |
| `SessionRecords.InventoryReportsConflicts` | src/inspection.rs:3892-3901 | an inventory reports one error for exactly each sector that two files claim |
| `Ownership.PublishFile` | src/inspection.rs:5976-6019 | the new indexes, or none exactly when another file owns one of the pages |
| `IndexContents.PublicationHolds` | src/inspection.rs:5994-6019 | after a publication the file owns its pages and no other page changes hands; each sector lists the claims of other files as before and then exactly the file's own rows |
| `Ownership.PublishAgreesIff` | src/inspection.rs:5976-6019 | the indexes agree after publishing a file if and only if the file's earlier pages are among its new ones; other files keep theirs |
| `Ownership.ShrunkenRepublicationDisagrees` | src/inspection.rs:6003-6019 | an instance where it does not hold: a file that gave up pages of the sector its header page is in |
| `Republication.BitmapCollects` | src/inspection.rs:3958-4112 | a file whose one table bitmap covers its header page, with a header and a volume that their decoders accept, passes every check of the collection, whatever else the bitmap holds |
| `Republication.RereadAgreesIff` | src/inspection.rs:3667-3757 | a file collected and published, its header page refused, and the file collected and published again from new tables: the indexes agree if and only if every bit of the first bitmap is in the second |
| `Republication.RereadCanDisagree` | src/inspection.rs:6003-6019 | an instance where they do not agree, both readings passing every check |
| `Ownership.SectorClaimsFit` | src/inspection.rs:2762-2778 | all claims on one sector are bitwise disjoint and sum to at most 64 pages |
| `Ownership.AssociationFollowsClaims` | src/inspection.rs:2746-2778 | what a page is reported as follows from its sector's claims |
| `SlottedFormat.DecodeSlotted` | src/format/slotted.rs:233-440 | decoding accepts exactly the pages whose header, slots, count and pairwise non-overlap hold, and returns the slots in directory order |
| `SlottedFormat.NoOverlapIffApart` | src/format/slotted.rs:416-422 | comparing neighbours after sorting finds an overlap if and only if two ranges overlap |
| `SlottedFormat.SlotWordRoundTrip` | src/format/slotted.rs:353-376 | the three bit fields of a slot word are recovered exactly |
| `PageMeaning.AcceptedIff` | src/format/slotted.rs:233-440 | the decoder accepts a page if and only if the numbers at its fixed places are in order: header fields, each slot's offset, length and type, disjoint records, and the record count |
| `PageDistribution.SweepFree` | src/projection.rs:397-424 | the in-place sweep computes the specified free regions |
| `PageDistribution.FreeRegionsExact` | src/projection.rs:397-424 | the free regions are ascending, nonempty, disjoint and exactly the uncovered bytes between header and directory, for any overlaps |
| `PageDistribution.ContiguousRegionExact` | src/projection.rs:464-493 | a region is contiguous-free if and only if it is [free area offset, directory); there is at most one, and one exists exactly when the records before the directory end by that offset |
| `PageDistribution.BytesAddUpIffDisjoint` | src/projection.rs:426-427 | header, record, free and directory bytes add up to the page if and only if no two live records share a byte and none reaches into the header |
| `PageDistribution.DecodedPageIsTiled` | src/projection.rs:369-462 | every page the decoder accepts is tiled: each byte lies in exactly one of header, record, free region and slot entry |
| `PageDistribution.DistributionOf` | src/projection.rs:369-462 | a page has a distribution exactly if the decoder accepts it; its records are the live ones in order, and every byte lies in exactly one part |
| `PageMeaning.DistributionShows` | src/projection.rs:369-462 | for an accepted page: a record of slot i is shown if and only if slot i has a nonzero offset and a type other than the two deleted ones, with the slot's offset, length and type, ordered by offset and slot; each slot's entry has its place and is deleted, allocated or unallocated by the slot's type and offset |
| `PageDistribution.RecordOrderIsUnique` | src/projection.rs:395-395 | the unstable sort of the records has only one possible result |
| `LiveSource.LiveSource.Publish` | src/follow.rs:234-272 | publishes the next generation, evicts the oldest until the retention holds, and changes the announced number only if a receiver is alive |
| `LiveSource.PublishedIsRead` | src/follow.rs:234-262 | a published view is at once the current reading, as what the scan found it to be, with its fingerprint and times |
| `LiveSource.LiveSource.PublishRevision` | src/follow.rs:279-295 | keeps a revision exactly when its generation is retained and it is newer than the latest |
| `LiveSource.RetentionWindow` | src/follow.rs:234-272 | after k publishes generation g is readable if and only if g <= k and k - g < max(retain, 1); the newest is current |
| `LiveSource.AnnouncesLastHeard` | src/follow.rs:268-271 | over every run the watch channel holds the number of the last generation published while a receiver was alive, or 0 |
| `LiveSource.AnnouncesNewestIff` | src/follow.rs:268-271 | the channel holds the current generation if and only if nothing was published or a receiver was alive at the last publish |
| `LiveSource.LiveSource.Watch` | src/web.rs:717-726 | a long poll takes a receiver and waits exactly if the session follows and the channel holds the client's generation |
| `LiveSource.WaitsForNewestIff` | src/web.rs:704-726 | the long poll waits exactly for clients at the current generation, as documented, if and only if the channel holds it; a stale number keeps clients at an overtaken generation waiting |
| `LiveSource.UnheardPublishIsStale` | src/follow.rs:158-158 | after a first publish nobody waited for, a client at generation 0 is kept waiting although generation 1 is current |
| `LiveSource.GenerationsOnlyGrow` | src/follow.rs:234-295 | an evicted generation never returns and stored views never change |
| `LiveSource.LatestIsMaximum` | src/follow.rs:279-295 | each generation's latest revision is the maximum of its stored views |
| `LiveSource.KeptRevisionIsLatest` | src/follow.rs:279-295 | a kept revision strictly increases the latest one, is what the generation reads as, and changes no other generation |
| `LiveSource.StandingIsHonest` | src/follow.rs:219-230 | a reading counts as valid if and only if it was scanned valid, is the newest generation and no change is pending; torn and invalidated stay |
| `LiveSource.RevisionsTakenIff` | src/follow.rs:279-295 | after k publishes a generation takes a revision if and only if it is among the retained ones and the revision is newer than its latest |
| `LiveSource.OvertakenRefuseIff` | src/follow.rs:274-295 | overtaken generations refuse all revisions, as documented, if and only if nothing was re-read or only one generation is retained |
| `LiveSource.OvertakenGenerationStillExtends` | src/follow.rs:274-295 | a retained generation behind the current one still accepts revisions |
| `Follow.Follower.TakeTurn` | src/follow.rs:329-425 | one turn of the loop has exactly the specified effect on session, pending change and scan times |
| `Follow.RereadsAreSpaced` | src/follow.rs:64-80 | consecutive re-reads are separated by at least the minimum idle time and the duration of the earlier one |
| `Follow.DutyCycle` | src/follow.rs:64-80 | over every run, scan time before the last re-read is at most the idle time between re-reads |
| `Follow.PendingIsHonest` | src/follow.rs:348-380 | a change is pending if and only if the session is marked so, and its manifest differs from the one on display |
| `FollowHistory.RereadIsEarned` | src/follow.rs:64-80 | every re-read reacts to a manifest that held still over at least the quiet period, or follows at least the staleness ceiling of turns that all saw a manifest other than the one on display |
| `FollowDecides.RereadIffEarned` | src/follow.rs:64-80 | over every run a turn re-reads if and only if no task was lost, it sees a manifest other than the one on display, the minimum idle time and the last duration have passed since the last re-read, and either every readable turn of at least the quiet period has seen that manifest or none of at least the staleness ceiling has seen the one on display |
| `FollowDecides.SettledInputIsReread` | src/follow.rs:372-388 | a manifest that held still over the quiet period is re-read once the idle gap is over |
| `FollowDecides.RereadIsShown` | src/follow.rs:390-425 | a re-read that finds a view puts it on display as the next generation, with the turn's time and the measured duration, and no change is pending then |
| `Follow.StaleInputIsReread` | src/follow.rs:372-388 | a manifest that keeps differing is re-read at the first turn past both the staleness ceiling and the idle gap |
| `Follow.UnchangedInputIsNotReread` | src/follow.rs:348-354 | an input equal to the display is never re-read and raises no pending change |
| `Cursor.EncodeCursor` | src/web.rs:1074-1080 | fills the 16 payload bytes and encodes payload and tag as hex |
| `Cursor.HexEncode` | src/web.rs:1128-1135 | the output is two lower-case digits a byte |
| `Cursor.HexDecodesEncoded` | src/web.rs:1128-1149 | a string decodes to given bytes if and only if, up to letter case, it encodes them |
| `Cursor.DecodesIssued` | src/web.rs:1074-1104 | a cursor decodes to a generation and offset if and only if, up to letter case, it is the cursor issued for them |
| `Cursor.CursorBytes` | src/web.rs:1074-1080 | a cursor is the hex form of generation and offset, eight little-endian bytes each, and their digest |
| `Cursor.CursorRoundTrip` | src/web.rs:1074-1104 | decoding an issued cursor gives back its generation and offset |
| `Cursor.CursorKindMatters` | src/web.rs:1088-1126 | a cursor of one collection is accepted for another exactly when their digests agree |
| `Pagination.Serve` | src/web.rs:754-837 | the handlers' answer, with every refusal, is the specified one |
| `ServedPages.ServedIs` | src/web.rs:754-844 | the answer item by item: from the current reading or the one the cursor names, with the limits 100 to 512 and 24 to 64, the ids from the offset on, the next cursor exactly if items are left, and each refusal by its condition |
| `ServedPages.FindIsFirst` | src/web.rs:792-796 | a sector request is answered from the first volume listed with its id, and not found exactly without one |
| `ServedPages.KindsDiffer` | src/web.rs:783-783 | different collections and the sectors of different volumes have different cursor kinds |
| `Pagination.IssuedCursorServed` | src/web.rs:983-1004 | an issued cursor is answered from its own generation, with a page or with the refusal of a window beyond the readable sectors, or refused as evicted exactly when that generation is no longer retained |
| `Pagination.LoadEnumeratesOnce` | src/web.rs:775-844 | following cursors visits every index once and in order on the starting generation within one request an item, or is refused as evicted or, within one page of the last readable sector, as unavailable, whatever is published in between |
| `Pagination.AlwaysEnumeratesIff` | src/web.rs:775-844 | all loads of a collection, with any legal limits and interleavings, return it whole or are evicted if and only if all its items can be served |
| `Pagination.SectorLoadsEnumerateIff` | src/inspection.rs:2658-2686 | for the sectors of a volume that is if and only if the number of each of its pages is an i32; otherwise an undisturbed load gets at most the first 2^25 sectors and is refused as unavailable |
| `Pagination.VolumeLoadsEnumerate` | src/web.rs:754-773 | all loads of the volumes return them whole or are evicted |
| `Pagination.LargeVolumeNotLoaded` | src/web.rs:812-824 | an instance: a volume that passes the page count, has no eligible page beyond i32, and whose sectors cannot all be loaded |
| `Pagination.PageAdvances` | src/web.rs:1024-1057 | a legal page is refused exactly if it reaches beyond the readable sectors; otherwise it advances, and the last one is exactly the one without a cursor |
| `Session.EveryRevisionConsistent` | src/inspection.rs:6326-6487 | after any enrichments each counted facet has at most one coverage record, equal to a recount of the stored maps, and the outcome is the classification |
| `SessionRecords.OosWalkPublishes` | src/inspection.rs:5742-5793 | the whole next revision of an OOS walk written out: its chain, its finding by rule, its coverage record with the counts of good and all chains, and what the outcome says; a walk on record changes nothing |
| `SessionRecords.OverflowWalkPublishes` | src/inspection.rs:5795-5848 | the same for an overflow walk |
| `SessionRecords.RelocationPublishes` | src/inspection.rs:5850-5897 | the same for a relocation edge |
| `SessionRecords.PagePublishes` | src/inspection.rs:5899-5974 | the same for a decoded page and for a refused one, with the deep coverage of 64 pages a sector |
| `SessionRecords.FilePublishes` | src/inspection.rs:5976-6040 | the same for a published file, with its file-inventory record, and its refusal exactly if another file owns one of its pages |
| `SessionRecords.InventoryPublishes` | src/inspection.rs:3859-3955 | the same for an inventory, taken once and only of files that share no page |
| `SessionRecords.ClassPublishes` | src/inspection.rs:5165-5235 | the same for a resolved class, known exactly if it is resolved and its sector's class is on record |
| `SessionRecords.RecordsPublishes` | src/inspection.rs:5165-5235 | the same for interpreted records, known exactly if there are some and all are interpreted |
| `SessionRecords.FailurePublishes` | src/inspection.rs:5165-5235 | the same for a failed pass, as a warning |
| `SessionRecords.ChangePublishes` | src/inspection.rs:6064-6085 | a changed source invalidates the session once, with a fatal finding |
| `ChainReports.OverflowReported` | src/inspection.rs:5795-5848 | from the pages to the finding: a published overflow walk reports a budget if and only if the cancel token or a limit stopped it, a broken chain for every other reason, and is complete without one |
| `ChainReports.OosReported` | src/inspection.rs:5742-5793 | the same for a published OOS walk |
| `SessionIndex.EveryRevisionIndexed` | src/inspection.rs:5976-6040 | over an unchanging source the two ownership indexes agree in every revision, after any sequence of enrichments, and give no file a page its tables do not |
| `SessionIndex.IndexesAgreeUnlessRefused` | src/inspection.rs:3679-3757 | over a changing source the indexes still agree in every revision of a run that refuses no page on record as a file header |
| `SessionIndex.RepublicationAgreesIff` | src/inspection.rs:5976-6040 | after publishing a file, refusing its header page and publishing it again, the indexes agree if and only if its first pages are among its second ones |
| `Session.OpenedConsistent` | src/inspection.rs:2236-2505 | sessions open in such a state: after the scan, without an inventory, and with the result of one under revision 0 |
| `SessionRecords.OpenedShows` | src/inspection.rs:2236-2505 | a session opens as revision 0 with the scan's counts and stop reason in its coverage and the outcome they give |
| `Session.OutcomeFloor` | src/diagnostics.rs:578-590 | once an error is recorded the outcome stays at least Findings, once invalidated it stays Fatal |
| `SessionOutcome.OutcomeDropsIff` | src/inspection.rs:6470-6487 | an enrichment lowers the outcome if and only if it publishes a revision of an incomplete session, cuts no record short itself, and replaces every record that was cut short |
| `SessionOutcome.WalkDropsIff` | src/inspection.rs:5742-5897 | for the three walks: the head is new, the walk is not stopped by a limit, and every record cut short is about walks of its kind |
| `SessionOutcome.OutcomeCanDrop` | src/inspection.rs:5477-5793 | in every session with no record cut short, a walk of a new head stopped at its limit and then a successful walk of another new head take the outcome to Incomplete and down to Findings |
| `SessionOutcome.OpenedUncut` | src/inspection.rs:2236-2505 | every complete scan without file tables opens such a session |
| `SessionOutcome.PublishesIff` | src/inspection.rs:5742-6085 | an enrichment gives the next revision exactly if its result is not on record yet and nothing stands in its way, and leaves the session as it is otherwise |
| `Session.EnrichedKeeps` | src/inspection.rs:5742-6085 | findings, invalidation, recorded walks, resolved classes and relocation attributions are never lost or changed, and each new revision has the next number |
| `Session.RunKeepsEvidence` | src/inspection.rs:5189-5202 | over every run a recorded chain or edge never changes, a resolved class stays resolved, and a record interpreted through a relocation keeps that attribution |
| `SessionHistory.FirstWalkDecides` | src/inspection.rs:5477-5479 | over every run a head has a walk on record if and only if it had one or was walked, and the record is the result of its first walk |
| `SessionHistory.IncompleteWalksReported` | src/inspection.rs:5742-5897 | in every revision a chain or edge on record as incomplete is behind an error finding, and the outcome is at least Findings |
| `Session.PassIsRecorded` | src/inspection.rs:5180-5231 | an interpretation pass leaves its classes resolved, its records with evidence of the pass unless they keep an attribution, the page's failure reason exactly as the pass ended, and nothing else changed |
| `Session.RecordPass` | src/inspection.rs:5165-5235 | publishing a pass fails only on the last revision number; otherwise the next revision records exactly what the pass leaves, loses nothing, and stays consistent |
| `Session.InsertRecords` | src/inspection.rs:5189-5202 | the record loop inserts the records in order and skips those that would lose a relocation attribution |
| `Session.RefusedPageRecorded` | src/inspection.rs:5899-5953 | a refused page is recorded with its rule and an error, overridden exactly if it had been decrypted, and needs a fast fact |
| `Selector.ParseIffPrinted` | src/cli.rs:315-335 | a selector parses to an entity if and only if it is that entity's printed subject with identifiers in range |
| `Decimal.ParseUndoesPrint` | src/cli.rs:1628-1671 | canonical parsing accepts exactly the printed numbers below 2^64 |
| `Bytes.AlignUpIsLeastMultiple` | src/bytes.rs:257-273 | aligning yields the least multiple at or above the value, failing exactly on an invalid alignment or a multiple beyond 64 bits |
| `Bytes.SubviewsCompose` | src/bytes.rs:147-208 | nested views neither escape nor shift |
| `Bytes.LeRoundTrip` | src/bytes.rs:111-141 | little-endian bytes read back as the number written |
| `Bits.CountOnesIsCardinality` | src/inspection.rs:516-530 | the population count of a mask is the size of its set of bit positions |
| `Bits.BitTest` | src/inspection.rs:1142-1146 | the mask test is the bit test |

## Left out

- File and socket access, fingerprint reading, spill-file creation and their failures other than the modelled read faults; what a read would yield is an input.
- Threads and task scheduling: a wave is any interleaving of its workers, a follow turn is one step with the clock readings it takes.
- Format decoders other than slotted and overflow pages; class-name resolution and tracker discovery before the inventory loop.
- Cancellation inside the fast scan, the snapshot digest, progress reports, page-type summaries and read-attempt counters.
- The TDE ciphers, the snapshot digest and the keyed digest of a cursor; nothing is said about forging cursors.
- HTTP routing and guards, JSON and human output, the TUI, HTML export, tools and fixtures.
- Payload buffers and vectors are allocated when their budget admits them; allocation failure itself is not modelled.
- The in-memory sizes of an allocation (16 bytes), a claim (24 bytes) and a diagnostic record (88 bytes) are constants of the model.
- Page decode failures carry no page number or message text; the owner conflict of an inventory does not name the page.
- Scan.ScanRun.ScanAll: requires every sector's first page to be a u32, which `Scan.OpenScan` establishes by counting first.
- OosChain.StructuralFailureIsFinal: for decoders whose chunks have 14-bit lengths and i32 indices, as slot words and the chunk layout guarantee.
- Allocation.ExpandClaims: models the loops over partial and full sectors as one loop over their rows in the same order.
- FollowHistory.RereadIsEarned: the runs make fewer publishes than the generation counter can hold.
- LiveSource.RetentionWindow: the runs make fewer publishes than the generation counter can hold.
- Follow.PendingIsHonest: the runs make fewer publishes than the generation counter can hold.
- Pagination.LoadEnumeratesOnce: volumes and sector ids only, with enrichments that keep a reading's volumes; relationships, diagnostics and coverage can grow while they are loaded.
- ChainReports.OverflowReported: for pages whose decoders give no rule named like a budget stop, as the format rules are not.
- SessionRecords.InventoryReportsConflicts: for files whose claims are on distinct sectors, as a successful collection guarantees.
- Session.EveryRevisionConsistent: the file-inventory record is not a recount; a header decoded later on its own does not refresh it.
- The reading and decoding behind an enrichment of a session: its arguments say what that came to; a call that is cancelled or refused before it publishes leaves the session as it is.
- A spilled fact store that can no longer be read: `Allocation.PageInRange` and the sectors of `Pagination.Served` leave out the failure of the existence check and of a page listing that reads a fact from it.
- Requests waiting on the watch channel are not events of the follow runs; the follow loop reads nothing they change.
- Messages, subjects and the class names of a session are not part of its model.
