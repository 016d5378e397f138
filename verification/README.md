# A verified model of the archive store, its catalog and its streams

NBackup keeps each archive as one or more part files, an optional member index and a commit
footer that is written last. The catalog is a cache that can be rebuilt by scanning the media.
This project models that store, the catalog beside it, the block layer that writes and reads
archives, the holding-disk flush, and four self-contained algorithms of the system, and proves
what they keep. `dafny verify dfyconfig.toml` checks everything.

How the pieces fit together:

- `Records`, `Entries`, `Order`: the shared values (locations, seals, commit footers, catalog
  entries) and the orders used for sorting.
- `Scan`, `Orphans`, `Store`, `SweepSafety`, `Sweeping`: reading a medium into location maps,
  assembling committed archives, finding and deleting what no archive references.
- `Lifecycle`, `CrashSafety`: one medium over time as a state machine with one file operation per
  step: appends by any number of interleaved archives, footer-first reclaims, the sweep, crashes,
  lost and rebuilt catalogs, reopening the store. Safety is proved over all runs. `ReopenSafety`
  gives the exact condition for reopening, and `LivePath` carries the catalog's own mutators along
  the run.
- `CatalogState`, `CatalogStore`: the catalog as a value and as an object with the program's loops;
  each method's result is the value-level mutator. `FillLedger`, `CatalogShape`, `Usage`,
  `CatalogView`, `RemovalView`, `FillHistory`, `Confluence` prove what the mutators keep: exact fill
  figures over whole histories, the catalog's shape and its reading, the usage ledger, and
  confluence of the additive rebuild. `Window` models the slices the program overwrites in place
  and proves that a read window is isolated from them.
- `Cutting`, `PartWriting`, `Transfer`, `ReadPlan`, `PartReading`, `Teeing`, `FanOut`: cutting a
  stream into sealed parts, writing them, planning and reading byte ranges back, fanning one stream
  into several lanes in lockstep. `RecordedCopy` joins the two halves: what the catalog's record of
  a written archive charges each reel, and that the stream reads back from the record.
- `Flushing`: copying staged archives to their routes and reclaiming them.
- `OnePass`, `Shell`, `Completing`, `DleTree`, `DleRuns`, `DleSplit`, `DleBuild`, `Routing`,
  `Reels`: the one-pass read order, the recover shell's tokenizer, quoting and completion, the path
  grouping, the routing closure and the reel packing.

Devices, producers and callbacks may fail at any call. What they refuse is recorded in ghost fields
(`PartWriting.Media`, `Transfer.Source`, `PartReading.PartsReader`, `Flushing.Devices`,
`Sweeping.Volume`), and the methods' failures are tied to those records: a write, a read, a tee, a
flush, a sweep or a reclaim that fails does so for a cause.

## Assumptions the model carries

- A run holds at most one level per DLE (internal/record/archives.go:5-6). `RemoveArchive` keys on
  the DLE alone. `Lifecycle` builds it into the steps, `Flushing.OneLevel` states it.
- A route names at least one landing, and no holding disk is a landing (`Flushing.Plan.Sound`).
- Costs of files are never negative; a medium without finite labeled volumes has no cost rule.
- An archive is re-authored on a medium only after its earlier copy was reclaimed, or over
  uncommitted leftovers, and then writes an index whenever a leftover index exists
  (`Lifecycle.Enabled`).
- A sound pool of tapes has one tape per label, and one tape holding each archive's footer, which
  speaks of that archive and maps all its parts (`Confluence.SoundPool`). Leftovers of any archive
  on any tape are allowed.
- A rescan meets one reel per label, and archives already known come back with their recorded sizes
  (`FillHistory.Plausible`). References to a registered label carry its registered epoch
  (`FillHistory.RefsCurrent`), which the catalog's own moves keep.
- The digest is an arbitrary function that never yields the empty string. Nothing is proved about
  collisions.

## Results that differ from what the code's comments say

- Positions are reused when a store is reopened: the next position is one past the highest one
  found (internal/media/fslike/fslike.go:442). If a reclaim removes all of an archive's files and
  the process dies before the catalog record goes, a later archive can be written over positions
  the stale record still names, and reclaiming that record tears the later archive.
  `CrashSafety.CarelessReopenTears` is a concrete run. `ReopenSafety.ReopenSafeIff` is the exact
  condition: a reopening is safe for good exactly when the catalog names no position at or above
  the next one. `CrashSafety.CrashSafe` covers every run whose reopenings meet it.
- Excluding known positions from the orphan sweep is not harmless by itself: a known footer over an
  unknown part makes the part look orphaned. `SweepSafety.SweepSafeIff` gives the exact condition,
  and `Sweeping.TrueRecordsAreClosed` says when the catalog meets it.
- An uncommitted re-copy of a committed archive is not harmless to a scan: later parts win.
  `CrashSafety.PartAppendSafeIff`.
- `addArchive` re-prices copies already recorded when the merged content has other sizes:
  `FillLedger.AddArchiveExactIff`. Registering a label at another epoch resets its fill although
  rows of that epoch may already be recorded: `FillLedger.UpsertExactIff`.
- Feeding a pool's tapes one at a time ends where one full pass ends exactly when no footer names
  another reel of the pool at an epoch it no longer carries and no reel holds a leftover of an
  archive committed elsewhere: `Confluence.ConfluentIff`. `Confluence.LeftoverPoolDiverges` is a
  pool of two tapes on which they differ, left behind by a failed attempt and its retry.
- A range whose offset plus length exceeds 63 bits reads nothing: `ReadPlan.RangedReadIff`.
- An atomic copy reproduces its source's parts unless the source ended in an empty part after
  others: `Cutting.RecutIsExactIff`.
- Completing after a dangling unquoted backslash overwrites the last finished argument, and offers
  nothing when there is none:
  `Completing.CompletionRescansIff`.
- A run with bytes pins an open reel that is already full although it puts nothing there:
  `Reels.MarksTouchedIff`.
- Consecutive rows that share a directory are grouped, but paths sort byte by byte, so a top-level
  directory is cut off from what lies below it by a sibling whose name goes on with a byte below the
  slash: `/data`, `/data-old`, `/data/x`. `DleRuns.RunTakesAllIff` is the exact condition and
  `DleRuns.DashedSiblingInterrupts` the example.

## Model

| member | source | states |
|---|---|---|
| CrashSafety.CrashSafe | internal/catalog/scan.go:243-301 | after any interleaving of appends, footers, footer-first reclaims, sweeps and crashes, a scan assembles exactly the committed archives, each whole and where its own attempt wrote it |
| CrashSafety.OnlyOwnReclaimUncommits | internal/archivefs/compose.go:89-123 | a committed archive is assembled unchanged after every step except its own reclaim's removals |
| CrashSafety.FirstRemovalUncommits | internal/archivefs/compose.go:99-123 | an archive's own reclaim un-commits it with the first file it removes |
| CrashSafety.FooterFirstIff | internal/archivefs/compose.go:113-123 | deleting an archive's files never exposes a torn archive, wherever interrupted, exactly when the footer goes first |
| CrashSafety.ReclaimSparesIff | internal/archivefs/compose.go:89-97 | deleting by recorded position leaves every other archive whole at every interruption point exactly when no position is another archive's |
| CrashSafety.CarelessReopenTears | internal/media/fslike/fslike.go:408-444 | a reachable run in which position reuse after a reopen leads a reclaim to tear another committed archive |
| CrashSafety.PartAppendSafeIff | internal/catalog/scan.go:243-301 | appending a part leaves every assembled position alone exactly when no committed archive has that part |
| ReopenSafety.ReopenSafeIff | internal/media/fslike/fslike.go:408-444 | reopening leaves every later scan whole, whatever follows, exactly when the catalog names no position at or above the one handed out next |
| LivePath.CatalogMirrors | internal/archivefs/compose.go:56-97 | after any careful run, crashes and lost catalogs included, the copies the catalog's own mutators leave are exactly the records of that run |
| LivePath.RebuildAgreesWithLive | internal/catalog/scan.go:53-90 | after any run without crashes a full rebuild reads exactly as the catalog that AddArchive and RemoveArchive left: same copies, content and registry |
| Lifecycle.StepKeeps | internal/archiveio/writer.go:406-445 | every file operation keeps the store's invariant, whatever else is in progress |
| Lifecycle.KnownIsFooterClosed | internal/accounting/prune.go:297-316 | the positions a reachable catalog knows never include a footer without its archive's files |
| Scan.ScanVolume | internal/catalog/scan.go:510-548 | one volume's listing leaves the location maps in which later files win |
| Scan.Accumulator.Add | internal/catalog/scan.go:486-496 | folding a scanned volume in replaces what the accumulator had for the same keys |
| Scan.Assemble | internal/catalog/scan.go:243-330 | the grouped placements are those of some ordered enumeration of the commits; the runs reported as strays are those with a part on a labeled volume that no footer counts, each with the labels of exactly those volumes |
| Scan.AssembleListsCommitted | internal/catalog/scan.go:243-301 | assembling lists exactly the archives that have a footer, each as the maps place it |
| Scan.EnumerationUnique | internal/catalog/scan.go:243-260 | the order assembled in does not depend on map iteration |
| Store.ScanFindsWhole | internal/catalog/scan.go:243-301 | a scan of a medium places each committed archive exactly where its own attempt wrote it |
| Orphans.OrphanFiles | internal/catalog/scan.go:361-407 | the loop returns the non-label surprises that nothing assembled among them references |
| Orphans.ArchivePosFiles | internal/archivefs/compose.go:113-123 | an archive's files in the order a reclaim removes them |
| SweepSafety.SweepSafeIff | internal/catalog/scan.go:361-407 | the sweep spares every committed archive exactly when the known set is footer-closed |
| SweepSafety.OrphanExact | internal/catalog/scan.go:361-428 | file by file, what the sweep lists |
| SweepSafety.EmptyKnowledgeIsExact | internal/catalog/scan.go:332-360 | with nothing known the sweep lists exactly the non-label files no committed archive uses |
| SweepSafety.SweepKeepsAssembled | internal/accounting/prune.go:255-268 | deleting any part of the list changes nothing a scan assembles |
| Sweeping.KnownPositions | internal/accounting/prune.go:297-316 | exactly the positions some recorded copy on the medium uses |
| Sweeping.SweepOrphans | internal/accounting/prune.go:235-268 | only orphans that minimum age does not protect go, and with apply each of those goes or was refused; the count is what was due less the refusals; the medium still holds every archive it held |
| Sweeping.TrueRecordsAreClosed | internal/accounting/prune.go:289-316 | when every recorded copy is a committed one, what the catalog knows is footer-closed |
| Sweeping.ReclaimAt | internal/archivefs/compose.go:89-97 | removes a first stretch of the files, footer first, stops only where a removal is refused, and drops the catalog record exactly when all are gone |
| Sweeping.InterruptedReclaim | internal/archivefs/compose.go:99-112 | a reclaim stopped anywhere leaves every other archive held, and the reclaimed one whole or not committed |
| CatalogStore.Catalog.AddArchive | internal/catalog/catalog.go:204-252 | merges content and places the copy with its positions and, where they align, its seals; settles the fill and leaves a truthful usage ledger |
| RecordedCopy.RecordCarriesSeals | internal/catalog/catalog.go:226-247 | the record an addition leaves has the given positions and pairs each part with its own seal; seals that do not align leave every part unsealed |
| RecordedCopy.RecordedReadsBack | internal/catalog/entry.go:59-67 | a committed archive, once recorded, reads back by range from its catalog record alone with every seal intact |
| CatalogStore.Catalog.SettleFill | internal/catalog/catalog.go:178-186 | every registered volume's fill moves by its accumulated charge, floored at zero |
| CatalogStore.ChargeFill | internal/catalog/catalog.go:144-172 | accumulates exactly one record's charges, against every label at once, as one signed sum |
| RecordedCopy.ChargeIsStored | internal/catalog/catalog.go:136-172 | the record of a committed archive charges a reel the cost of exactly the archive's files stored there: parts at the length that landed, the index at its size, the footer at the medium's bound |
| RecordedCopy.SeallessCharge | internal/catalog/catalog.go:158-172 | a record without aligned seals costs one part of the archive's whole size, on the first reel with a label |
| RecordedCopy.FirstLandingFills | internal/catalog/catalog.go:188-252 | a medium's first record of a written archive raises each registered reel's fill by the cost of what was stored on it |
| CatalogStore.Catalog.RemovePlacement | internal/catalog/catalog.go:279-300 | drops a run's copy on a medium and gives its charges back; the entry goes with its last copy |
| CatalogStore.Catalog.RemoveArchive | internal/catalog/catalog.go:310-348 | drops a DLE's image from one copy and whatever that empties, content included, and says whether the copy and the entry are gone |
| CatalogStore.Catalog.UpsertVolume | internal/catalog/catalog.go:362-393 | registers or updates a label: on first sight its fill is the label file and everything recorded against it, at its epoch it is kept, at another epoch it is the label file alone |
| CatalogStore.Catalog.DropStaleOn | internal/catalog/scan.go:114-149 | removes every record naming the label at another epoch, giving back its charges |
| CatalogStore.Catalog.Absorb | internal/catalog/scan.go:156-170 | registers the labels, then records every scanned archive through the one write path |
| CatalogStore.Catalog.Rebuild | internal/catalog/scan.go:53-90 | rescans media in turn, from the current contents or from nothing, and reports in order exactly the part-only runs no entry indexes |
| CatalogStore.Catalog.RecordUsage | internal/catalog/usage.go:72-103 | appends exactly one sample per medium whose bytes changed, after which the last samples are the sums over the placed records |
| CatalogStore.OnePassTotals | internal/catalog/usage.go:114-129 | the one-pass totals |
| CatalogView.ContentAfterPut | internal/catalog/run.go:69-77 | merging an archive into a run's content changes the lookup of its own DLE and level and no other |
| CatalogStore.DropContent | internal/catalog/run.go:82-94 | the loop drops exactly a DLE's archives |
| CatalogView.CopyAfterPut | internal/catalog/catalog.go:256-265 | recording a placed archive changes the copy on its medium and no other |
| CatalogView.PlacedAfterPut | internal/catalog/catalog.go:267-275 | within that copy it replaces the record of its own DLE and level and no other |
| FillLedger.AddArchiveExactIff | internal/catalog/catalog.go:215-252 | adding keeps a label's fill equal to its recomputation exactly when the merged content does not re-price recorded copies |
| FillLedger.AddArchiveExact | internal/catalog/catalog.go:215-252 | a first landing, or a re-add with the recorded sizes, keeps every fill exact |
| FillLedger.RemovePlacementExact | internal/catalog/catalog.go:279-300 | dropping a copy keeps every fill exact; the floor never bites |
| FillLedger.RemoveArchiveExact | internal/catalog/catalog.go:310-348 | dropping one image keeps every fill exact, also when the run's content drops it |
| FillLedger.UpsertExactIff | internal/catalog/catalog.go:362-379 | registering keeps the fill exact exactly when the label is new, at its epoch with the same label cost, or at another epoch with nothing recorded |
| FillLedger.DropStaleExact | internal/catalog/scan.go:114-149 | dropping a wiped reel's records gives back exactly what they cost on every reel |
| CatalogShape.ChangeKeepsShape | internal/catalog/catalog.go:215-348 | every mutator keeps one entry per run, one non-empty copy per medium, one record per key, and every placed archive in the run's content |
| FillHistory.RescanKeepsExact | internal/catalog/scan.go:64-70 | dropping a wiped reel's records, registering it at its new epoch and absorbing what it now holds leaves every fill exact |
| FillHistory.RescanKeepsCurrent | internal/catalog/scan.go:64-70 | afterwards recorded references still carry the registered epochs |
| FillHistory.FillStaysExact | internal/catalog/catalog.go:144-252 | over any history of mutations and rescans the stored fill of every registered label equals its recomputation |
| CatalogShape.RescanKeepsShape | internal/catalog/scan.go:64-90 | absorbing any scan keeps the shape |
| Usage.TotalsAgree | internal/catalog/usage.go:106-129 | the one-pass totals equal the per-medium sums, and the bytes are the sizes of the archives the placed records name |
| Usage.RecordedIsTrue | internal/catalog/usage.go:65-103 | after recording, a medium's last sample is its stored bytes, zero for an emptied one |
| CatalogView.AddView | internal/catalog/catalog.go:215-275 | adding changes the one record it names and nothing else |
| CatalogView.AbsorbRunsView | internal/catalog/scan.go:156-170 | absorbing records exactly what the scan found |
| RemovalView.PruneView | internal/catalog/catalog.go:310-348 | removing one DLE's image removes the records it names and no other |
| RemovalView.PruneContent | internal/catalog/catalog.go:335-342 | a run's content loses exactly what no copy holds any more |
| RemovalView.DropStaleView | internal/catalog/scan.go:114-149 | dropping a wiped reel's records takes away exactly the stale ones |
| RemovalView.DropStaleByFile | internal/catalog/scan.go:114-149 | a record goes exactly when one of its files lies on the label at another epoch, and every other record stays |
| CatalogView.FillDependsOnReading | internal/catalog/catalog.go:383-393 | what is recorded against a label depends only on the catalog's contents, not on list order |
| Confluence.ScanMedium | internal/catalog/scan.go:202-229 | the labels are in order those of the tapes with no pool or the medium's own, and an archive is found exactly when such a tape holds its readable footer |
| Confluence.ScanIsShaped | internal/catalog/scan.go:243-301 | whatever a scan meets, it yields one well-formed group per run |
| Confluence.PlacedByFooterIff | internal/catalog/scan.go:277-301 | in whatever order tapes are walked, an archive is placed as its own tape and its footer's part map say exactly when none of them holds a leftover of it elsewhere |
| Confluence.PassFeedsIff | internal/catalog/scan.go:64-90 | what a pass leaves depends only on which tapes were fed exactly when references are current and no leftover lies elsewhere |
| Confluence.ConfluentIff | internal/catalog/scan.go:38-90 | feeding tapes one at a time, in any order and with repeats, agrees with the full pass exactly when no footer names another reel at a stale epoch and no reel holds a leftover of an archive committed elsewhere |
| Confluence.LeftoverPoolDiverges | internal/catalog/scan.go:277-301 | a sound pool of a failed attempt and its retry on which feeding and the full pass differ |
| Window.LiveCopy.Merge | internal/catalog/catalog.go:267-275 | overwrites the record's slot in place, or appends |
| Window.LiveCatalog.OpenWindow | internal/catalog/window.go:39-46 | the view has the live runs and no other, reads as the catalog does and shares none of its slots |
| Window.WindowIsolates | internal/catalog/window.go:28-57 | no sequence of later mutations, a full rebuild's wipe included, changes what the view returns |
| Window.SharedListShows | internal/catalog/catalog.go:465-480 | a list shared without a snapshot shows a merge exactly when it replaces a record by a different one |
| Cutting.CutKeepsStream | internal/xfer/transfer.go:227-247 | the parts, put together, are the stream |
| Cutting.CutRespectsCaps | internal/xfer/transfer.go:249-270 | all parts but the last fill their cap, none exceeds it, and no empty part trails |
| Cutting.FitsIff | internal/xfer/transfer.go:227-247 | the cut completes exactly when some cap is unbounded or the caps up to some part suffice |
| Cutting.RecutIsExactIff | internal/archiveio/writer.go:264-278 | a copy cut at recorded sizes reproduces them exactly when they add up to the stream and no empty part follows others |
| PartWriting.ArchiveWriter.NextPart | internal/archiveio/writer.go:242-278 | opens an empty part on the allocator's next slot under the cap the archive's shape dictates; fails only when the device refuses or no cap is left |
| PartWriting.ArchiveWriter.Write | internal/archiveio/writer.go:290-302 | meters exactly the bytes written, into the part and the archive |
| PartWriting.ArchiveWriter.ClosePart | internal/archiveio/writer.go:304-311 | a closed part is on the volume its slot named, with its seal and position recorded; fails only when the device refuses |
| PartWriting.ArchiveWriter.Assemble | internal/archiveio/writer.go:322-371 | a copy whose checksum differs is refused; otherwise the record measures what landed, describes source or producer, and keeps the frame table unless an atomic dump spends it on raw sizes |
| PartWriting.ArchiveWriter.Finalize | internal/archiveio/writer.go:406-445 | index when there is something to index, then the footer, last, naming where everything lies |
| PartWriting.ArchiveWriter.Commit | internal/archiveio/writer.go:322-384 | the committed result is finalized on the medium; it fails only on a refusal or on a copy whose checksum differs, which leaves nothing behind |
| Transfer.CopyPart | internal/xfer/transfer.go:249-270 | for any chunking, copies up to the cap and reports end of stream exactly when nothing follows |
| Transfer.Drive | internal/xfer/transfer.go:227-247 | on success the landed parts are exactly the cut under the allocator's caps, each on the volume of its slot; it fails only when the device or the producer does, or when the stream does not fit |
| Transfer.DriveAtoms | internal/xfer/atomic.go:235-265 | each atom lands as exactly one part, and only a device or the producer can make it fail |
| Transfer.WriteStream | internal/archiveio/writer.go:322-384 | on success the stream is on the medium as its cut, sealed, sized and committed; it fails only for a refusal, a broken producer, lack of room or a differing checksum |
| Transfer.PairParts | internal/catalog/entry.go:59-67 | parts get their seals only when the seals align one to one |
| Transfer.WriteThenRead | internal/archiveio/reader.go:110-173 | any in-bounds range of a written archive opens on the right parts with intact seals and delivers exactly that slice, 63-bit overflow aside |
| Transfer.SealsSumToStream | internal/archiveio/writer.go:322-328 | the seal sizes sum to the compressed size |
| Transfer.RawSpansTile | internal/archiveio/writer.go:358-371 | the raw sizes of a fresh atomic dump tile the raw stream |
| ReadPlan.PlanSegments | internal/archiveio/reader.go:137-173 | the loops compute the plan, with the same refusals |
| ReadPlan.SegmentsDeliver | internal/archiveio/reader.go:156-171 | the picked segments deliver exactly the bounded range |
| ReadPlan.RangedReadIff | internal/archiveio/reader.go:137-173 | a range delivers its slice exactly unless offset plus length overflows before the stream's end |
| ReadPlan.RefusedIff | internal/archiveio/reader.go:146-155 | a sub-range is refused exactly when a part is unsealed or the offset lies outside |
| ReadPlan.WholeFormIff | internal/archiveio/reader.go:163-168 | a segment has the whole-part form, which arms the seal check, exactly when the range covers its part |
| PartReading.PartsReader.OpenSeg | internal/archiveio/reader.go:247-262 | opens a segment exactly when the right part is there, arming the seal check for whole sealed parts |
| PartReading.PartsReader.CheckSeal | internal/archiveio/reader.go:266-274 | the inline count and hash decide exactly whether the segment's seal holds |
| PartReading.PartsReader.Read | internal/archiveio/reader.go:291-327 | for any device chunking nothing is lost or repeated, and each outcome says what is true of the segment it is about; a device error is reported only after the device failed |
| PartReading.Open | internal/archiveio/reader.go:110-123 | fails exactly on no parts, a refused range or an unopenable first segment, before any byte moves |
| PartReading.Drain | internal/archiveio/reader.go:291-327 | over any buffer sizes the bytes out and the bytes left make up the archive; the end is reached only past segments that were checked, and a failure stems from the device or a bad segment |
| PartReading.ReadRange | internal/archiveio/reader.go:110-123 | what is read is a prefix of the slice, and all of it on reaching the end, with every whole part's seal met; it fails only after a device failed or on a part that does not meet its seal |
| Teeing.Tee.NextPart | internal/archiveio/tee.go:72-93 | opens the part on every live lane under the least of their caps; the lanes that left are exactly those with a failed call of their own; fails only when the last one does |
| Teeing.Tee.Write | internal/archiveio/tee.go:174-206 | accepts a chunk exactly while a lane survives, every survivor holding exactly the accepted bytes, and a lane leaves exactly on its own failure |
| Teeing.Tee.ClosePart | internal/archiveio/tee.go:208-228 | survivors close the same part and only they are credited with it; a lane leaves exactly on its own failure |
| Teeing.Tee.Commit | internal/archiveio/tee.go:98-111 | every survivor has committed what landed on it, and a lane leaves exactly on its own failure |
| Teeing.LeastIsLeast | internal/archiveio/tee.go:72-93 | the handed-out cap is within every live lane's own and is one of them |
| FanOut.DriveTee | internal/archiveio/tee.go:11-25 | on success the closed parts are one cut of the stream, under caps each within every survivor's own; it fails only when the producer does or no lane is left |
| FanOut.WriteFan | internal/archiveio/tee.go:72-111 | on success every lane without a failed call has committed the whole stream, cut at the common boundaries and no part above its own cap; it fails only when the producer does or every lane did |
| FanOut.CutFitsLane | internal/archiveio/tee.go:72-93 | parts cut under caps within a lane's own are within that lane's caps |
| Teeing.SurvivorsAlign | internal/archiveio/tee.go:17-21 | any two survivors carry the same checksum, size and per-part seals |
| Flushing.Flusher.Flush | internal/conductor/flush.go:53-151 | every persisted state keeps each staged archive on a holding disk or on its whole route; success leaves nothing staged; the count is that of the staged copies gone; an error names a landing that lacks a staged archive or a refused removal, so with everything on its route only a refused removal fails |
| Flushing.Flusher.ServeRoute | internal/conductor/flush.go:107-139 | on success the archive is on every medium of its route; a route already served is left alone without error; an error names a landing of the route that lacks the archive; the staged copies are untouched |
| Flushing.Flusher.Reclaim | internal/conductor/flush.go:140-144 | tears only a staged copy whose whole route is served, forgets it on success, and fails only on a refused removal |
| Flushing.PlacedIsCatalogued | internal/conductor/flush.go:179-190 | a placed archive is in its run's content |
| Flushing.ArchiveOnLanding | internal/conductor/flush.go:154-175 | whether the landing's copy of the run holds the archive |
| OnePass.OrderForOnePass | internal/archivefs/readplan.go:32-58 | a permutation in which each item is, at its turn, a physically least ready one, and no DLE's levels descend |
| OnePass.Pick | internal/archivefs/readplan.go:36-53 | the first of the physically earliest ready items |
| OnePass.ForwardReadIff | internal/archivefs/readplan.go:19-31 | the pass is the physical sort exactly when the layout respects the levels |
| OnePass.ForwardReadMountsOnce | internal/archivefs/readplan.go:144-158 | in a physically sorted pass each volume's items are contiguous |
| OnePass.ForwardReadNeverRewinds | internal/archivefs/readplan.go:144-158 | a forward pass takes media, labels and epochs in order, and on one volume never goes back in position |
| OnePass.RewindsOnlyForLevels | internal/archivefs/readplan.go:19-58 | a one-pass order goes back on a volume only for an item that had to wait for a lower level of its DLE |
| Shell.ScanTokens | internal/cli/recover_line.go:89-144 | the loop is the byte-by-byte tokenizer, with its at-separator verdict |
| Shell.RoundTrip | internal/cli/recover_line.go:248-268 | quoted and joined arguments scan back to themselves |
| Shell.LaidAt | internal/cli/recover_line.go:64-69 | each token starts at its argument's quoted form |
| Shell.BackslashEscapes | internal/cli/recover_line.go:109-134 | outside single quotes a backslash makes the next byte literal, whatever it is |
| Shell.SeparatorEnds | internal/cli/recover_line.go:135-144 | outside quotes a space or tab ends the token and adds nothing |
| Shell.QuotedOnlyWhenNeeded | internal/cli/recover_line.go:248-268 | an argument is left unquoted exactly when it reads back as itself that way |
| Completing.CommonPrefix | internal/cli/recover_line.go:282-296 | the shrinking loop computes the shared prefix |
| Completing.SharedByAllIsLongest | internal/cli/recover_line.go:281-296 | the shared prefix is shared by all, and none longer is |
| Completing.AutoComplete | internal/cli/recover_line.go:150-173 | replaces the cursor's token and nothing else |
| Completing.CompletionRescansIff | internal/cli/recover_line.go:146-199 | the completed text scans to the earlier arguments and the chosen value exactly when no unquoted backslash dangles outside a token |
| Completing.CandidatesFit | internal/cli/recover_line.go:160-168 | the first word is completed from the command words that begin with it, any later one from what the command offers for it |
| Completing.CompletionEndsArgument | internal/cli/recover_line.go:175-199 | after the completion the cursor is ready for the next argument exactly when a lone candidate that is no directory was put in |
| Completing.CompletionGoesOn | internal/cli/recover_line.go:175-199 | a completion goes on from what was typed, and there is none exactly when there is no candidate or several agree on nothing more |
| DleTree.CommonDirMeets | internal/dletree/dletree.go:231-250 | the common directory is the deepest directory holding both paths |
| DleTree.BucketIsSmallerRun | internal/dletree/dletree.go:154-198 | every bucket the recursion descends into is a strictly smaller run |
| DleTree.ArrangePartitions | internal/dletree/dletree.go:154-198 | an arrangement shows every member exactly once |
| DleTree.ArrangeIsTrue | internal/dletree/dletree.go:203-219 | in every group the base joined with a child's label is that child's path, covering rows last |
| DleTree.LabelJoins | internal/dletree/dletree.go:252-255 | a label put back under its base is the path |
| DleRuns.RunTakesRelated | internal/dletree/dletree.go:113-130 | a run is its first row and the following rows of the host as long as they share a directory below the root with it |
| DleRuns.RunTakesAllIff | internal/dletree/dletree.go:86-130 | a run holds every row related to its first exactly when that is no top-level directory with a sibling sorting in between |
| DleSplit.OneGroupIff | internal/dletree/dletree.go:132-198 | a run stays one group exactly when it is one row, its first row covers it, or no row below the common directory has others under it and either no branch is shared or the labels hold at most eight slashes |
| DleBuild.ArrangeRun | internal/dletree/dletree.go:154-198 | the loops compute the arrangement, split decision included |
| DleBuild.JudgeMerge | internal/dletree/dletree.go:174-193 | the split decision |
| DleBuild.Build | internal/dletree/dletree.go:94-130 | every item is shown exactly once, in a group whose base and labels give back its path; groups come by host, hostless last |
| Routing.CopyMediaFor | internal/accounting/projection.go:130-165 | the least set holding the route and closed under the sync rules, sorted |
| Routing.MemberIff | internal/accounting/projection.go:136-158 | a medium holds a copy exactly when the route names it or a rule brings it from a holder, an automatic rule from some landing |
| Routing.OrderOfRulesIrrelevant | internal/accounting/projection.go:130-158 | the rules' order and repetition do not matter |
| Reels.Pool.Pack | internal/accounting/forecast_tape.go:121-139 | the run starts on the last reel, or on a fresh one when there is none or it may not append; the first takes what fits, further reels are full but the last, and their number is the rounded-up need |
| Reels.PackingConserves | internal/accounting/forecast_tape.go:118-139 | exactly the run's bytes of room are consumed |
| Reels.MarksTouchedIff | internal/accounting/forecast_tape.go:118-139 | besides the reels it was marked on, the run marks exactly those it touches, unless the open reel is already full and unmarked |

## Left out

- Persistence as JSON, atomic renames, gzip of member indexes and the member-index cache: file input and output. Footers and catalogs are values.
- The display order of entries (`sortEntries`): lists keep first-seen order here, and every result that compares catalogs is up to list order.
- Transfer.DriveAtoms: the atom source's own faults are those of `Transfer.Source`; the encode pipeline that makes the atoms is not modelled.
- PartWriting.ArchiveWriter.Commit: the index encoding is an arbitrary length function, and a recorder that refuses is one of the refusals of `PartWriting.Media`.
- PartReading.PartsReader.Read: the digest is a function of the bytes hashed; pacing and cancellation are not modelled.
- Teeing.Tee.NextPart: a lane is live or dropped by a flag instead of a nil pointer, and the open fan part is part of the tee instead of an object of its own; a lane takes part in the open part exactly while it is live.
- Flushing.Flusher.Flush: the copy itself is one step that either records the archive on the landing or fails; its bytes are the block layer's subject.
- Window.WindowIsolates: the mutators of the live lists are specified here by what they may touch, since isolation is about sharing; what they compute is proved for `CatalogStore.Catalog`.
- CatalogStore.Catalog.RecordUsage: thinning and compaction of the usage file are not modelled.
- Sweeping.SweepOrphans: torn files an interrupted append leaves are reaped in `Lifecycle` and not enumerated by the loop here, and minimum age is an arbitrary predicate on files.
- CrashSafety.CrashSafe: bit rot, unreadable footers and relabeling of removable volumes are not steps; runs in which a store is reopened at or below positions the catalog still names are excluded, because the claim fails after exactly those (ReopenSafety.ReopenSafeIff).
- Confluence.ConfluentIff: a pool in which two tapes hold a footer of the same archive, or a footer maps fewer parts than it counts, is not a sound one.
- DleBuild.Build: the one-line folding of lists and the wording of labels are not modelled.
- Completing.AutoComplete: the browse tree and the DLE list are one arbitrary function from command and prefix to candidates.
- Reels.Pool.Pack: a usable capacity of zero or less is excluded; the program's loop does not end there.
- Retention, recovery planning, the dumper, the spool's goroutines, make-room, forecasting figures, configuration parsing, the command line and the web server are not part of this model.
- 64-bit wrap-around is modelled in ReadPlan only; elsewhere sizes are unbounded integers.
