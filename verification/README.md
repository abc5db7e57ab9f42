# Snapshot packs, owned processes and exact accounting

A Dafny model of four parts of the repository, with proofs of what they promise.

**Sectioned snapshot packs** (`benchmarks/snapshot-reader`). Bytes are sequences. Pack v2 is modelled down to
its bytes: big-endian fields, NUL-padded keys, 44-byte locators, pages of 32 and 64 rows, the 372-byte
manifest, one stateful gob encoder per section. `PackV2Writer` and `PackV2Reader` say what is written and
read; `PackV2Files` has the loops over a growing file and a counting reader, proved against them.
`PackV2Acceptance` says which corpora are built at all, and how long the file gets (`PackV2Capacity`). The other
results are about what comes back: the untouched pack answers every read exactly (`PackV2Exact`), any other
data-file bytes give the same answer or a checksum error (`PackV2Integrity`), a whole read misses no altered byte
(`PackV2Detection`), and pack v1 (`PackV1`, `PackV1Capacity`, `PackV1Integrity`) agrees on every read
(`PackAgreement`). `Publication` is a state machine over names, inodes and bytes in which one publisher at a time
may stop at any step while any number of readers open; `PublicationProgress` shows that publishers and readers get
done, and `PackPublication` instantiates it with both formats, from the corpus to the reader's answers.

**Owned processes and captured output.** `Descendants` searches one process table. `Custody` is a state
machine of snapshots, monitor ticks, the join and signals (`benchmarks/selfuse-batch`); `DescendantCleanup`
has the tracker's methods and proves that whatever a tracker does is one of the machine's runs.
`CommandCapture` and `GroupQuiescence` follow the direct command runner (`cmd/corvint-go-test-provider`), and
`GroupSignals` says of the calls alone what is sent and when; `OwnedGroups` follows the keeper-pinned process
group (`script/process_group.py`). Snapshots, signal answers, timing and the interleaving of goroutines are the
environment's to choose.

**Exact token accounting** (`benchmarks/dogfood-workers`). `TokenCounts` has naturals with an absorbing unknown;
`ClaudeAccounting`, `CodexAccounting` and `WorkerReceipts` prove each fold equal to a statement about the
transcript alone.

**Status paths** (`benchmarks/dogfood-measure`). `StatusPaths` parses NUL-separated status output and is proved
the inverse of printing it.

SHA-256 (section 6.2 of FIPS 180-4) is any function from bytes to 32 bytes. Where altered bytes matter the one
assumption is `NoForgedRange`: no range of the honest data file differs from the same range of the altered one
while sharing its digest. gob is any lawful codec: definition ids are distinct, and a value decoded against all of its
type's definitions comes back; framing, signed ids and the rule "definitions go out once" are modelled.

Where the code does less than one might expect, the exact condition is proved:

- A build of more than 2^47 paths finishes, but no reader opens it (`PackV2Height.HeightBoundExact`), and neither
  does one whose only paths are empty (`PackV2Exact.OpensExactly`, both directions).
- `filepath.Base("/")` is `/`, so the reader takes a single slash for a base name (`PackV2Manifest.BaseNames`).
- The 10 ms quiescence window separates two clock readings, not two answers. If the check of the window may lag
  behind an answer, the answers can lie closer together by exactly that much
  (`GroupQuiescence.WindowSpannedIffPrompt`), and from a lag of 10 ms on a single answer is enough
  (`GroupQuiescence.QuietOnOneIffStalled`).
- `retire` is documented to end within its bound. It always does if and only if the output was drained before and
  the bound is at least 0.1 s (`OwnedGroups.EndsWithinBoundExactly`), so a call with the default bound may overrun
  it. It always ends within 0.1 s more if and only if the bound is not negative
  (`OwnedGroups.EndsWithinSlackExactly`).
- A capture whose limit is the largest 64-bit number drops what exceeds it without an error; for any other limit no
  error means nothing was dropped (`CommandCapture.NoErrorMeansComplete`).

## Model

| member | source | states |
|---|---|---|
| ByteStrings.GetPutBE | benchmarks/snapshot-reader/packv2.go:76-88 | a number that fits a fixed-width field reads back; one that does not still reads as a number that fits |
| ByteStrings.PutGetBE | benchmarks/snapshot-reader/packv2.go:82-88 | every byte string is the encoding of the number it reads as |
| ByteStrings.NumericOrder | benchmarks/snapshot-reader/packv2.go:76-88 | fields of one width are in byte order if and only if the numbers in them are: most significant byte first |
| ByteStrings.TrimPad | benchmarks/snapshot-reader/packv2.go:456-458 | trimming trailing NULs recovers a padded key or name that does not itself end in NUL |
| ByteStrings.PadOrder | benchmarks/snapshot-reader/packv2.go:273-277 | zero padding keeps the byte order of NUL-free keys, both ways |
| ByteStrings.PadInjective | benchmarks/snapshot-reader/packv2.go:416-420 | different NUL-free keys stay different when padded |
| ByteStrings.JoinRowAt | benchmarks/snapshot-reader/packv2.go:206-206 | row i of a page joined from fixed-width rows is the i-th row joined |
| Sorting.SortAscending | benchmarks/snapshot-reader/packv2.go:237-238 | sorting paths puts them in ascending byte order |
| Sorting.AscendingUnique | benchmarks/snapshot-reader/packv2.go:237-238 | two ascending rearrangements of the same paths are equal, so the sort is determined |
| Gob.AloneRoundTrip | benchmarks/snapshot-reader/pack.go:52-58 | a value encoded by a fresh encoder decodes to itself |
| Gob.EncodeRunSent | benchmarks/snapshot-reader/packv2.go:278-296 | once the primer is out, each block is the bare value message, whatever came before |
| Gob.BlockIndependence | benchmarks/snapshot-reader/packv2.go:478-494 | any block of one encoder's run decodes to its own value after replaying only the primer's bytes |
| Gob.BlockAloneHasNoDefinitions | benchmarks/snapshot-reader/packv2.go:32-36 | without the descriptor a block reaches the decoder with no type definition at all |
| Gob.OwnEncoderRefused | benchmarks/snapshot-reader/packv2.go:478-494 | a block from an encoder of its own does not decode after the descriptor: its definitions come a second time |
| Corpora.SectionValue | benchmarks/snapshot-reader/packv2.go:177-181 | the value section k stores has that section's type |
| Corpora.StoredIsOriginal | benchmarks/snapshot-reader/packv2.go:514-533 | for a well-formed corpus what is stored loses nothing but the order of the path list |
| PackV2Manifest.LocatorRoundTrip | benchmarks/snapshot-reader/packv2.go:76-88 | a locator that fits its fields reads back, whatever follows it |
| PackV2Manifest.LocatorReverse | benchmarks/snapshot-reader/packv2.go:82-88 | every 44 bytes are the encoding of the locator read from them |
| PackV2Manifest.BaseNames | benchmarks/snapshot-reader/packv2.go:144-149 | the accepted data file names are exactly the slash-free non-empty ones and the single slash |
| PackV2Manifest.DecodeManifest | benchmarks/snapshot-reader/packv2.go:120-163 | an accepted manifest has four descriptors, key width 1..4096 and height 1..8 |
| PackV2Manifest.WideFieldsRoundTrip | benchmarks/snapshot-reader/packv2.go:99-114 | a manifest with a good name, 16-bit counters and fitting locators survives its fixed-width fields |
| PackV2Manifest.DecodeEncode | benchmarks/snapshot-reader/packv2.go:99-163 | decode of encode returns the manifest if and only if it is valid |
| PackV2Manifest.EncodeDecode | benchmarks/snapshot-reader/packv2.go:120-163 | every accepted byte string is the encoding of the valid manifest it decodes to |
| PackV2Writer.MaxLength | benchmarks/snapshot-reader/packv2.go:239-242 | the key width bounds every path and is reached by one, or is zero |
| PackV2Writer.WriteLevel | benchmarks/snapshot-reader/packv2.go:200-214 | a level leaves one parent row of interior width per page it wrote |
| PackV2Writer.FewerPages | benchmarks/snapshot-reader/packv2.go:218-230 | each level has at least one page and fewer pages than rows, so loading ends |
| PackV2Writer.LeafRowsAt | benchmarks/snapshot-reader/packv2.go:273-298 | row i of the path table is the padded path followed by its four block locators |
| PackV2Tree.PutAllHolds | benchmarks/snapshot-reader/packv2.go:188-198 | writing only appends, and each locator returned names exactly the bytes written with their digest |
| PackV2Tree.StoredRows | benchmarks/snapshot-reader/packv2.go:216-230 | a stored tree is never empty and its leaf rows all have the leaf width |
| PackV2Tree.BulkLoad | benchmarks/snapshot-reader/packv2.go:216-230 | the root and height returned address a stored tree with all leaves at one depth whose rows in order are the rows given, and every byte the load wrote lies in a page of that tree |
| PackV2Height.HeightIsLeast | benchmarks/snapshot-reader/packv2.go:216-230 | the height returned is the least h with n <= 32*64^(h-1) |
| PackV2Height.HeightBoundExact | benchmarks/snapshot-reader/packv2.go:156-161 | the reader's height bound 8 accepts a load if and only if it has at most 2^47 rows |
| PackV2Capacity.PutAllExact | benchmarks/snapshot-reader/packv2.go:188-198 | a run of writes succeeds if and only if no block is over 16 MiB and the file stays below 2^63 bytes; a failure names which |
| PackV2Capacity.LoadExact | benchmarks/snapshot-reader/packv2.go:200-230 | a bulk load succeeds if and only if the file with all its pages stays below 2^63 bytes, and is then exactly that long; the 16 MiB write bound never stops it |
| PackV2Acceptance.SortedKeysAccepts | benchmarks/snapshot-reader/packv2.go:232-252 | paths are accepted as keys if and only if there is one, none is over 4096 bytes and none holds a NUL |
| PackV2Acceptance.SectionFitsSmall | benchmarks/snapshot-reader/packv2.go:278-298 | a section's payloads are within the write bound if and only if its type definitions and each path's own block are |
| PackV2Acceptance.BuildSucceedsExactly | benchmarks/snapshot-reader/packv2.go:254-312 | a build succeeds if and only if the corpus is acceptable and its file, as long as its sections, vocabulary and pages together, stays below 2^63 bytes; both are said of the corpus alone, and a refusal names which failed |
| PackV2Reader.ReadVerified | benchmarks/snapshot-reader/packv2.go:371-386 | over the bound: malformed; outside the file: a short read; another digest than the located one: a checksum mismatch; otherwise exactly the bytes of the range |
| PackV2Reader.ReadPage | benchmarks/snapshot-reader/packv2.go:388-400 | a page is accepted if and only if its range is verified and is one or more whole rows; otherwise the error of the range, or malformed |
| PackV2Reader.OpenManifest | benchmarks/snapshot-reader/packv2.go:332-350 | an opened manifest has four descriptors, a height within 1..8 and a positive key width |
| PackV2Reader.ManifestAccepted | benchmarks/snapshot-reader/packv2.go:337-350 | a manifest file is accepted if and only if all of it is the encoding of a valid manifest, the one read; a wrong size is malformed, a wrong digest a checksum mismatch |
| PackV2Reader.ReadSection | benchmarks/snapshot-reader/packv2.go:478-494 | a block that does not verify gives the error of its range, and one that does not decode to its section's type a decode error |
| PackV2Search.PageOfRows | benchmarks/snapshot-reader/packv2.go:388-400 | a page the writer made passes the reader's bounds and shows the rows written |
| PackV2Search.FloorAnswers | benchmarks/snapshot-reader/packv2.go:434-445 | on ascending keys the floor row is the answer if it has the key, and otherwise no row has |
| PackV2Search.FloorRowIsLast | benchmarks/snapshot-reader/packv2.go:402-408 | on ascending keys the bisection returns the last row whose key is at most the target, or -1 |
| PackV2Search.FloorChildHasKey | benchmarks/snapshot-reader/packv2.go:423-433 | if the key is under any child it is under the floor child, and there is one |
| PackV2Search.DescentAnswers | benchmarks/snapshot-reader/packv2.go:410-445 | descending a stored ascending tree never fails, finds a row of the key if there is one and nothing otherwise |
| PackV2Search.FoldSplit | benchmarks/snapshot-reader/packv2.go:447-475 | visiting two runs of rows one after the other is visiting their concatenation, first error included |
| PackV2Search.WalkFolds | benchmarks/snapshot-reader/packv2.go:447-475 | a walk visits exactly the tree's leaf rows, in order |
| PackV2Integrity.VerifiedFaithful | benchmarks/snapshot-reader/packv2.go:371-386 | over altered bytes a verified range is the honest one or a checksum mismatch; a short read only of a file cut shorter |
| PackV2Integrity.DescendFaithful | benchmarks/snapshot-reader/packv2.go:410-445 | down the verified locators, a descent over altered bytes ends as over the honest file or with a checksum mismatch, or in a shorter file a short read |
| PackV2Integrity.WalkFaithful | benchmarks/snapshot-reader/packv2.go:447-475 | the same for a walk, for any visitor that is itself faithful |
| PackV2Integrity.OpenFaithful | benchmarks/snapshot-reader/packv2.go:355-362 | opening over altered bytes yields the honest descriptors or a checksum mismatch, or in a shorter file a short read |
| PackV2Integrity.PathIntegrity | benchmarks/snapshot-reader/packv2.go:550-560 | for any data-file bytes the one-path read is the honest answer or a checksum mismatch; a short read only of a shorter file |
| PackV2Integrity.TableIntegrity | benchmarks/snapshot-reader/packv2.go:535-548 | for any data-file bytes the imports table is the honest one or a checksum mismatch; a short read only of a shorter file |
| PackV2Integrity.WholeIntegrity | benchmarks/snapshot-reader/packv2.go:513-533 | for any data-file bytes the whole read is the honest one or a checksum mismatch; a short read only of a shorter file |
| PackV2Exact.BuildStores | benchmarks/snapshot-reader/packv2.go:254-318 | a finished build holds every block where its row says, under a stored tree over the sorted paths, and has no byte that is not part of a block or page |
| PackV2Exact.BuiltFits | benchmarks/snapshot-reader/packv2.go:76-88 | every locator in a finished build's manifest fits its fixed-width fields |
| PackV2Exact.TableAscends | benchmarks/snapshot-reader/packv2.go:232-252 | the path table's padded keys ascend |
| PackV2Exact.HonestOpen | benchmarks/snapshot-reader/packv2.go:355-362 | opening the untouched pack yields the four descriptors written |
| PackV2Exact.WalkFilesWhole | benchmarks/snapshot-reader/packv2.go:513-524 | walking the untouched pack files every path under its stored record, in sorted order |
| PackV2Exact.LookupExact | benchmarks/snapshot-reader/packv2.go:550-560 | on a finished pack the one-path read returns the stored record or "not found", even for over-long or NUL-bearing targets |
| PackV2Exact.OpensExactly | benchmarks/snapshot-reader/packv2.go:329-363 | a finished build's manifest is accepted if and only if it has at most 2^47 paths and one is not empty |
| PackV2Exact.OnePathExact | benchmarks/snapshot-reader/packv2.go:550-560 | untouched pack: the stored record when the path is in the corpus, "not found" when not, never anything else |
| PackV2Exact.WholeExact | benchmarks/snapshot-reader/packv2.go:513-533 | untouched pack: every stored record, the paths in sorted order, the vocabulary |
| PackV2Exact.OneTableExact | benchmarks/snapshot-reader/packv2.go:535-548 | untouched pack: each path's stored imports |
| PackV2Exact.ReadsAreExactOrRefused | benchmarks/snapshot-reader/packv2.go:371-560 | given a finished build's manifest and any data-file bytes, each of the three reads is exactly what was stored or a checksum mismatch, the latter only of an altered file; a short read is answered only of a shorter one |
| PackV2Detection.WalkStored | benchmarks/snapshot-reader/packv2.go:447-475 | a walk over any bytes that ends without an error has found the tree that was stored |
| PackV2Detection.TreeSame | benchmarks/snapshot-reader/packv2.go:388-400 | a tree stored in two files is the same bytes in both, page by page |
| PackV2Detection.WholeReadsExactly | benchmarks/snapshot-reader/packv2.go:355-533 | a whole read answers, and then with all that was stored, if and only if the file begins with every byte written: any altered byte is a checksum mismatch, and a file cut shorter that or a short read |
| PackV2Detection.AlteredBlockRefused | benchmarks/snapshot-reader/packv2.go:371-560 | each path has its four blocks at places where any altered byte makes its one-path read a checksum mismatch (or, in a shorter file, a short read), whatever else was altered |
| PackV2Files.V2Writer.constructor | benchmarks/snapshot-reader/packv2.go:270-270 | a writer starts at offset zero of an empty file |
| PackV2Files.V2Writer.Write | benchmarks/snapshot-reader/packv2.go:188-198 | success appends exactly the payload and locates it, failure writes nothing, and it fails when `Put` does: `PackV2Capacity.PutExact` says exactly when |
| PackV2Files.V2Writer.WriteLevel | benchmarks/snapshot-reader/packv2.go:200-214 | the page loop leaves the file and parent rows the level's specification says, or its error |
| PackV2Files.V2Writer.WriteTree | benchmarks/snapshot-reader/packv2.go:216-230 | the level loop ends and leaves the file, root and height of the specification, or its error |
| PackV2Files.WriteSection | benchmarks/snapshot-reader/packv2.go:278-297 | one encoder's loop writes the descriptor and one block per path as its run of payloads |
| PackV2Files.WriteColumns | benchmarks/snapshot-reader/packv2.go:273-298 | appending one locator column per section yields the finished path table |
| PackV2Files.BuildPackV2 | benchmarks/snapshot-reader/packv2.go:254-312 | the build's file and manifest, or its refusal, are those of `Build`, whose success `PackV2Acceptance.BuildSucceedsExactly` and whose content the read results determine |
| PackV2Files.CountingReaderAt.ReadAt | benchmarks/snapshot-reader/pack.go:156-160 | a read returns the available part of the range and adds exactly its length to the count |
| PackV2Files.FindFloorRow | benchmarks/snapshot-reader/packv2.go:402-408 | the bisection loop finds the floor row |
| PackV2Files.PackV2File.ReadVerified | benchmarks/snapshot-reader/packv2.go:371-386 | the bytes or the error that `PackV2Reader.ReadVerified` determines, for at most one read of at most the located length, none when over the bound |
| PackV2Files.PackV2File.ReadPage | benchmarks/snapshot-reader/packv2.go:388-400 | answers as specified for at most one read of at most a full page |
| PackV2Files.PackV2File.Lookup | benchmarks/snapshot-reader/packv2.go:410-445 | answers as specified for at most one page read per level |
| PackV2Files.PackV2File.ReadRecord | benchmarks/snapshot-reader/packv2.go:496-511 | answers as specified for at most four block reads of the row's lengths |
| PackV2Files.PackV2File.ReadOnePath | benchmarks/snapshot-reader/packv2.go:550-560 | answers as specified for at most height + 4 reads and (h-1)*64*(k+44) + 32*(k+176) bytes plus the four blocks, whatever the file holds |
| PackV1.PackFile.WriteBlock | benchmarks/snapshot-reader/pack.go:87-95 | success appends exactly the payload and locates it; failure writes nothing |
| PackV1.WriteKind | benchmarks/snapshot-reader/pack.go:97-123 | the path loop writes one independent block per path |
| PackV1.BuildPack | benchmarks/snapshot-reader/pack.go:70-139 | the build's file and manifest are those of the specification |
| PackV1Capacity.V1BuildSucceedsExactly | benchmarks/snapshot-reader/pack.go:70-139 | a build succeeds if and only if its file, as long as the blocks of every path and the vocabulary, stays below 2^63 bytes; otherwise a write fails |
| PackV1.ReadBlock | benchmarks/snapshot-reader/pack.go:257-266 | a block outside the file is a short read, one with another digest a checksum mismatch, and only an unaltered one is decoded |
| PackV1.LastIndex | benchmarks/snapshot-reader/pack.go:236-239 | the path index holds the last row of each path and nothing for an absent one |
| PackV1.ReadWholePack | benchmarks/snapshot-reader/pack.go:269-301 | the path loop assembles the specified corpus or its first error |
| PackV1.ReadImportsTable | benchmarks/snapshot-reader/pack.go:303-317 | the path loop assembles the specified table or its first error |
| PackV1.ReadsProjectWhole | benchmarks/snapshot-reader/pack.go:303-344 | on any bytes whose whole read succeeds, the one-path read of every target and the table are its projections |
| PackAgreement.V1WholeExact | benchmarks/snapshot-reader/pack.go:269-301 | untouched v1 pack: every stored record, the paths sorted, the vocabulary |
| PackV1Integrity.V1ReadsExact | benchmarks/snapshot-reader/pack.go:269-344 | untouched v1 pack: all three reads return what was stored, absent targets "not found" |
| PackV1Integrity.V1ReadsAreExactOrRefused | benchmarks/snapshot-reader/pack.go:257-344 | over any data-file bytes each v1 read is exactly what was stored or a checksum mismatch, the latter only of an altered file; a short read only of a shorter one |
| PackV1Integrity.V1WholeReadsExactly | benchmarks/snapshot-reader/pack.go:257-301 | a whole read of a v1 pack answers, and then with all that was stored, if and only if the file begins with every byte written |
| PackAgreement.V2RefinesV1 | benchmarks/snapshot-reader/packv2.go:514-560 | for any corpus both builders accept, whole, table and one-path reads agree between v2 and v1, absent targets included, and the paths are ascending |
| PackAgreement.V2ReadsProjectWhole | benchmarks/snapshot-reader/packv2.go:535-560 | in an untouched v2 pack the one-path and table reads are projections of the whole read |
| Publication.StepKeepsPublished | benchmarks/snapshot-reader/packv2.go:254-318 | no step of any publisher or reader alters a completed publication or makes it writable again |
| Publication.StepInv | benchmarks/snapshot-reader/packv2.go:254-363 | every step keeps the publication invariant |
| Publication.OpenReadersSeeOnePublication | benchmarks/snapshot-reader/packv2.go:329-363 | in every reachable state an open reader's handle shows the whole data file of the one publication whose manifest it read, no reader misses its data file, and one is refused only over a publication whose manifest names none |
| Publication.LaterStepsKeepBytes | benchmarks/snapshot-reader/pack.go:60-69 | once open, no later step changes a byte the reader reads |
| Publication.NoSnapshotOnlyBeforeFirst | benchmarks/snapshot-reader/packv2.go:333-336 | "no snapshot" is answered if and only if no rename has completed |
| Publication.PublishedWereBuilt | benchmarks/snapshot-reader/packv2.go:313-317 | whatever is published is a snapshot some publisher had finished |
| Publication.AcceptedReaders | benchmarks/snapshot-reader/packv2.go:347-354 | a reader past the manifest accepted it and uses the data file name it names |
| PublicationProgress.ReaderGetsWhatItOpened | benchmarks/snapshot-reader/packv2.go:329-363 | a reader opens the latest publication; whatever others do between its steps, each can be taken, and it ends with the data file of that publication, or refused if and only if its manifest names none |
| PublicationProgress.PublishCompletes | benchmarks/snapshot-reader/packv2.go:265-318 | a publish nobody interrupts can be run to its end and then is the latest publication |
| PublicationProgress.PublishThenOpen | benchmarks/snapshot-reader/packv2.go:265-363 | a reader that comes after it holds the new data file, whole, or is refused if and only if the new manifest names none |
| PackPublication.TempNameValid | benchmarks/snapshot-reader/packv2.go:265-271 | a temporary data file name is a valid manifest entry and never a manifest's own name |
| PackPublication.HeightBounded | benchmarks/snapshot-reader/packv2.go:105-106 | a tree that fits a file has at most 11 levels, so the 16-bit height field never wraps |
| PackPublication.AcceptedIsBuilt | benchmarks/snapshot-reader/packv2.go:341-350 | if a reader accepts a built manifest it reads exactly that manifest |
| PackPublication.MadeV2SelfNaming | benchmarks/snapshot-reader/packv2.go:271-317 | every built v2 manifest leads to its own data file or is refused |
| PackPublication.MadeV2Serves | benchmarks/snapshot-reader/packv2.go:329-560 | a built snapshot that opens serves its corpus on all three reads |
| PackPublication.V2ReadersServeOnePublication | benchmarks/snapshot-reader/packv2.go:254-363 | over every run of v2 publishes, stopped anywhere and interleaved with readers, an open reader serves exactly one published corpus, the one whose manifest it opened (`PackPublication.V2FromCorpusToReader`: readers do get there) |
| PackPublication.MadeV2Leads | benchmarks/snapshot-reader/packv2.go:341-354 | a built manifest leads to its own data file if and only if the corpus has at most 2^47 paths and one is not empty, and is refused otherwise |
| PackPublication.V2RefusedOnlyUnopenable | benchmarks/snapshot-reader/packv2.go:329-350 | over every run of v2 publishes a reader is refused only over a publication of more than 2^47 paths or of empty ones alone |
| PackPublication.V2FromCorpusToReader | benchmarks/snapshot-reader/packv2.go:254-560 | an acceptable corpus whose file stays below 2^63 bytes is built, published, opened by a new reader and served whole, by path and by table; it is refused if and only if it has more than 2^47 paths or only empty ones |
| PackPublication.MadeV1Serves | benchmarks/snapshot-reader/pack.go:203-344 | a built v1 snapshot names its own data file and serves its corpus on all three reads |
| PackPublication.V1ReadersServeOnePublication | benchmarks/snapshot-reader/pack.go:60-146 | the same over every run of v1 publishes (`PackPublication.V1FromCorpusToReader`: readers do get there) |
| PackPublication.V1NeverRefused | benchmarks/snapshot-reader/pack.go:203-246 | over every run of v1 publishes no reader is refused |
| PackPublication.V1FromCorpusToReader | benchmarks/snapshot-reader/pack.go:70-344 | whatever fits one file is built, published, opened by a new reader and served on all three reads |
| Descendants.IndexChildren | benchmarks/selfuse-batch/descendants_posix.go:162-165 | the index lists exactly each parent's children, in whatever order the snapshot is iterated |
| Descendants.FindRoots | benchmarks/selfuse-batch/descendants_posix.go:166-182 | the breadth-first search ends on every snapshot, parent cycles included, with exactly the pids that reach the ancestor by parent links |
| Descendants.FindDescendants | benchmarks/selfuse-batch/descendants_posix.go:161-190 | exactly the live processes other than the ancestor that reach it by parent links, with their births |
| Descendants.FindSurvivors | benchmarks/selfuse-batch/descendants_posix.go:191-200 | exactly the owned pids still alive under their recorded birth, in increasing order, each once |
| DescendantCleanup.GainedStep | benchmarks/selfuse-batch/descendants_posix.go:48-52 | searching from one more root adds exactly what that root reaches, so the order of roots does not matter |
| DescendantCleanup.Tracker.Remember | benchmarks/selfuse-batch/descendants_posix.go:38-53 | ownership grows by exactly the live processes below a live root, the leader under its birth or a still matching owned process (`Custody.OwnedExactly`, both ways) |
| DescendantCleanup.Tracker.Start | benchmarks/selfuse-batch/descendants_posix.go:66-76 | one probe fixes the leader's birth and the first ownership; a failed one is recorded and no monitor starts |
| DescendantCleanup.Tracker.MonitorTick | benchmarks/selfuse-batch/descendants_posix.go:84-92 | a tick extends ownership or ends the monitor; a failure counts only when not cancelled |
| DescendantCleanup.Tracker.FindTargets | benchmarks/selfuse-batch/descendants_posix.go:239-244 | a signalling pass lists, sorted, exactly who its own snapshot shows alive under the recorded birth |
| DescendantCleanup.Tracker.SignalOne | benchmarks/selfuse-batch/descendants_posix.go:244-251 | one signal goes to the next pid listed, which the latest snapshot still shows, and the rest of the list stays good |
| DescendantCleanup.Tracker.SignalMatching | benchmarks/selfuse-batch/descendants_posix.go:239-253 | every signal goes to an owned pid that the snapshot taken just before shows alive under its birth; a pass without an error signals all of them, and an error has its cause |
| DescendantCleanup.Tracker.JoinMonitor | benchmarks/selfuse-batch/descendants_posix.go:203-208 | after the join the monitor is not running; until then it may only have probed, and what it met after its cancellation is no error |
| DescendantCleanup.Tracker.Settle | benchmarks/selfuse-batch/descendants_posix.go:213-230 | the first probe of stop alone decides ownership, the reported list (sorted, exactly the owned pids) and the status |
| DescendantCleanup.Tracker.StopAfterJoin | benchmarks/selfuse-batch/descendants_posix.go:210-290 | nothing left alive means no further probe and no signal, and anything left alive is signalled; success on any exit means all probes succeeded and none owned is alive in the last |
| DescendantCleanup.Tracker.WaitForExit | benchmarks/selfuse-batch/descendants_posix.go:257-270 | the grace loop only looks, and ends when nothing owned is left, a probe fails, the context or the grace period is over |
| DescendantCleanup.Tracker.WaitForEnd | benchmarks/selfuse-batch/descendants_posix.go:275-289 | the last loop only looks, and ends when nothing owned is left, a probe fails or the context is over |
| DescendantCleanup.Tracker.CleanUp | benchmarks/selfuse-batch/descendants_posix.go:231-289 | SIGKILL follows only a complete SIGTERM pass and 350 ms; "survived" comes only after a complete SIGKILL pass and reports exactly those the last snapshot shows, at least one; success leaves no owned identity alive; every other error has its cause |
| DescendantCleanup.Tracker.Stop | benchmarks/selfuse-batch/descendants_posix.go:201-290 | signals come only after the join and only to checked identities; no error means no observation error, every probe after the join succeeded and the last shows no live owned identity; an error has its cause; all of it is a run of the custody machine |
| DescendantCleanup.RunOwnsByProbe | benchmarks/selfuse-batch/descendants_posix.go:38-97 | whatever a run owns was taken from a table that one of its probes showed |
| DescendantCleanup.Use | benchmarks/selfuse-batch/descendants_posix.go:66-290 | over a whole use (start or not, any monitor ticks, stop) every owned identity was taken from a probed table and whoever such a table showed below a live root is owned, every signal was checked against the latest probe, and without an error every failed probe was a cancelled one of the monitor |
| Custody.OwnedExactly | benchmarks/selfuse-batch/descendants_posix.go:38-53 | after a snapshot a pid is owned under the birth shown if and only if it is alive and parent links lead from it to another process that is the leader, alive under its birth, or a still matching owned one; any other is owned as before |
| Custody.OwnedIffTaken | benchmarks/selfuse-batch/descendants_posix.go:38-53 | an identity is owned after n snapshots if and only if it was taken from one of them, live and reachable from a root of that moment, and no later one took the pid anew |
| Custody.CustodyHolds | benchmarks/selfuse-batch/descendants_posix.go:38-97 | over every run an identity is owned if and only if some snapshot showed it as a live row reachable from the leader's identity or an identity owned before, and no later one took the pid under another birth; the snapshots are the tables the run's probes showed, in order, and the leader's identity is one birth that one of them showed |
| Custody.NobodyIsLost | benchmarks/selfuse-batch/descendants_posix.go:38-97 | over every run whoever a snapshot showed alive below a live root is owned from then on |
| Custody.SignalsAreChecked | benchmarks/selfuse-batch/descendants_posix.go:231-253 | although a signal is restrained only by the list the signalling pass made, whoever is signalled is owned and alive under its birth in what the latest probe showed, and the monitor has been joined |
| Custody.CompletePassSignals | benchmarks/selfuse-batch/descendants_posix.go:239-253 | a signalling pass that ends without an error signals exactly those its own snapshot showed alive under the birth they are owned by |
| Custody.SeenIsProbed | benchmarks/selfuse-batch/descendants_posix.go:66-93 | the snapshots ownership rests on are exactly the tables shown by start, the monitor and the first probe of stop, in order |
| Custody.LastIsLatest | benchmarks/selfuse-batch/descendants_posix.go:239-244 | once stop has settled, the snapshot it goes by is what the latest probe showed |
| Custody.StepInv | benchmarks/selfuse-batch/descendants_posix.go:38-290 | every step keeps ownership, the one leader birth, the order of join and settling, and the pending targets alive in the latest snapshot |
| Custody.NothingAfterJoin | benchmarks/selfuse-batch/descendants_posix.go:203-211 | once joined the monitor takes no step in any continuation, and after stop's first probe ownership never changes |
| Custody.CleanObservation | benchmarks/selfuse-batch/descendants_posix.go:66-91 | without a recorded error, every failed probe was a monitor probe already cancelled |
| Custody.ErrorsExactly | benchmarks/selfuse-batch/descendants_posix.go:66-91 | an error is recorded if and only if some probe failed that the monitor did not lose to its cancellation |
| CommandCapture.AdmitAccounts | cmd/corvint-go-test-provider/process_posix.go:319-339 | however offers are cut, min(limit, total) bytes are stored, overflow is known as far as 64 bits count, and its token is sent at most once so the send never blocks |
| CommandCapture.Budget.Admit | cmd/corvint-go-test-provider/process_posix.go:319-339 | the counters move as the 64-bit saturating step says and the bytes to keep are returned |
| CommandCapture.Capture.Write | cmd/corvint-go-test-provider/process_posix.go:353-361 | the buffer grows by exactly the admitted prefix while the whole write is claimed |
| CommandCapture.CapturesUnderAnyInterleaving | cmd/corvint-go-test-provider/process_posix.go:319-373 | under every interleaving of the drains each capture is a prefix of its stream, min(limit, total) bytes are admitted, and the token is sent exactly when the 64-bit count passes the limit |
| CommandCapture.ExpiresOnlyUndrained | cmd/corvint-go-test-provider/process_posix.go:375-404 | waiting for the pipes expires only while one of them is not drained; a drain that ended in time is collected |
| CommandCapture.SomeRunCaptures | cmd/corvint-go-test-provider/process_posix.go:319-373 | for every two outputs a run drains both to the end, collects both reports and holds of each what the limit left |
| CommandCapture.NoErrorConditions | cmd/corvint-go-test-provider/process_posix.go:180-206 | the joined error is nil if and only if the wait, selection, termination, cleanup, limit and drains all went well |
| CommandCapture.ErrorsExact | cmd/corvint-go-test-provider/process_posix.go:137-206 | each error is joined if and only if its own cause was met: the wait, the select, the bytes offered, the cleanup, the drains |
| CommandCapture.NoErrorMeansComplete | cmd/corvint-go-test-provider/process_posix.go:137-206 | no error if and only if the command was waited for and cleaned up, both pipes were read to end of file in time and no more was offered than the limit; both captures then hold all of it if and only if the limit is below 2^64-1 or the total does not exceed that |
| GroupQuiescence.TerminateGroup | cmd/corvint-go-test-provider/process_posix.go:240-268 | the grace loop reaches the specified entry state for every sequence of answers and delays |
| GroupQuiescence.AwaitQuiescence | cmd/corvint-go-test-provider/process_posix.go:279-303 | the final loop ends with the specified outcome |
| GroupQuiescence.CleanupGroup | cmd/corvint-go-test-provider/process_posix.go:240-304 | the whole cleanup ends, for every environment, with the specified outcome, whose signals and verdict `GroupSignals.GroupIsSignalled` determines |
| GroupQuiescence.QuietOnlyAfterWindow | cmd/corvint-go-test-provider/process_posix.go:279-288 | a nil return rests on an unbroken run of "no such process" up to the last call, with clock readings at least 10 ms apart over it |
| GroupQuiescence.AnswersSpanWindow | cmd/corvint-go-test-provider/process_posix.go:282-288 | when the clock is read within `lag` of an answer, the answers span the window less that lag |
| GroupQuiescence.LagShortensRun | cmd/corvint-go-test-provider/process_posix.go:282-288 | for each lag a concrete run declared quiet whose answers span only the window less the lag |
| GroupQuiescence.WindowSpannedIffPrompt | cmd/corvint-go-test-provider/process_posix.go:282-288 | quiet answers always span the whole window if and only if no lag is possible |
| GroupQuiescence.QuietOnOneIffStalled | cmd/corvint-go-test-provider/process_posix.go:282-288 | a single "no such process" can be enough for a nil return if and only if the check of the window may lag by the whole window |
| GroupQuiescence.KillOnlyAfterGrace | cmd/corvint-go-test-provider/process_posix.go:255-278 | at most one SIGKILL, not before the grace deadline, and only if no earlier answer said the group was gone |
| GroupQuiescence.EndsWithinDelays | cmd/corvint-go-test-provider/process_posix.go:240-304 | for every sequence of answers it returns, later than its deadline by at most one timer overrun, three answers and four times the readings between two signals |
| GroupQuiescence.EndsByDeadline | cmd/corvint-go-test-provider/process_posix.go:297-302 | when nothing takes time but waiting, it returns by the deadline, or at once when that has passed |
| GroupSignals.GracePolls | cmd/corvint-go-test-provider/process_posix.go:255-268 | the grace loop probes every 5 ms, or at the grace deadline if that comes sooner, until the group is gone, an error comes or the deadline is read |
| GroupSignals.AwaitFits | cmd/corvint-go-test-provider/process_posix.go:279-303 | the final loop goes on, every 5 ms, exactly while there is no error, no 10 ms of unbroken "gone" and time left; its verdict is what its last probe calls for |
| GroupSignals.GroupIsSignalled | cmd/corvint-go-test-provider/process_posix.go:240-304 | SIGTERM first, probes through the grace period of 750 ms or what the deadline leaves, SIGKILL if and only if none of them found the group gone, then probes to the verdict; nothing else is sent, an error ends it where it comes, and a missing permission is reported if and only if one of the calls that count met it |
| GroupSignals.OnlyGroupsAreSignalled | cmd/corvint-go-test-provider/process_posix.go:240-243 | anything is sent if and only if the pid is positive, and any other is reported |
| OwnedGroups.OwnedGroup.constructor | script/process_group.py:37-55 | a started group is not retired and has signalled nobody; for a command that cannot start exactly one SIGKILL was sent, before the keeper was waited for, and the group counts as retired unless that was refused |
| OwnedGroups.OwnedGroup.Kill | script/process_group.py:61-70 | one group signal, sent while the keeper is unreaped |
| OwnedGroups.OwnedGroup.SendSignal | script/process_group.py:72-76 | refused without sending once retirement began, else one pinned group signal, with its error if it was refused |
| OwnedGroups.OwnedGroup.DrainOnce | script/process_group.py:92-100 | one round kills the pinned group once and drains for the time left, at most 0.2 s |
| OwnedGroups.OwnedGroup.DrainOutput | script/process_group.py:90-100 | the loop ends as the specified drain does, having sent as many kills in as much time |
| OwnedGroups.OwnedGroup.Communicate | script/process_group.py:78-80 | with any timeout or none, the drained output is remembered on success and unchanged on failure |
| OwnedGroups.OwnedGroup.Retire | script/process_group.py:82-112 | a second call repeats the result or raises and sends nothing; the first gives the result, takes the time, sends the kills and leaves the state that the specified retirement does, all kills before the keeper reap |
| OwnedGroups.RetiringExact | script/process_group.py:82-112 | call by call: rounds of a kill and 0.2 s of draining, the j-th at 0.2 j s, until one raises, brings the output or has at most 0.2 s left; then, unless one raised, one last kill and one wait; the output is returned if and only if it came and the keeper was reaped, and each failure raises its own exception |
| OwnedGroups.RetiringBounds | script/process_group.py:90-112 | a retirement takes at most its bound (nothing when negative) plus 0.1 s and at most bound/0.2 + 2 kills |
| OwnedGroups.OutlastingTaken | script/process_group.py:90-112 | the slowest run takes the bound and 0.1 s, or the larger of the two when the output was drained before |
| OwnedGroups.EndsWithinSlackExactly | script/process_group.py:82-112 | it always ends within bound + 0.1 s if and only if the bound is not negative |
| OwnedGroups.EndsWithinBoundExactly | script/process_group.py:82-112 | it always ends within the bound if and only if the output was drained before and the bound is at least 0.1 s |
| OwnedGroups.Drive | script/process_group.py:29-119 | over every sequence of calls each group signal is sent while the keeper is unreaped, and later retirements give the first result |
| TokenCounts.TruthyExact | benchmarks/dogfood-workers/main.go:304-320 | a key counts as said if and only if it is there and not nil, false, 0 or empty |
| TokenCounts.NumberExact | benchmarks/dogfood-workers/main.go:227-247 | a numeral is known if and only if it consists of digits |
| TokenCounts.NumeralReadsBack | benchmarks/dogfood-workers/main.go:227-247 | every natural number's numeral is read as that number: nothing overflows or rounds |
| TokenCounts.AddedExact | benchmarks/dogfood-workers/main.go:248-256 | a running sum is known if and only if every summand is, and is then exact |
| TokenCounts.CumulatedExact | benchmarks/dogfood-workers/main.go:257-280 | a cumulative counter is known if and only if its values are naturals that never go down, and is then the last |
| TokenCounts.CumulateTwice | benchmarks/dogfood-workers/main.go:257-280 | reporting the same value again changes nothing |
| TokenCounts.Cumulative | benchmarks/dogfood-workers/main.go:257-280 | the field loop computes each field's counter from its prior and new value |
| TokenCounts.SumMapTake | benchmarks/dogfood-workers/main.go:402-406 | a sum over a map may take any key first, so iteration order does not matter |
| ClaudeAccounting.SideExact | benchmarks/dogfood-workers/main.go:351-361 | a record is an assistant's by its type and on a side chain by its flag |
| ClaudeAccounting.UsageExact | benchmarks/dogfood-workers/main.go:362-363 | a record's usage is the object under its message's usage |
| ClaudeAccounting.RequestExact | benchmarks/dogfood-workers/main.go:364-369 | a record belongs to the non-empty string its usage names or, when that names nothing, to the one it names itself |
| ClaudeAccounting.SideSays | benchmarks/dogfood-workers/main.go:343-376 | the loop's requests, anonymous flag and presence are what the transcript says |
| ClaudeAccounting.UsagesSay | benchmarks/dogfood-workers/main.go:363-376 | each request's stored counter is its reported values cumulated, and exists if and only if it reported usage |
| ClaudeAccounting.ClaudeTotalExact | benchmarks/dogfood-workers/main.go:391-412 | a side's total is known if and only if no assistant record is anonymous and every request has usage with nondecreasing naturals; it is then the sum of each request's last value |
| ClaudeAccounting.ClaudeKnownExactly | benchmarks/dogfood-workers/main.go:394-411 | a total is known if and only if the side's records are clean for that field |
| ClaudeAccounting.RepeatingLatestChangesNothing | benchmarks/dogfood-workers/main.go:363-376 | repeating a request's latest usage record leaves both sides' accounts unchanged |
| ClaudeAccounting.TotalField | benchmarks/dogfood-workers/main.go:402-411 | summing the usages in any order, then the incompleteness rule, gives the total |
| ClaudeAccounting.ReportSide | benchmarks/dogfood-workers/main.go:391-413 | turns are the distinct requests unless one is anonymous, with one total per field |
| ClaudeAccounting.SideReportExact | benchmarks/dogfood-workers/main.go:391-413 | what the loop keeps of a side reports exactly what the transcript says of it, and its presence |
| ClaudeAccounting.VisitRecord | benchmarks/dogfood-workers/main.go:356-376 | an assistant record changes its side as the accounting says |
| ClaudeAccounting.ParseClaude | benchmarks/dogfood-workers/main.go:343-428 | the report is what the transcript says: turns are the requests unless a record is anonymous, each total is exact, and the main chain, the side chains or neither is reported |
| CodexAccounting.ContainerExact | benchmarks/dogfood-workers/main.go:440-443 | a line is read from the object under msg, and without one from the record |
| CodexAccounting.TurnExact | benchmarks/dogfood-workers/main.go:444-451 | a line counts turns if and only if the record, or when it names no type its container, names one of three kinds |
| CodexAccounting.EventExact | benchmarks/dogfood-workers/main.go:452-468 | a line is a snapshot or a delta if and only if record or container names a usage kind and the container holds a total, or without one a last usage, or without that a usage |
| CodexAccounting.UncoveredStep | benchmarks/dogfood-workers/main.go:457-467 | a snapshot covers every delta before it, a delta starts an uncovered tail, other lines change nothing |
| CodexAccounting.FlagsSay | benchmarks/dogfood-workers/main.go:437-473 | the loop's flags are what the transcript says: a snapshot, a delta, an uncovered delta |
| CodexAccounting.CountersSay | benchmarks/dogfood-workers/main.go:457-471 | the loop's counters are the snapshots cumulated and the deltas added |
| CodexAccounting.CodexTotalExact | benchmarks/dogfood-workers/main.go:474-491 | with a snapshot: the last one, known if and only if no delta follows it and the snapshots are nondecreasing naturals; without: the deltas' sum, known if and only if there are any and all are known |
| CodexAccounting.AddDeltas | benchmarks/dogfood-workers/main.go:469-471 | the field loop adds one delta to every field |
| CodexAccounting.VisitEvent | benchmarks/dogfood-workers/main.go:438-473 | one line changes the stream's counters and flags as the accounting says |
| CodexAccounting.ParseCodex | benchmarks/dogfood-workers/main.go:433-492 | the report's turns and totals are those said of the transcript |
| WorkerReceipts.AddMetrics | benchmarks/dogfood-workers/main.go:541-543 | the field loop adds one worker's value to every total, absent values as unknown |
| WorkerReceipts.BuildTotals | benchmarks/dogfood-workers/main.go:523-561 | each total is known if and only if every worker's value is, and is then their sum; solved workers are counted only when every outcome was observed |
| StatusPaths.SplitTerminated | benchmarks/dogfood-measure/main.go:272-275 | splitting NUL-terminated parts gives the parts back and an empty last one |
| StatusPaths.TwoPathsExact | benchmarks/dogfood-measure/main.go:284-284 | a second path follows if and only if a status letter is R or C |
| StatusPaths.ReadExact | benchmarks/dogfood-measure/main.go:275-292 | parts are read as a list of entries if and only if the entries are valid and spell the parts, so a reading is unique |
| StatusPaths.ReadPrint | benchmarks/dogfood-measure/main.go:272-298 | reading inverts printing for every list of valid entries, and the paths are exactly those printed |
| StatusPaths.PrintInjective | benchmarks/dogfood-measure/main.go:272-298 | different lists of entries print differently |
| StatusPaths.AcceptedIffSpelled | benchmarks/dogfood-measure/main.go:272-298 | output is accepted if and only if it spells some list of valid entries, whose paths are the result |
| StatusPaths.FaultExact | benchmarks/dogfood-measure/main.go:275-291 | a fault is named for the first thing wrong: what comes before it spells valid entries |
| StatusPaths.ListingUnique | benchmarks/dogfood-measure/main.go:293-297 | a set of paths has one sorted duplicate-free listing |
| StatusPaths.CollectPaths | benchmarks/dogfood-measure/main.go:273-292 | the index loop collects exactly the paths read, or the first fault |
| StatusPaths.StatusPaths | benchmarks/dogfood-measure/main.go:272-298 | the result is the sorted duplicate-free listing of the paths, or the fault |

## Left out

- PackV2Exact.ReadsAreExactOrRefused: assumes `NoForgedRange` for the two files compared; SHA-256 itself is not modelled.
- Gob.BlockIndependence: value bytes and the decoder's engine are parameters under one law; a message is below 2^64 bytes; nil and empty slices are the same value.
- PackPublication.V1ReadersServeOnePublication: assumes that a v1 manifest's gob encoding decodes to itself.
- Publication.OpenReadersSeeOnePublication: one publisher at a time in a directory (two would share the temporary manifest name); a publisher may stop at any step, but loss of power is not modelled, and file and directory operations are single steps.
- PackV2Files.BuildPackV2: the only operating-system failure of a write is a file of 2^63 bytes or more; other I/O errors end a publisher like any other stop.
- PackV2Files.PackV2File.ReadOnePath: the cost starts after open; the walk-based reads have no cost bound.
- PackV2Files: `walk`, `ReadWhole` and `ReadOneTable` of v2 are recursive functions over any visitor; the closure that updates the corpus in place is a fold over its value.
- DescendantCleanup.Tracker.Stop: called once per tracker, with a context that has a deadline (without one the last loop may run for ever); the number of monitor ticks before the join is finite.
- Custody.CustodyHolds: a probe and the ownership update after it are one step; the fields are shared without a lock, and the join is what orders them.
- CommandCapture.NoErrorMeansComplete: starts where both drains run; refusals before that (invalid request, ended context, pipe or start failure) read off one branch. Mutexes make admit and append single steps.
- OwnedGroups.OwnedGroup.Retire: timeouts are exact and calls without one take no time.
- OwnedGroups.OwnedGroup.Communicate: a call without a timeout returns, fails or is interrupted in the end; one that blocks for ever is not modelled.
- ClaudeAccounting.ParseClaude: tools, source opens, searches and compactions are left out; transcripts arrive as decoded JSON records, with lines that do not parse marked.
- WorkerReceipts.BuildTotals: a worker's entry arrives with its metrics; reading transcripts from disk and writing the receipt are left out.
- TokenCounts.NumberExact: the JSON grammar of numbers is not modelled, any string may arrive as a number.
- The `ps` output parser, the 4 MiB probe output limit and the probe budget: a probe fails or shows a table.
- The database and library wrappers of the snapshot benchmark, the corpus generator, analyzers, servers, dashboards, qualification harnesses and the lease protocol of the test provider: orchestration whose remaining claims read off one branch.
